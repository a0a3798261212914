/** The arithmetic and comparison operators on expressions, with their shortcuts
    for constants close to zero and to one. */
module Operators {
  import opened Expressions
  import opened LinearForms
  import opened Options
  import opened Precision

  predicate CloseToZero(c: real) {
    Compare(c, 0.0, DEFAULT_TOLERANCE, DEFAULT_TOLERANCE) == 0
  }

  predicate CloseToOne(c: real) {
    Compare(c, 1.0, DEFAULT_TOLERANCE, DEFAULT_TOLERANCE) == 0
  }

  /** How much a shortcut can drop. */
  lemma Dropped(c: real)
    ensures CloseToZero(c) <==> Abs(c) < DEFAULT_TOLERANCE
    ensures CloseToOne(c) ==> Abs(c - 1.0) * (2.0 - DEFAULT_TOLERANCE) < 2.0 * DEFAULT_TOLERANCE
  {
    NearZero(c, DEFAULT_TOLERANCE, DEFAULT_TOLERANCE);
    if CloseToOne(c) { NearOne(c, DEFAULT_TOLERANCE); }
  }

  function AddedConstant(p: Linear, c: real): Linear {
    if CloseToZero(c) then p else Shift(p, c)
  }

  function Multiplied(p: Linear, c: real): Linear {
    if CloseToOne(c) then p else Scale(p, c)
  }

  function Negated(p: Linear): Linear {
    Multiplied(p, -1.0)
  }

  lemma EvalNegated(p: Linear, x: int -> real)
    ensures Eval(Negated(p), x) == -Eval(p, x)
  {
    assert !CloseToOne(-1.0) by { assert Abs(-2.0) == 2.0 && 2.0 * 2.0 / 2.0 == 2.0; }
    EvalScale(p, -1.0, x);
  }

  // The operators on expression objects: each returns a new expression

  method FromReal(c: real) returns (r: Expression)
    ensures fresh(r) && r.impl == null && r.Form() == Linear(map[], c)
  {
    r := new Expression(c);
  }

  /** variable * coefficient */
  method FromVariable(coefficient: real, id: int) returns (r: Expression)
    ensures fresh(r) && r.impl != null && fresh(r.impl) && r.Form() == Linear(map[id := coefficient], 0.0)
  {
    r := new Expression.OfVariable(coefficient, id);
  }

  /** expression + constant */
  method PlusReal(e: Expression, c: real) returns (r: Expression)
    ensures fresh(r) && (r.impl != null ==> fresh(r.impl)) && r.Form() == AddedConstant(e.Form(), c)
  {
    r := new Expression.Copy(e);
    if !CloseToZero(c) {
      r.AddConstant(c);
    }
  }

  /** expression + expression */
  method PlusExpression(e: Expression, f: Expression) returns (r: Expression)
    ensures fresh(r) && (r.impl != null ==> fresh(r.impl)) && r.Form() == Plus(e.Form(), f.Form())
  {
    r := new Expression.Copy(e);
    r.Add(f);
  }

  /** expression * constant */
  method TimesReal(e: Expression, c: real) returns (r: Expression)
    ensures fresh(r) && (r.impl != null ==> fresh(r.impl)) && r.Form() == Multiplied(e.Form(), c)
  {
    r := new Expression.Copy(e);
    if !CloseToOne(c) {
      r.MultiplyConstant(c);
    }
  }

  /** expression * expression; None when both have variables. */
  method TimesExpression(e: Expression, f: Expression) returns (r: Option<Expression>)
    ensures r.Some? <==> e.Form().terms == map[] || f.Form().terms == map[]
    ensures r.Some? ==> fresh(r.value) && (r.value.impl != null ==> fresh(r.value.impl)) && r.value.Form() == Times(e.Form(), f.Form())
  {
    var product := new Expression.Copy(e);
    var ok := product.Multiply(f);
    r := if ok then Some(product) else None;
  }

  /** expression - expression */
  method MinusExpression(e: Expression, f: Expression) returns (r: Expression)
    ensures fresh(r) && (r.impl != null ==> fresh(r.impl)) && r.Form() == Plus(e.Form(), Negated(f.Form()))
  {
    var negated := TimesReal(f, -1.0);
    r := PlusExpression(e, negated);
  }

  // Whole expressions. The remaining operators are these with other constants:
  // e - c is e + -c, c - e is -e + c, e / c is e * (1 / c)

  datatype Tree =
    | Real(c: real)
    | Variable(coefficient: real, id: int)
    | AddReal(e: Tree, c: real)
    | AddTree(e: Tree, f: Tree)
    | SubTree(e: Tree, f: Tree)
    | MulReal(e: Tree, c: real)
    | MulTree(e: Tree, f: Tree)

  /** What the operators build; None when a product of variables is refused. */
  function Build(t: Tree): Option<Linear> {
    match t
    case Real(c) => Some(Linear(map[], c))
    case Variable(coefficient, id) => Some(Linear(map[id := coefficient], 0.0))
    case AddReal(e, c) => (match Build(e) case None => None case Some(p) => Some(AddedConstant(p, c)))
    case MulReal(e, c) => (match Build(e) case None => None case Some(p) => Some(Multiplied(p, c)))
    case AddTree(e, f) =>
      var p, q := Build(e), Build(f);
      if p.Some? && q.Some? then Some(Plus(p.value, q.value)) else None
    case SubTree(e, f) =>
      var p, q := Build(e), Build(f);
      if p.Some? && q.Some? then Some(Plus(p.value, Negated(q.value))) else None
    case MulTree(e, f) =>
      var p, q := Build(e), Build(f);
      if p.Some? && q.Some? && (p.value.terms == map[] || q.value.terms == map[]) then Some(Times(p.value, q.value)) else None
  }

  /** Building with objects, whichever representation each of them uses. */
  method BuildExpression(t: Tree) returns (r: Option<Expression>)
    ensures r.Some? <==> Build(t).Some?
    ensures r.Some? ==> fresh(r.value) && (r.value.impl != null ==> fresh(r.value.impl)) && r.value.Form() == Build(t).value
    decreases t
  {
    match t
    case Real(c) =>
      var e := FromReal(c);
      r := Some(e);
    case Variable(coefficient, id) =>
      var e := FromVariable(coefficient, id);
      r := Some(e);
    case AddReal(e, c) =>
      r := BuildExpression(e);
      if r.Some? {
        var sum := PlusReal(r.value, c);
        r := Some(sum);
      }
    case MulReal(e, c) =>
      r := BuildExpression(e);
      if r.Some? {
        var product := TimesReal(r.value, c);
        r := Some(product);
      }
    case AddTree(e, f) =>
      var p := BuildExpression(e);
      var q := BuildExpression(f);
      r := AddBoth(p, q);
    case SubTree(e, f) =>
      var p := BuildExpression(e);
      var q := BuildExpression(f);
      r := SubtractBoth(p, q);
    case MulTree(e, f) =>
      var p := BuildExpression(e);
      var q := BuildExpression(f);
      r := MultiplyBoth(p, q);
  }

  method AddBoth(p: Option<Expression>, q: Option<Expression>) returns (r: Option<Expression>)
    ensures r.Some? <==> p.Some? && q.Some?
    ensures r.Some? ==> fresh(r.value) && (r.value.impl != null ==> fresh(r.value.impl))
    ensures r.Some? ==> r.value.Form() == Plus(p.value.Form(), q.value.Form())
  {
    r := None;
    if p.Some? && q.Some? {
      var sum := PlusExpression(p.value, q.value);
      r := Some(sum);
    }
  }

  method SubtractBoth(p: Option<Expression>, q: Option<Expression>) returns (r: Option<Expression>)
    ensures r.Some? <==> p.Some? && q.Some?
    ensures r.Some? ==> fresh(r.value) && (r.value.impl != null ==> fresh(r.value.impl))
    ensures r.Some? ==> r.value.Form() == Plus(p.value.Form(), Negated(q.value.Form()))
  {
    r := None;
    if p.Some? && q.Some? {
      var difference := MinusExpression(p.value, q.value);
      r := Some(difference);
    }
  }

  method MultiplyBoth(p: Option<Expression>, q: Option<Expression>) returns (r: Option<Expression>)
    ensures r.Some? <==> p.Some? && q.Some? && (p.value.Form().terms == map[] || q.value.Form().terms == map[])
    ensures r.Some? ==> fresh(r.value) && (r.value.impl != null ==> fresh(r.value.impl))
    ensures r.Some? ==> r.value.Form() == Times(p.value.Form(), q.value.Form())
  {
    r := None;
    if p.Some? && q.Some? {
      r := TimesExpression(p.value, q.value);
    }
  }

  /** The arithmetic that was written. */
  ghost function Exact(t: Tree, x: int -> real): real {
    match t
    case Real(c) => c
    case Variable(coefficient, id) => Share(coefficient, x(id))
    case AddReal(e, c) => Exact(e, x) + c
    case AddTree(e, f) => Exact(e, x) + Exact(f, x)
    case SubTree(e, f) => Exact(e, x) - Exact(f, x)
    case MulReal(e, c) => Share(Exact(e, x), c)
    case MulTree(e, f) => Share(Exact(e, x), Exact(f, x))
  }

  /** How far the shortcuts can take the value from it. */
  ghost function Error(t: Tree, x: int -> real): real {
    match t
    case Real(_) => 0.0
    case Variable(_, _) => 0.0
    case AddReal(e, c) => Error(e, x) + if CloseToZero(c) then Abs(c) else 0.0
    case AddTree(e, f) => Error(e, x) + Error(f, x)
    case SubTree(e, f) => Error(e, x) + Error(f, x)
    case MulReal(e, c) =>
      if CloseToOne(c) then Error(e, x) + Share(Abs(c - 1.0), Abs(Exact(e, x))) else Share(Error(e, x), Abs(c))
    case MulTree(e, f) =>
      Share(Error(e, x), Abs(Exact(f, x))) + Share(Abs(Exact(e, x)), Error(f, x)) + Share(Error(e, x), Error(f, x))
  }

  lemma ShareAbs(a: real, b: real)
    ensures Abs(Share(a, b)) == Share(Abs(a), Abs(b))
  {
  }

  lemma ShareGrows(a: real, b: real, c: real, d: real)
    requires 0.0 <= a <= b && 0.0 <= c <= d
    ensures 0.0 <= Share(a, c) <= Share(b, d)
  {
    assert a * c >= 0.0 && (b - a) * c >= 0.0 && b * (d - c) >= 0.0;
    assert (b - a) * c == b * c - a * c && b * (d - c) == b * d - b * c;
  }

  /** A product of two approximate factors. */
  lemma ProductError(a: real, a': real, da: real, b: real, b': real, db: real)
    requires Abs(a' - a) <= da && Abs(b' - b) <= db
    ensures Abs(Share(a', b') - Share(a, b)) <= Share(da, Abs(b)) + Share(Abs(a), db) + Share(da, db)
  {
    var u, v := a' - a, b' - b;
    assert Share(a', b') - Share(a, b) == Share(u, b) + Share(a, v) + Share(u, v) by { Expand(a, u, b, v); }
    ShareAbs(u, b);
    ShareAbs(a, v);
    ShareAbs(u, v);
    ShareGrows(Abs(u), da, Abs(b), Abs(b));
    ShareGrows(Abs(a), Abs(a), Abs(v), db);
    ShareGrows(Abs(u), da, Abs(v), db);
  }

  lemma Expand(a: real, u: real, b: real, v: real)
    ensures Share(a + u, b + v) - Share(a, b) == Share(u, b) + Share(a, v) + Share(u, v)
  {
    assert (a + u) * (b + v) == a * b + a * v + u * b + u * v;
  }

  lemma {:induction false} ErrorNotNegative(t: Tree, x: int -> real)
    ensures Error(t, x) >= 0.0
    decreases t
  {
    match t
    case Real(_) =>
    case Variable(_, _) =>
    case AddReal(e, _) => ErrorNotNegative(e, x);
    case AddTree(e, f) => ErrorNotNegative(e, x); ErrorNotNegative(f, x);
    case SubTree(e, f) => ErrorNotNegative(e, x); ErrorNotNegative(f, x);
    case MulReal(e, c) =>
      ErrorNotNegative(e, x);
      ShareGrows(0.0, Abs(c - 1.0), 0.0, Abs(Exact(e, x)));
      ShareGrows(0.0, Error(e, x), 0.0, Abs(c));
    case MulTree(e, f) =>
      ErrorNotNegative(e, x);
      ErrorNotNegative(f, x);
      ShareGrows(0.0, Error(e, x), 0.0, Abs(Exact(f, x)));
      ShareGrows(0.0, Abs(Exact(e, x)), 0.0, Error(f, x));
      ShareGrows(0.0, Error(e, x), 0.0, Error(f, x));
  }

  /** The value is within `error` of `exact`. */
  ghost predicate Within(value: real, exact: real, error: real) {
    Abs(value - exact) <= error
  }

  lemma MulRealError(p: Linear, c: real, exact: real, error: real, x: int -> real)
    requires Within(Eval(p, x), exact, error) && error >= 0.0
    ensures Within(Eval(Multiplied(p, c), x), Share(exact, c),
                   if CloseToOne(c) then error + Share(Abs(c - 1.0), Abs(exact)) else Share(error, Abs(c)))
  {
    var value := Eval(p, x);
    if CloseToOne(c) {
      ShareMinus(c, 1.0, exact);
      ShareSwaps(exact, c, 0.0);
      ShareAbs(c - 1.0, exact);
      assert Share(1.0, exact) == exact;
    } else {
      EvalScale(p, c, x);
      ShareMinus(value, exact, c);
      ShareAbs(value - exact, c);
      ShareGrows(Abs(value - exact), error, Abs(c), Abs(c));
    }
  }

  lemma PlusError(p: Linear, q: Linear, a: real, da: real, b: real, db: real, x: int -> real)
    requires Within(Eval(p, x), a, da) && Within(Eval(q, x), b, db)
    ensures Within(Eval(Plus(p, q), x), a + b, da + db)
  {
    EvalPlus(p, q, x);
  }

  lemma MinusError(p: Linear, q: Linear, a: real, da: real, b: real, db: real, x: int -> real)
    requires Within(Eval(p, x), a, da) && Within(Eval(q, x), b, db)
    ensures Within(Eval(Plus(p, Negated(q)), x), a - b, da + db)
  {
    EvalNegated(q, x);
    EvalPlus(p, Negated(q), x);
  }

  lemma TimesError(p: Linear, q: Linear, a: real, da: real, b: real, db: real, x: int -> real)
    requires Within(Eval(p, x), a, da) && Within(Eval(q, x), b, db) && (p.terms == map[] || q.terms == map[])
    ensures Within(Eval(Times(p, q), x), Share(a, b), Share(da, Abs(b)) + Share(Abs(a), db) + Share(da, db))
  {
    EvalTimes(p, q, x);
    ProductError(a, Eval(p, x), da, b, Eval(q, x), db);
  }

  lemma VariableMeans(coefficient: real, id: int, x: int -> real)
    ensures Eval(Linear(map[id := coefficient], 0.0), x) == Share(coefficient, x(id))
  {
    var terms: map<int, real> := map[id := coefficient];
    DotTake(terms, id, x);
    assert terms - {id} == map[];
    DotEmpty(x);
  }

  /** Under every assignment the expression that the operators build has the value
      of the arithmetic that was written, up to the stated error. */
  lemma {:induction false} OperatorsMeanArithmetic(t: Tree, x: int -> real)
    requires Build(t).Some?
    ensures Within(Eval(Build(t).value, x), Exact(t, x), Error(t, x))
    decreases t
  {
    match t
    case Real(c) => EvalConstant(Linear(map[], c), x);
    case Variable(coefficient, id) => VariableMeans(coefficient, id, x);
    case AddReal(e, c) => OperatorsMeanArithmetic(e, x);
    case AddTree(e, f) =>
      OperatorsMeanArithmetic(e, x);
      OperatorsMeanArithmetic(f, x);
      PlusError(Build(e).value, Build(f).value, Exact(e, x), Error(e, x), Exact(f, x), Error(f, x), x);
    case SubTree(e, f) =>
      OperatorsMeanArithmetic(e, x);
      OperatorsMeanArithmetic(f, x);
      MinusError(Build(e).value, Build(f).value, Exact(e, x), Error(e, x), Exact(f, x), Error(f, x), x);
    case MulReal(e, c) =>
      OperatorsMeanArithmetic(e, x);
      ErrorNotNegative(e, x);
      MulRealError(Build(e).value, c, Exact(e, x), Error(e, x), x);
    case MulTree(e, f) =>
      OperatorsMeanArithmetic(e, x);
      OperatorsMeanArithmetic(f, x);
      TimesError(Build(e).value, Build(f).value, Exact(e, x), Error(e, x), Exact(f, x), Error(f, x), x);
  }

  /** No constant is close to the neutral one without being it. */
  predicate Clean(t: Tree) {
    match t
    case Real(_) => true
    case Variable(_, _) => true
    case AddReal(e, c) => Clean(e) && (CloseToZero(c) ==> c == 0.0)
    case AddTree(e, f) => Clean(e) && Clean(f)
    case SubTree(e, f) => Clean(e) && Clean(f)
    case MulReal(e, c) => Clean(e) && (CloseToOne(c) ==> c == 1.0)
    case MulTree(e, f) => Clean(e) && Clean(f)
  }

  lemma {:induction false} CleanHasNoError(t: Tree, x: int -> real)
    requires Clean(t)
    ensures Error(t, x) == 0.0
    decreases t
  {
    match t
    case Real(_) =>
    case Variable(_, _) =>
    case AddReal(e, _) => CleanHasNoError(e, x);
    case AddTree(e, f) => CleanHasNoError(e, x); CleanHasNoError(f, x);
    case SubTree(e, f) => CleanHasNoError(e, x); CleanHasNoError(f, x);
    case MulReal(e, c) =>
      CleanHasNoError(e, x);
      ShareZero(Abs(Exact(e, x)));
      ShareZero(Abs(c));
    case MulTree(e, f) =>
      CleanHasNoError(e, x);
      CleanHasNoError(f, x);
      ShareZero(Abs(Exact(f, x)));
      ShareSwaps(Abs(Exact(e, x)), 0.0, 0.0);
      ShareZero(Abs(Exact(e, x)));
      ShareZero(0.0);
  }

  /** Then nothing is dropped. */
  lemma CleanIsExact(t: Tree, x: int -> real)
    requires Clean(t) && Build(t).Some?
    ensures Eval(Build(t).value, x) == Exact(t, x)
  {
    CleanHasNoError(t, x);
    OperatorsMeanArithmetic(t, x);
  }
}
