/** Linear forms over variable ids: a constant and a coefficient per variable. */
module LinearForms {
  import opened Collections
  import opened Monoids

  datatype Linear = Linear(terms: map<int, real>, constant: real)

  const SUM: Monoid<real> := Monoid((a: real, b: real) => a + b, 0.0)

  lemma SumIsMonoid()
    ensures IsCommutativeMonoid(SUM)
  {
    forall a: real, b: real, c: real ensures AssociatesAt(SUM, a, b, c) {}
    forall a: real, b: real ensures CommutesAt(SUM, a, b) {}
  }

  /** What a variable of value `v` contributes with coefficient `c`. */
  function Share(c: real, v: real): real {
    c * v
  }

  lemma ShareMinus(a: real, b: real, v: real)
    ensures Share(a - b, v) == Share(a, v) - Share(b, v)
  {
  }

  lemma ShareZero(v: real)
    ensures Share(0.0, v) == 0.0
  {
  }

  lemma SharePlus(a: real, b: real, v: real)
    ensures Share(a + b, v) == Share(a, v) + Share(b, v)
  {
  }

  lemma ShareSwaps(a: real, c: real, v: real)
    ensures Share(a, c) == Share(c, a) && Share(Share(a, c), v) == Share(Share(a, v), c)
  {
    assert a * c * v == a * v * c;
  }

  ghost function Products(terms: map<int, real>, x: int -> real): map<int, real> {
    map k | k in terms :: Share(terms[k], x(k))
  }

  ghost function Dot(terms: map<int, real>, x: int -> real): real {
    FoldMap(SUM, Products(terms, x))
  }

  /** The value under a variable assignment. */
  ghost function Eval(p: Linear, x: int -> real): real {
    p.constant + Dot(p.terms, x)
  }

  function Coefficient(terms: map<int, real>, k: int): real {
    if k in terms then terms[k] else 0.0
  }

  lemma DotEmpty(x: int -> real)
    ensures Dot(map[], x) == 0.0
  {
    assert Products(map[], x) == map[];
  }

  /** One variable's share can be taken out. */
  lemma DotTake(terms: map<int, real>, k: int, x: int -> real)
    requires k in terms
    ensures Dot(terms, x) == Share(terms[k], x(k)) + Dot(terms - {k}, x)
  {
    SumIsMonoid();
    FoldMapTake(SUM, Products(terms, x), k);
    SameMap(Products(terms, x) - {k}, Products(terms - {k}, x));
  }

  lemma DotUpdate(terms: map<int, real>, k: int, c: real, x: int -> real)
    ensures Dot(terms[k := c], x) == Dot(terms, x) + Share(c - Coefficient(terms, k), x(k))
  {
    DotTake(terms[k := c], k, x);
    SameMap(terms[k := c] - {k}, terms - {k});
    if k in terms {
      DotTake(terms, k, x);
    } else {
      SameMap(terms - {k}, terms);
    }
    ShareMinus(c, Coefficient(terms, k), x(k));
    ShareZero(x(k));
  }

  lemma DotIncrease(terms: map<int, real>, k: int, c: real, x: int -> real)
    ensures Dot(terms[k := Coefficient(terms, k) + c], x) == Dot(terms, x) + Share(c, x(k))
  {
    DotUpdate(terms, k, Coefficient(terms, k) + c, x);
    assert Coefficient(terms, k) + c - Coefficient(terms, k) == c;
  }

  // Sum and multiples

  function PlusTerms(a: map<int, real>, b: map<int, real>): map<int, real> {
    map k | k in a.Keys + b.Keys :: Coefficient(a, k) + Coefficient(b, k)
  }

  function ScaleTerms(a: map<int, real>, c: real): map<int, real> {
    map k | k in a :: Share(a[k], c)
  }

  function Plus(p: Linear, q: Linear): Linear {
    Linear(PlusTerms(p.terms, q.terms), p.constant + q.constant)
  }

  function Shift(p: Linear, c: real): Linear {
    Linear(p.terms, p.constant + c)
  }

  function Scale(p: Linear, c: real): Linear {
    Linear(ScaleTerms(p.terms, c), Share(p.constant, c))
  }

  lemma PlusNothing(a: map<int, real>)
    ensures PlusTerms(a, map[]) == a
  {
    SameMap(PlusTerms(a, map[]), a);
  }

  lemma MergeOne(a: map<int, real>, b: map<int, real>, k: int)
    requires k in b
    ensures var merged := PlusTerms(a, b - {k}); PlusTerms(a, b) == merged[k := Coefficient(merged, k) + b[k]]
  {
    var merged := PlusTerms(a, b - {k});
    SameMap(merged[k := Coefficient(merged, k) + b[k]], PlusTerms(a, b));
  }

  lemma DotPlusOne(a: map<int, real>, b: map<int, real>, k: int, x: int -> real)
    requires k in b
    ensures Dot(PlusTerms(a, b), x) == Dot(PlusTerms(a, b - {k}), x) + Share(b[k], x(k))
  {
    MergeOne(a, b, k);
    DotIncrease(PlusTerms(a, b - {k}), k, b[k], x);
  }

  lemma {:induction false} DotPlus(a: map<int, real>, b: map<int, real>, x: int -> real)
    ensures Dot(PlusTerms(a, b), x) == Dot(a, x) + Dot(b, x)
    decreases |b|
  {
    if b == map[] {
      PlusNothing(a);
      DotEmpty(x);
    } else {
      var k := AnyOf(b.Keys);
      Smaller(b, k);
      DotPlus(a, b - {k}, x);
      DotPlusOne(a, b, k, x);
      DotTake(b, k, x);
    }
  }

  lemma Smaller<V>(m: map<int, V>, k: int)
    requires k in m
    ensures |m - {k}| < |m|
  {
    assert (m - {k}).Keys == m.Keys - {k} && |(m - {k}).Keys| < |m.Keys|;
  }

  lemma ScaleOne(a: map<int, real>, c: real, k: int)
    requires k in a
    ensures ScaleTerms(a, c) - {k} == ScaleTerms(a - {k}, c)
  {
    SameMap(ScaleTerms(a, c) - {k}, ScaleTerms(a - {k}, c));
  }

  lemma {:induction false} DotScale(a: map<int, real>, c: real, x: int -> real)
    ensures Dot(ScaleTerms(a, c), x) == Share(Dot(a, x), c)
    decreases |a|
  {
    if a == map[] {
      SameMap(ScaleTerms(a, c), a);
      DotEmpty(x);
      ShareZero(c);
    } else {
      var k := AnyOf(a.Keys);
      Smaller(a, k);
      DotScale(a - {k}, c, x);
      DotTake(a, k, x);
      DotTake(ScaleTerms(a, c), k, x);
      ScaleOne(a, c, k);
      ShareSwaps(a[k], c, x(k));
      SharePlus(Share(a[k], x(k)), Dot(a - {k}, x), c);
    }
  }

  lemma EvalPlus(p: Linear, q: Linear, x: int -> real)
    ensures Eval(Plus(p, q), x) == Eval(p, x) + Eval(q, x)
  {
    DotPlus(p.terms, q.terms, x);
  }

  lemma EvalScale(p: Linear, c: real, x: int -> real)
    ensures Eval(Scale(p, c), x) == Share(Eval(p, x), c)
  {
    DotScale(p.terms, c, x);
    SharePlus(p.constant, Dot(p.terms, x), c);
  }

  /** A form without variables has the same value everywhere. */
  lemma EvalConstant(p: Linear, x: int -> real)
    requires p.terms == map[]
    ensures Eval(p, x) == p.constant
  {
    DotEmpty(x);
  }

  /** Multiplication where at least one factor has no variables. */
  function Times(p: Linear, q: Linear): Linear
    requires p.terms == map[] || q.terms == map[]
  {
    if p.terms == map[] then Scale(q, p.constant) else Scale(p, q.constant)
  }

  lemma EvalTimes(p: Linear, q: Linear, x: int -> real)
    requires p.terms == map[] || q.terms == map[]
    ensures Eval(Times(p, q), x) == Share(Eval(p, x), Eval(q, x))
  {
    ShareSwaps(Eval(p, x), Eval(q, x), 0.0);
    if p.terms == map[] {
      EvalConstant(p, x);
      EvalScale(q, p.constant, x);
    } else {
      EvalConstant(q, x);
      EvalScale(p, q.constant, x);
    }
  }
}
