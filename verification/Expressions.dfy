/** Expression: a constant, or a reference to a term map with a constant. */
module Expressions {
  import opened LinearForms
  import opened Collections

  /** The terms once the keys outside `left` have been merged. */
  ghost predicate Merging(now: map<int, real>, a: map<int, real>, b: map<int, real>, left: set<int>) {
    && left <= b.Keys && now.Keys == a.Keys + (b.Keys - left)
    && forall k | k in now :: now[k] == Coefficient(a, k) + (if k in left then 0.0 else Coefficient(b, k))
  }

  lemma MergeStep(now: map<int, real>, a: map<int, real>, b: map<int, real>, left: set<int>, k: int)
    requires Merging(now, a, b, left) && k in left
    ensures Merging(now[k := Coefficient(now, k) + b[k]], a, b, left - {k})
    ensures a == b ==> k in now && now[k] == b[k]
  {
  }

  /** The terms once the keys outside `left` have been multiplied. */
  ghost predicate Scaling(now: map<int, real>, a: map<int, real>, c: real, left: set<int>) {
    left <= a.Keys == now.Keys && forall k | k in a :: now[k] == if k in left then a[k] else Share(a[k], c)
  }

  lemma ScaleStep(now: map<int, real>, a: map<int, real>, c: real, left: set<int>, k: int)
    requires Scaling(now, a, c, left) && k in left
    ensures Scaling(now[k := Share(now[k], c)], a, c, left - {k})
  {
  }

  lemma ScaleDone(now: map<int, real>, a: map<int, real>, c: real)
    requires Scaling(now, a, c, {})
    ensures now == ScaleTerms(a, c)
  {
    var scaled := ScaleTerms(a, c);
    forall k | k in now ensures now[k] == scaled[k] {}
    SameMap(now, scaled);
  }

  lemma MergeDone(now: map<int, real>, a: map<int, real>, b: map<int, real>)
    requires Merging(now, a, b, {})
    ensures now == PlusTerms(a, b)
  {
    SameMap(now, PlusTerms(a, b));
  }

  class FastExpressionImpl {
    var terms: map<int, real>
    var constant: real

    function Form(): Linear
      reads this
    {
      Linear(terms, constant)
    }

    constructor (constant: real)
      ensures Form() == Linear(map[], constant)
    {
      terms, this.constant := map[], constant;
    }

    constructor OfVariable(coefficient: real, variableId: int)
      ensures Form() == Linear(map[variableId := coefficient], 0.0)
    {
      terms, constant := map[variableId := coefficient], 0.0;
    }

    method Clone() returns (r: FastExpressionImpl)
      ensures fresh(r) && r.Form() == Form()
    {
      r := new FastExpressionImpl(constant);
      r.terms := terms;
    }

    method AddConstant(c: real)
      modifies this
      ensures Form() == Shift(old(Form()), c)
    {
      constant := constant + c;
    }

    /** Merges term by term; `other` may be this very object. */
    method Add(other: FastExpressionImpl)
      modifies this
      ensures Form() == Plus(old(Form()), old(other.Form()))
    {
      MergeTerms(other);
      constant := constant + other.constant;
    }

    method MergeTerms(other: FastExpressionImpl)
      modifies this`terms
      ensures terms == PlusTerms(old(terms), old(other.terms))
    {
      var left := other.terms.Keys;
      ghost var a, b := terms, other.terms;
      while left != {}
        invariant Merging(terms, a, b, left) && (if other == this then a == b else other.terms == b)
        decreases |left|
      {
        var k := Pick(left);
        MergeStep(terms, a, b, left, k);
        var c := other.terms[k];
        terms := terms[k := Coefficient(terms, k) + c];
        left := left - {k};
      }
      MergeDone(terms, a, b);
    }

    method MultiplyConstant(c: real)
      modifies this
      ensures Form() == Scale(old(Form()), c)
    {
      var left := terms.Keys;
      ghost var a := terms;
      while left != {}
        invariant Scaling(terms, a, c, left) && constant == old(constant)
        decreases |left|
      {
        var k := Pick(left);
        ScaleStep(terms, a, c, left, k);
        terms := terms[k := Share(terms[k], c)];
        left := left - {k};
      }
      ScaleDone(terms, a, c);
      constant := Share(constant, c);
    }

    /** Two factors with variables throw; `other` may be this very object. */
    method Multiply(other: FastExpressionImpl) returns (ok: bool)
      modifies this
      ensures ok <==> old(terms) == map[] || old(other.terms) == map[]
      ensures ok ==> Form() == Times(old(Form()), old(other.Form()))
      ensures !ok ==> Form() == old(Form())
    {
      if terms != map[] && other.terms != map[] {
        return false;
      }
      if terms == map[] {
        var c := constant;
        terms, constant := other.terms, other.constant;
        MultiplyConstant(c);
      } else {
        MultiplyConstant(other.constant);
      }
      ok := true;
    }
  }

  class Expression {
    var constant: real
    var impl: FastExpressionImpl?

    /** What the expression denotes, in either representation. */
    function Form(): Linear
      reads this, impl
    {
      if impl == null then Linear(map[], constant) else impl.Form()
    }

    constructor (constant: real)
      ensures Form() == Linear(map[], constant) && impl == null
    {
      this.constant, impl := constant, null;
    }

    constructor OfVariable(coefficient: real, variableId: int)
      ensures Form() == Linear(map[variableId := coefficient], 0.0) && impl != null && fresh(impl)
    {
      constant := 0.0;
      impl := new FastExpressionImpl.OfVariable(coefficient, variableId);
    }

    /** Copies never share their terms with the original. */
    constructor Copy(e: Expression)
      ensures Form() == e.Form() && (impl == null <==> e.impl == null) && (impl != null ==> fresh(impl))
    {
      var cloned: FastExpressionImpl? := null;
      if e.impl != null {
        cloned := e.impl.Clone();
      }
      constant, impl := e.constant, cloned;
    }

    method Assign(e: Expression)
      modifies this
      ensures Form() == old(e.Form()) && (impl != null ==> fresh(impl))
      ensures e != this ==> e.Form() == old(e.Form())
    {
      if e.impl != null {
        impl := e.impl.Clone();
      } else {
        constant := e.constant;
        impl := null;
      }
    }

    /** Move assignment shares the terms with the moved-from expression. */
    method MoveAssign(e: Expression)
      modifies this
      ensures Form() == old(e.Form()) && impl == old(e.impl)
    {
      if e.impl != null {
        impl := e.impl;
      } else {
        constant := e.constant;
        impl := null;
      }
    }

    method AddConstant(c: real)
      modifies this, impl
      ensures Form() == Shift(old(Form()), c) && impl == old(impl)
    {
      if impl != null {
        impl.AddConstant(c);
      } else {
        constant := constant + c;
      }
    }

    /** `e` may be this expression or share its terms. */
    method Add(e: Expression)
      modifies this, impl
      ensures Form() == Plus(old(Form()), old(e.Form()))
      ensures impl == old(impl) || (impl != null && fresh(impl))
    {
      if impl != null {
        if e.impl != null {
          impl.Add(e.impl);
        } else {
          PlusNothing(impl.terms);
          impl.AddConstant(e.constant);
        }
      } else if e.impl != null {
        ConstantPlus(e.impl.terms);
        var cloned := e.impl.Clone();
        cloned.AddConstant(constant);
        impl := cloned;
      } else {
        PlusNothing(map[]);
        constant := constant + e.constant;
      }
    }

    method MultiplyConstant(c: real)
      modifies this, impl
      ensures Form() == Scale(old(Form()), c) && impl == old(impl)
    {
      if impl != null {
        impl.MultiplyConstant(c);
      } else {
        ScaleNothing(c);
        constant := Share(constant, c);
      }
    }

    method Multiply(e: Expression) returns (ok: bool)
      modifies this, impl
      ensures ok <==> old(Form()).terms == map[] || old(e.Form()).terms == map[]
      ensures ok ==> Form() == Times(old(Form()), old(e.Form()))
      ensures !ok ==> Form() == old(Form())
      ensures impl == old(impl) || (impl != null && fresh(impl))
    {
      ok := true;
      if e.impl != null {
        if impl != null {
          ok := impl.Multiply(e.impl);
        } else {
          var cloned := e.impl.Clone();
          cloned.MultiplyConstant(constant);
          impl := cloned;
        }
      } else if impl != null {
        TimesConstant(impl.Form(), e.constant);
        impl.MultiplyConstant(e.constant);
      } else {
        ScaleNothing(constant);
        ScaleNothing(e.constant);
        ShareSwaps(constant, e.constant, 0.0);
        constant := Share(constant, e.constant);
      }
    }
  }

  lemma ConstantPlus(a: map<int, real>)
    ensures PlusTerms(map[], a) == a
  {
    SameMap(PlusTerms(map[], a), a);
  }

  lemma ScaleNothing(c: real)
    ensures ScaleTerms(map[], c) == map[]
  {
    SameMap(ScaleTerms(map[], c), map[]);
  }

  /** With a constant factor it does not matter which side decides. */
  lemma TimesConstant(p: Linear, c: real)
    ensures Times(p, Linear(map[], c)) == Scale(p, c)
  {
    if p.terms == map[] {
      ScaleNothing(c);
      ScaleNothing(p.constant);
      ShareSwaps(p.constant, c, 0.0);
    }
  }
}
