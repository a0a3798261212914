/** regexListMatchExpr: from equal-length strings to one regular expression. */
module RegexCompiler {
  import opened Grouping
  import opened Options
  import opened RegexSyntax
  import opened Strings

  // sorted(strings)

  function InsertString(x: string, sorted: seq<string>): seq<string> {
    if sorted == [] || !StringLess(sorted[0], x) then [x] + sorted else [sorted[0]] + InsertString(x, sorted[1..])
  }

  function SortStrings(strings: seq<string>): seq<string> {
    if strings == [] then [] else InsertString(strings[0], SortStrings(strings[1..]))
  }

  lemma {:induction false} InsertStringMembers(x: string, sorted: seq<string>)
    ensures multiset(InsertString(x, sorted)) == multiset(sorted) + multiset{x}
    decreases |sorted|
  {
    if sorted != [] && StringLess(sorted[0], x) {
      InsertStringMembers(x, sorted[1..]);
      assert sorted == [sorted[0]] + sorted[1..];
    }
  }

  lemma {:induction false} SortMembers(strings: seq<string>)
    ensures multiset(SortStrings(strings)) == multiset(strings) && |SortStrings(strings)| == |strings|
    decreases |strings|
  {
    if strings != [] {
      SortMembers(strings[1..]);
      InsertStringMembers(strings[0], SortStrings(strings[1..]));
      assert strings == [strings[0]] + strings[1..];
      assert |multiset(SortStrings(strings))| == |SortStrings(strings)|;
    }
  }

  // Common prefix and suffix of strings of length n

  predicate SameLength(strings: seq<string>, n: nat) {
    forall i | 0 <= i < |strings| :: |strings[i]| == n
  }

  /** All strings have the same character at `at`. */
  predicate AgreeAt(strings: seq<string>, n: nat, at: nat)
    requires SameLength(strings, n) && at < n
  {
    forall i | 0 <= i < |strings| :: strings[i][at] == strings[0][at]
  }

  function PrefixLength(strings: seq<string>, n: nat, from: nat): (p: nat)
    requires SameLength(strings, n) && from <= n
    ensures from <= p <= n && (forall i | from <= i < p :: AgreeAt(strings, n, i)) && (p < n ==> !AgreeAt(strings, n, p))
    decreases n - from
  {
    if from < n && AgreeAt(strings, n, from) then PrefixLength(strings, n, from + 1) else from
  }

  function SuffixLength(strings: seq<string>, n: nat, from: nat): (s: nat)
    requires SameLength(strings, n) && from <= n
    ensures from <= s <= n && (forall j | n - s <= j < n - from :: AgreeAt(strings, n, j)) && (s < n ==> !AgreeAt(strings, n, n - 1 - s))
    decreases n - from
  {
    if from < n && AgreeAt(strings, n, n - 1 - from) then SuffixLength(strings, n, from + 1) else from
  }

  /** Unequal strings of equal length leave something between their common prefix
      and suffix, so the internal check never fails. */
  lemma MiddleIsLeft(strings: seq<string>, n: nat)
    requires SameLength(strings, n) && PrefixLength(strings, n, 0) < n
    ensures PrefixLength(strings, n, 0) + SuffixLength(strings, n, 0) < n
  {
  }

  // The compiler

  /** The first character after the prefix, and what is left before the suffix. */
  function Pairs(strings: seq<string>, n: nat, p: nat, s: nat): (r: seq<(char, string)>)
    requires SameLength(strings, n) && p + s < n
    ensures |r| == |strings|
    ensures forall i | 0 <= i < |r| :: r[i] == (strings[i][p], strings[i][p + 1..n - s]) && |r[i].1| == n - s - p - 1
  {
    seq(|strings|, i requires 0 <= i < |strings| => (strings[i][p], strings[i][p + 1..n - s]))
  }

  function Rests(pairs: seq<(char, string)>): (r: seq<string>)
    ensures |r| == |pairs| && forall i | 0 <= i < |r| :: r[i] == pairs[i].1
  {
    seq(|pairs|, i requires 0 <= i < |pairs| => pairs[i].1)
  }

  lemma {:induction false} SelectRests(pairs: seq<(char, string)>, key: char, m: nat)
    requires forall i | 0 <= i < |pairs| :: |pairs[i].1| == m
    ensures SameLength(Select(pairs, key), m)
    decreases |pairs|
  {
    if pairs != [] { SelectRests(pairs[1..], key, m); }
  }

  /** What the groups of the middles of `strings` look like. */
  ghost predicate GroupsOk(groups: seq<(char, seq<string>)>, m: nat) {
    forall i | 0 <= i < |groups| :: groups[i].1 != [] && SameLength(groups[i].1, m)
  }

  lemma MiddleGroups(strings: seq<string>, n: nat, p: nat, s: nat)
    requires strings != [] && SameLength(strings, n) && p + s < n
    ensures var groups := GroupPairsByFirst(Pairs(strings, n, p, s)); groups != [] && GroupsOk(groups, n - s - p - 1)
  {
    var pairs := Pairs(strings, n, p, s);
    GroupPairsMeaning(pairs);
    var groups := GroupPairsByFirst(pairs);
    assert HasKey(groups, pairs[0].0);
    forall i | 0 <= i < |groups| ensures groups[i].1 != [] && SameLength(groups[i].1, n - s - p - 1) {
      SelectRests(pairs, groups[i].0, n - s - p - 1);
    }
  }

  function Wildcard(groups: nat, maxChoices: int): bool {
    maxChoices != 0 && groups > maxChoices
  }

  /** The recursion as a tree: every node keeps the strings it was called with. */
  datatype Plan =
    | Leaf(inputs: seq<string>, n: nat)
    | Wild(inputs: seq<string>, n: nat, pre: string, suf: string, sub: Plan)
    | Choice(inputs: seq<string>, n: nat, pre: string, suf: string, options: seq<(char, Plan)>)

  function Middle(x: string, pre: string, suf: string): string
    requires |pre| + |suf| < |x|
  {
    x[|pre| + 1..|x| - |suf|]
  }

  /** Every string has the prefix and the suffix, with something in between. */
  ghost predicate Framed(strings: seq<string>, n: nat, pre: string, suf: string) {
    |pre| + |suf| < n && forall x | x in strings :: |x| == n && x[..|pre|] == pre && x[n - |suf|..] == suf
  }

  /** The strings differ where the wildcard stands, and the sub-plan is for the
      middles. */
  ghost predicate WildOk(inputs: seq<string>, n: nat, pre: string, suf: string, sub: Plan) {
    && SameLength(inputs, n) && |pre| < n && !AgreeAt(inputs, n, |pre|)
    && Framed(inputs, n, pre, suf) && sub.n == n - |pre| - |suf| - 1
    && (forall x | x in inputs :: Middle(x, pre, suf) in sub.inputs)
    && (forall r | r in sub.inputs :: exists x :: x in inputs && Middle(x, pre, suf) == r)
  }

  ghost predicate Covers(option: (char, Plan), x: string, pre: string, suf: string)
    requires |pre| + |suf| < |x|
  {
    option.0 == x[|pre|] && Middle(x, pre, suf) in option.1.inputs
  }

  ghost predicate SomeCovers(options: seq<(char, Plan)>, x: string, pre: string, suf: string)
    requires |pre| + |suf| < |x|
  {
    exists i :: 0 <= i < |options| && Covers(options[i], x, pre, suf)
  }

  /** The options are for the middles, by their first characters. */
  ghost predicate ChoiceOk(inputs: seq<string>, n: nat, pre: string, suf: string, options: seq<(char, Plan)>) {
    && Framed(inputs, n, pre, suf) && options != []
    && (forall i, j | 0 <= i < j < |options| :: options[i].0 != options[j].0)
    && (forall i | 0 <= i < |options| :: options[i].1.n == n - |pre| - |suf| - 1)
    && (forall x | x in inputs :: SomeCovers(options, x, pre, suf))
    && (forall i, r | 0 <= i < |options| && r in options[i].1.inputs :: pre + [options[i].0] + r + suf in inputs)
  }

  ghost predicate PlanOk(plan: Plan)
    decreases plan
  {
    && plan.inputs != [] && SameLength(plan.inputs, plan.n)
    && match plan
       case Leaf(inputs, _) => forall x | x in inputs :: x == inputs[0]
       case Wild(inputs, n, pre, suf, sub) => WildOk(inputs, n, pre, suf, sub) && PlanOk(sub)
       case Choice(inputs, n, pre, suf, options) =>
         ChoiceOk(inputs, n, pre, suf, options) && forall i | 0 <= i < |options| :: PlanOk(options[i].1)
  }

  ghost predicate NoWildcard(plan: Plan)
    decreases plan
  {
    match plan
    case Leaf(_, _) => true
    case Wild(_, _, _, _, _) => false
    case Choice(_, _, _, _, options) => forall i | 0 <= i < |options| :: NoWildcard(options[i].1)
  }

  lemma LeafFits(strings: seq<string>, n: nat)
    requires strings != [] && SameLength(strings, n) && PrefixLength(strings, n, 0) == n
    ensures forall x | x in strings :: x == strings[0]
  {
    forall i | 0 <= i < |strings| ensures strings[i] == strings[0] {
      forall j | 0 <= j < n ensures strings[i][j] == strings[0][j] { assert AgreeAt(strings, n, j); }
    }
  }

  /** `p` and `s` are the lengths of the common prefix and suffix. */
  ghost predicate CutsAt(strings: seq<string>, n: nat, p: nat, s: nat) {
    && strings != [] && SameLength(strings, n) && p + s < n && !AgreeAt(strings, n, p)
    && (forall j | 0 <= j < p :: AgreeAt(strings, n, j)) && (forall j | n - s <= j < n :: AgreeAt(strings, n, j))
  }

  lemma CutFrames(strings: seq<string>, n: nat, p: nat, s: nat)
    requires CutsAt(strings, n, p, s)
    ensures Framed(strings, n, strings[0][..p], strings[0][n - s..])
  {
    forall x | x in strings ensures |x| == n && x[..p] == strings[0][..p] && x[n - s..] == strings[0][n - s..] {
      var i :| 0 <= i < |strings| && strings[i] == x;
      forall j | 0 <= j < p ensures x[j] == strings[0][j] { assert AgreeAt(strings, n, j); }
      forall j | n - s <= j < n ensures x[j] == strings[0][j] { assert AgreeAt(strings, n, j); }
    }
  }

  lemma RestMiddle(strings: seq<string>, n: nat, p: nat, s: nat, i: nat)
    requires CutsAt(strings, n, p, s) && i < |strings|
    ensures Rests(Pairs(strings, n, p, s))[i] == Middle(strings[i], strings[0][..p], strings[0][n - s..])
  {
  }

  ghost predicate SameMembers(a: seq<string>, b: seq<string>) {
    forall x :: x in a <==> x in b
  }

  lemma MiddleIsRest(strings: seq<string>, n: nat, p: nat, s: nat, x: string)
    requires CutsAt(strings, n, p, s) && x in strings
    ensures |x| == n && Middle(x, strings[0][..p], strings[0][n - s..]) in Rests(Pairs(strings, n, p, s))
  {
    var i :| 0 <= i < |strings| && strings[i] == x;
    RestMiddle(strings, n, p, s, i);
  }

  lemma RestIsMiddle(strings: seq<string>, n: nat, p: nat, s: nat, r: string) returns (x: string)
    requires CutsAt(strings, n, p, s) && r in Rests(Pairs(strings, n, p, s))
    ensures x in strings && |x| == n && Middle(x, strings[0][..p], strings[0][n - s..]) == r
  {
    var rests := Rests(Pairs(strings, n, p, s));
    var i :| 0 <= i < |rests| && rests[i] == r;
    RestMiddle(strings, n, p, s, i);
    x := strings[i];
  }

  lemma WildFits(strings: seq<string>, n: nat, p: nat, s: nat, sub: Plan)
    requires CutsAt(strings, n, p, s) && sub.n == n - s - p - 1
    requires SameMembers(sub.inputs, Rests(Pairs(strings, n, p, s)))
    ensures WildOk(strings, n, strings[0][..p], strings[0][n - s..], sub)
  {
    CutFrames(strings, n, p, s);
    var pre, suf := strings[0][..p], strings[0][n - s..];
    forall x | x in strings ensures Middle(x, pre, suf) in sub.inputs {
      MiddleIsRest(strings, n, p, s, x);
    }
    forall r | r in sub.inputs ensures exists x :: x in strings && Middle(x, pre, suf) == r {
      var x := RestIsMiddle(strings, n, p, s, r);
    }
  }

  /** The options follow the groups. */
  ghost predicate Follows(options: seq<(char, Plan)>, groups: seq<(char, seq<string>)>, m: nat) {
    && |options| == |groups|
    && forall i | 0 <= i < |options| ::
         options[i].0 == groups[i].0 && options[i].1.n == m && forall r :: r in options[i].1.inputs <==> r in groups[i].1
  }

  lemma OptionsCover(strings: seq<string>, n: nat, p: nat, s: nat, options: seq<(char, Plan)>, k: nat)
    requires CutsAt(strings, n, p, s) && k < |strings|
    requires Follows(options, GroupPairsByFirst(Pairs(strings, n, p, s)), n - s - p - 1)
    ensures SomeCovers(options, strings[k], strings[0][..p], strings[0][n - s..])
  {
    var pairs := Pairs(strings, n, p, s);
    var groups := GroupPairsByFirst(pairs);
    GroupPairsMeaning(pairs);
    assert HasKey(groups, pairs[k].0);
    var i :| 0 <= i < |groups| && groups[i].0 == pairs[k].0;
    assert pairs[k] in pairs;
    SelectMember(pairs, pairs[k].0, pairs[k].1);
    assert pairs[k].1 in options[i].1.inputs;
    assert Covers(options[i], strings[k], strings[0][..p], strings[0][n - s..]);
  }

  lemma Reassemble(x: string, p: nat, q: nat)
    requires p < q <= |x|
    ensures x[..p] + [x[p]] + x[p + 1..q] + x[q..] == x
  {
  }

  lemma OptionIsInput(strings: seq<string>, n: nat, p: nat, s: nat, options: seq<(char, Plan)>, i: nat, r: string)
    requires CutsAt(strings, n, p, s) && i < |options| && r in options[i].1.inputs
    requires Follows(options, GroupPairsByFirst(Pairs(strings, n, p, s)), n - s - p - 1)
    ensures strings[0][..p] + [options[i].0] + r + strings[0][n - s..] in strings
  {
    var pairs := Pairs(strings, n, p, s);
    GroupPairsMeaning(pairs);
    SelectMember(pairs, options[i].0, r);
    var k :| 0 <= k < |pairs| && pairs[k] == (options[i].0, r);
    CutFrames(strings, n, p, s);
    assert strings[k] in strings;
    Reassemble(strings[k], p, n - s);
  }

  lemma ChoiceFits(strings: seq<string>, n: nat, p: nat, s: nat, options: seq<(char, Plan)>)
    requires CutsAt(strings, n, p, s) && options != []
    requires Follows(options, GroupPairsByFirst(Pairs(strings, n, p, s)), n - s - p - 1)
    ensures ChoiceOk(strings, n, strings[0][..p], strings[0][n - s..], options)
  {
    CutFrames(strings, n, p, s);
    var pre, suf := strings[0][..p], strings[0][n - s..];
    var groups := GroupPairsByFirst(Pairs(strings, n, p, s));
    GroupPairsMeaning(Pairs(strings, n, p, s));
    forall i, j | 0 <= i < j < |options| ensures options[i].0 != options[j].0 {
      assert groups[i].0 < groups[j].0;
    }
    forall x | x in strings ensures SomeCovers(options, x, pre, suf) {
      var k :| 0 <= k < |strings| && strings[k] == x;
      OptionsCover(strings, n, p, s, options, k);
    }
    forall i, r | 0 <= i < |options| && r in options[i].1.inputs ensures pre + [options[i].0] + r + suf in strings {
      OptionIsInput(strings, n, p, s, options, i, r);
    }
  }

  function MakePlan(input: seq<string>, n: nat, maxChoices: int): (r: Plan)
    requires input != [] && SameLength(input, n)
    ensures PlanOk(r) && r.n == n && SameMembers(r.inputs, input)
    ensures maxChoices == 0 ==> NoWildcard(r)
    decreases n, 0
  {
    SortedLength(input, n);
    var strings := SortStrings(input);
    var p := PrefixLength(strings, n, 0);
    if p == n then
      LeafFits(strings, n);
      Leaf(strings, n)
    else
      MiddleIsLeft(strings, n);
      var s := SuffixLength(strings, n, 0);
      Divide(strings, n, p, s, maxChoices)
  }

  /** Below the common prefix and suffix: one wildcard, or a choice by first character. */
  function Divide(strings: seq<string>, n: nat, p: nat, s: nat, maxChoices: int): (r: Plan)
    requires CutsAt(strings, n, p, s)
    ensures PlanOk(r) && r.n == n && r.inputs == strings
    ensures maxChoices == 0 ==> NoWildcard(r)
    decreases n - 1, 3
  {
    var m := n - s - p - 1;
    var pairs := Pairs(strings, n, p, s);
    var groups := GroupPairsByFirst(pairs);
    MiddleGroups(strings, n, p, s);
    var pre, suf := strings[0][..p], strings[0][n - s..];
    if Wildcard(|groups|, maxChoices) then
      var sub := MakePlan(Rests(pairs), m, maxChoices);
      WildFits(strings, n, p, s, sub);
      Wild(strings, n, pre, suf, sub)
    else
      var options := MakeOptions(groups, m, maxChoices);
      ChoiceFits(strings, n, p, s, options);
      Choice(strings, n, pre, suf, options)
  }

  function MakeOptions(groups: seq<(char, seq<string>)>, m: nat, maxChoices: int): (r: seq<(char, Plan)>)
    requires GroupsOk(groups, m)
    ensures Follows(r, groups, m) && forall i | 0 <= i < |r| :: PlanOk(r[i].1)
    ensures maxChoices == 0 ==> forall i | 0 <= i < |r| :: NoWildcard(r[i].1)
    decreases m, 1, |groups|
  {
    if groups == [] then []
    else [(groups[0].0, MakePlan(groups[0].1, m, maxChoices))] + MakeOptions(groups[1..], m, maxChoices)
  }

  predicate PlanShape(plan: Plan)
    decreases plan
  {
    match plan
    case Leaf(inputs, _) => inputs != []
    case Wild(_, _, _, _, sub) => PlanShape(sub)
    case Choice(_, _, _, _, options) => options != [] && forall i | 0 <= i < |options| :: PlanShape(options[i].1)
  }

  lemma {:induction false} OkShape(plan: Plan)
    requires PlanOk(plan)
    ensures PlanShape(plan)
    decreases plan
  {
    match plan
    case Leaf(_, _) =>
    case Wild(_, _, _, _, sub) => OkShape(sub);
    case Choice(_, _, _, _, options) =>
      forall i | 0 <= i < |options| ensures PlanShape(options[i].1) { OkShape(options[i].1); }
  }

  /** The expression a plan writes down. */
  function ItemsOf(plan: Plan): Items
    requires PlanShape(plan)
    decreases plan, 0
  {
    match plan
    case Leaf(inputs, _) => Literal(inputs[0])
    case Wild(_, _, pre, suf, sub) => Append(Literal(pre), Append(Cons(Any, ItemsOf(sub)), Literal(suf)))
    case Choice(_, _, pre, suf, options) =>
      Append(Literal(pre), Append(Cons(Group(ChoicesOf(plan, 0)), Nil), Literal(suf)))
  }

  function ChoicesOf(plan: Plan, i: nat): Choices
    requires PlanShape(plan) && plan.Choice? && i < |plan.options|
    decreases plan, 0, |plan.options| - i
  {
    var first := Cons(Lit(plan.options[i].0), ItemsOf(plan.options[i].1));
    if i + 1 == |plan.options| then One(first) else More(first, ChoicesOf(plan, i + 1))
  }

  lemma SortedLength(input: seq<string>, n: nat)
    requires SameLength(input, n)
    ensures SameLength(SortStrings(input), n) && |SortStrings(input)| == |input|
    ensures forall x :: x in SortStrings(input) <==> x in input
  {
    SortMembers(input);
    forall x ensures x in SortStrings(input) <==> x in input {
      assert x in SortStrings(input) <==> x in multiset(SortStrings(input));
      assert x in input <==> x in multiset(input);
    }
    forall i | 0 <= i < |SortStrings(input)| ensures |SortStrings(input)[i]| == n {
      assert SortStrings(input)[i] in SortStrings(input);
    }
  }

  /** None stands for the exceptions on an empty list and on unequal lengths. */
  function RegexListMatchExpr(strings: seq<string>, maxChoices: int, backslash: string): Option<string> {
    if strings == [] || !SameLength(strings, |strings[0]|) then None
    else
      var plan := MakePlan(strings, |strings[0]|, maxChoices);
      OkShape(plan);
      Some(RenderItems(ItemsOf(plan), backslash))
  }
}
