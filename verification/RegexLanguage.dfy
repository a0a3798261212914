/** The language of the expression that regexListMatchExpr writes. */
module RegexLanguage {
  import Grouping
  import opened RegexSyntax
  import opened RegexCompiler

  // A plan's own notion of acceptance

  predicate InFrame(x: string, pre: string, suf: string) {
    |pre| + |suf| < |x| && x[..|pre|] == pre && x[|x| - |suf|..] == suf
  }

  ghost predicate Accepts(plan: Plan, x: string, dotAll: bool)
    decreases plan
  {
    match plan
    case Leaf(inputs, _) => inputs != [] && x == inputs[0]
    case Wild(_, _, pre, suf, sub) =>
      InFrame(x, pre, suf) && DotFits(x[|pre|], dotAll) && Accepts(sub, Middle(x, pre, suf), dotAll)
    case Choice(_, _, pre, suf, options) =>
      InFrame(x, pre, suf)
      && exists i :: 0 <= i < |options| && options[i].0 == x[|pre|] && Accepts(options[i].1, Middle(x, pre, suf), dotAll)
  }

  /** The option for character `c` accepts the rest. */
  ghost predicate SomeAccepts(plan: Plan, c: char, rest: string, dotAll: bool)
    requires plan.Choice?
  {
    exists i :: 0 <= i < |plan.options| && plan.options[i].0 == c && Accepts(plan.options[i].1, rest, dotAll)
  }

  lemma FramedMatch(pre: string, middle: Items, suf: string, x: string, dotAll: bool)
    ensures MatchItems(Append(Literal(pre), Append(middle, Literal(suf))), x, dotAll)
            <==> |pre| + |suf| <= |x| && x[..|pre|] == pre && x[|x| - |suf|..] == suf
                 && MatchItems(middle, x[|pre|..|x| - |suf|], dotAll)
  {
    LeadingLiteral(pre, Append(middle, Literal(suf)), x, dotAll);
    if |pre| <= |x| { FramedTail(middle, suf, x, pre, dotAll); }
  }

  lemma FramedTail(middle: Items, suf: string, x: string, pre: string, dotAll: bool)
    requires |pre| <= |x|
    ensures MatchItems(Append(middle, Literal(suf)), x[|pre|..], dotAll)
            <==> |pre| + |suf| <= |x| && x[|x| - |suf|..] == suf && MatchItems(middle, x[|pre|..|x| - |suf|], dotAll)
  {
    TrailingLiteral(middle, suf, x[|pre|..], dotAll);
    TailEnds(x, pre, suf);
  }

  lemma TailEnds(x: string, pre: string, suf: string)
    requires |pre| <= |x|
    ensures EndsWith(x[|pre|..], suf) <==> |pre| + |suf| <= |x| && x[|x| - |suf|..] == suf
    ensures |pre| + |suf| <= |x| ==> x[|pre|..][..|x| - |pre| - |suf|] == x[|pre|..|x| - |suf|]
  {
    if |pre| + |suf| <= |x| { Slices(x, |pre|, |x| - |suf|); }
  }

  ghost predicate OptionMatches(option: (char, Plan), y: string, dotAll: bool)
    requires PlanShape(option.1)
  {
    y != "" && y[0] == option.0 && MatchItems(ItemsOf(option.1), y[1..], dotAll)
  }

  lemma OptionHead(option: (char, Plan), y: string, dotAll: bool)
    requires PlanShape(option.1)
    ensures MatchItems(Cons(Lit(option.0), ItemsOf(option.1)), y, dotAll) <==> OptionMatches(option, y, dotAll)
  {
    HeadIsOne(Lit(option.0), ItemsOf(option.1), y, dotAll);
  }

  ghost predicate SomeOption(plan: Plan, i: nat, y: string, dotAll: bool)
    requires PlanShape(plan) && plan.Choice?
  {
    exists k :: i <= k < |plan.options| && OptionMatches(plan.options[k], y, dotAll)
  }

  lemma SomeOptionStep(plan: Plan, i: nat, y: string, dotAll: bool)
    requires PlanShape(plan) && plan.Choice? && i < |plan.options|
    ensures SomeOption(plan, i, y, dotAll) <==> OptionMatches(plan.options[i], y, dotAll) || SomeOption(plan, i + 1, y, dotAll)
  {
  }

  lemma {:induction false} ChoicesMatch(plan: Plan, i: nat, y: string, dotAll: bool)
    requires PlanShape(plan) && plan.Choice? && i < |plan.options|
    ensures MatchChoices(ChoicesOf(plan, i), y, dotAll) <==> SomeOption(plan, i, y, dotAll)
    decreases |plan.options| - i
  {
    SomeOptionStep(plan, i, y, dotAll);
    var first := Cons(Lit(plan.options[i].0), ItemsOf(plan.options[i].1));
    OptionHead(plan.options[i], y, dotAll);
    if i + 1 < |plan.options| {
      ChoicesMatch(plan, i + 1, y, dotAll);
      assert ChoicesOf(plan, i) == More(first, ChoicesOf(plan, i + 1));
    } else {
      assert ChoicesOf(plan, i) == One(first);
    }
  }

  /** The expression matches exactly what its plan accepts. */
  lemma {:induction false} PlanMatch(plan: Plan, x: string, dotAll: bool)
    requires PlanShape(plan)
    ensures MatchItems(ItemsOf(plan), x, dotAll) <==> Accepts(plan, x, dotAll)
    decreases plan, 1
  {
    match plan
    case Leaf(inputs, _) => LiteralMatch(inputs[0], x, dotAll);
    case Wild(_, _, _, _, _) => WildMatch(plan, x, dotAll);
    case Choice(_, _, _, _, _) => ChoiceMatch(plan, x, dotAll);
  }

  lemma {:induction false} WildMatch(plan: Plan, x: string, dotAll: bool)
    requires PlanShape(plan) && plan.Wild?
    ensures MatchItems(ItemsOf(plan), x, dotAll) <==> Accepts(plan, x, dotAll)
    decreases plan, 0
  {
    var pre, suf, r := plan.pre, plan.suf, ItemsOf(plan.sub);
    FramedMatch(pre, Cons(Any, r), suf, x, dotAll);
    if |pre| + |suf| <= |x| {
      var y := x[|pre|..|x| - |suf|];
      HeadIsOne(Any, r, y, dotAll);
      if y != "" {
        assert y[1..] == Middle(x, pre, suf) && y[..1] == [x[|pre|]];
        PlanMatch(plan.sub, Middle(x, pre, suf), dotAll);
      }
    }
  }

  lemma {:induction false} OptionsAccept(plan: Plan, y: string, dotAll: bool)
    requires PlanShape(plan) && plan.Choice?
    ensures SomeOption(plan, 0, y, dotAll) <==> y != "" && SomeAccepts(plan, y[0], y[1..], dotAll)
    decreases plan, 0, 0
  {
    if y != "" {
      var c, rest := y[0], y[1..];
      forall i | 0 <= i < |plan.options|
        ensures OptionMatches(plan.options[i], y, dotAll) <==> plan.options[i].0 == c && Accepts(plan.options[i].1, rest, dotAll)
      {
        PlanMatch(plan.options[i].1, rest, dotAll);
      }
    }
  }

  lemma MiddleParts(x: string, pre: string, suf: string)
    requires |pre| + |suf| <= |x|
    ensures x[|pre|..|x| - |suf|] == "" <==> |pre| + |suf| == |x|
    ensures |pre| + |suf| < |x| ==> var y := x[|pre|..|x| - |suf|]; y[0] == x[|pre|] && y[1..] == Middle(x, pre, suf)
  {
  }

  lemma {:induction false} ChoiceMatch(plan: Plan, x: string, dotAll: bool)
    requires PlanShape(plan) && plan.Choice?
    ensures MatchItems(ItemsOf(plan), x, dotAll) <==> Accepts(plan, x, dotAll)
    decreases plan, 0, 1
  {
    var pre, suf, choices := plan.pre, plan.suf, ChoicesOf(plan, 0);
    FramedMatch(pre, Cons(Group(choices), Nil), suf, x, dotAll);
    if |pre| + |suf| <= |x| {
      var y := x[|pre|..|x| - |suf|];
      MiddleParts(x, pre, suf);
      SingleGroup(choices, y, dotAll);
      ChoicesMatch(plan, 0, y, dotAll);
      OptionsAccept(plan, y, dotAll);
    }
  }

  // What plans accept

  /** Only strings of the common length. */
  lemma {:induction false} AcceptsLength(plan: Plan, x: string, dotAll: bool)
    requires PlanOk(plan) && Accepts(plan, x, dotAll)
    ensures |x| == plan.n
    decreases plan
  {
    match plan
    case Leaf(inputs, _) => assert |inputs[0]| == plan.n;
    case Wild(_, n, pre, suf, sub) =>
      assert sub.n == n - |pre| - |suf| - 1;
      AcceptsLength(sub, Middle(x, pre, suf), dotAll);
    case Choice(_, n, pre, suf, options) =>
      var y := Middle(x, pre, suf);
      var i :| 0 <= i < |options| && options[i].0 == x[|pre|] && Accepts(options[i].1, y, dotAll);
      assert options[i].1.n == n - |pre| - |suf| - 1;
      AcceptsLength(options[i].1, y, dotAll);
  }

  lemma FrameParts(x: string, pre: string, suf: string)
    requires InFrame(x, pre, suf)
    ensures x == pre + [x[|pre|]] + Middle(x, pre, suf) + suf
  {
    Reassemble(x, |pre|, |x| - |suf|);
  }

  /** Without wildcards, exactly the strings the plan was made for. */
  lemma {:induction false} AcceptsExactly(plan: Plan, x: string, dotAll: bool)
    requires PlanOk(plan) && NoWildcard(plan)
    ensures Accepts(plan, x, dotAll) <==> x in plan.inputs
    decreases plan, 1
  {
    if plan.Choice? {
      if Accepts(plan, x, dotAll) { AcceptedIsInput(plan, x, dotAll); }
      if x in plan.inputs { InputIsAccepted(plan, x, dotAll); }
    } else {
      assert plan.inputs[0] in plan.inputs;
    }
  }

  lemma {:induction false} AcceptedIsInput(plan: Plan, x: string, dotAll: bool)
    requires PlanOk(plan) && NoWildcard(plan) && plan.Choice? && Accepts(plan, x, dotAll)
    ensures x in plan.inputs
    decreases plan, 0
  {
    var y := Middle(x, plan.pre, plan.suf);
    var i :| 0 <= i < |plan.options| && plan.options[i].0 == x[|plan.pre|] && Accepts(plan.options[i].1, y, dotAll);
    AcceptsExactly(plan.options[i].1, y, dotAll);
    FrameParts(x, plan.pre, plan.suf);
  }

  /** The option whose sub-plan holds the middle of an input. */
  lemma CoveringOption(plan: Plan, x: string) returns (i: nat)
    requires plan.Choice? && ChoiceOk(plan.inputs, plan.n, plan.pre, plan.suf, plan.options) && x in plan.inputs
    ensures InFrame(x, plan.pre, plan.suf) && i < |plan.options| && Covers(plan.options[i], x, plan.pre, plan.suf)
  {
    assert |x| == plan.n && SomeCovers(plan.options, x, plan.pre, plan.suf);
    i := AnyCovering(plan.options, x, plan.pre, plan.suf);
  }

  lemma AnyCovering(options: seq<(char, Plan)>, x: string, pre: string, suf: string) returns (i: nat)
    requires |pre| + |suf| < |x| && SomeCovers(options, x, pre, suf)
    ensures i < |options| && Covers(options[i], x, pre, suf)
  {
    i :| 0 <= i < |options| && Covers(options[i], x, pre, suf);
  }

  lemma {:induction false} InputIsAccepted(plan: Plan, x: string, dotAll: bool)
    requires PlanOk(plan) && NoWildcard(plan) && plan.Choice? && x in plan.inputs
    ensures Accepts(plan, x, dotAll)
    decreases plan, 0
  {
    var i := CoveringOption(plan, x);
    AcceptsExactly(plan.options[i].1, Middle(x, plan.pre, plan.suf), dotAll);
  }

  ghost predicate AcceptsAll(plan: Plan, dotAll: bool) {
    forall x | x in plan.inputs :: Accepts(plan, x, dotAll)
  }

  /** Wherever a wildcard is used, it fits the characters it replaces. */
  ghost predicate WildcardsFit(plan: Plan, dotAll: bool)
    decreases plan
  {
    match plan
    case Leaf(_, _) => true
    case Wild(inputs, _, pre, _, sub) =>
      (forall x | x in inputs && |pre| < |x| :: DotFits(x[|pre|], dotAll)) && WildcardsFit(sub, dotAll)
    case Choice(_, _, _, _, options) => forall i | 0 <= i < |options| :: WildcardsFit(options[i].1, dotAll)
  }

  /** Every string the plan was made for is accepted exactly when no wildcard has
      to stand for a newline. */
  lemma {:induction false} AcceptsAllExactly(plan: Plan, dotAll: bool)
    requires PlanOk(plan)
    ensures AcceptsAll(plan, dotAll) <==> WildcardsFit(plan, dotAll)
    decreases plan
  {
    match plan
    case Leaf(_, _) =>
    case Wild(_, _, _, _, sub) =>
      AcceptsAllExactly(sub, dotAll);
      WildAcceptsAll(plan, dotAll);
    case Choice(_, _, _, _, options) =>
      forall i | 0 <= i < |options| ensures AcceptsAll(options[i].1, dotAll) <==> WildcardsFit(options[i].1, dotAll) {
        AcceptsAllExactly(options[i].1, dotAll);
      }
      ChoiceAcceptsAll(plan, dotAll);
  }

  lemma WildAcceptsAll(plan: Plan, dotAll: bool)
    requires PlanOk(plan) && plan.Wild?
    ensures AcceptsAll(plan, dotAll)
            <==> (forall x | x in plan.inputs :: DotFits(x[|plan.pre|], dotAll)) && AcceptsAll(plan.sub, dotAll)
  {
    if AcceptsAll(plan, dotAll) {
      forall r | r in plan.sub.inputs ensures Accepts(plan.sub, r, dotAll) {
        var x :| x in plan.inputs && Middle(x, plan.pre, plan.suf) == r;
        assert Accepts(plan, x, dotAll);
      }
      forall x | x in plan.inputs ensures DotFits(x[|plan.pre|], dotAll) {
        assert Accepts(plan, x, dotAll);
      }
    }
  }

  lemma ChoiceAcceptsAll(plan: Plan, dotAll: bool)
    requires PlanOk(plan) && plan.Choice?
    ensures AcceptsAll(plan, dotAll) <==> forall i | 0 <= i < |plan.options| :: AcceptsAll(plan.options[i].1, dotAll)
  {
    if AcceptsAll(plan, dotAll) {
      forall i | 0 <= i < |plan.options| ensures AcceptsAll(plan.options[i].1, dotAll) {
        OptionAcceptsAll(plan, i, dotAll);
      }
    }
    if forall i | 0 <= i < |plan.options| :: AcceptsAll(plan.options[i].1, dotAll) {
      forall x | x in plan.inputs ensures Accepts(plan, x, dotAll) {
        var i := CoveringOption(plan, x);
        assert AcceptsAll(plan.options[i].1, dotAll);
      }
    }
  }

  lemma OptionAcceptsAll(plan: Plan, i: nat, dotAll: bool)
    requires PlanOk(plan) && plan.Choice? && AcceptsAll(plan, dotAll) && i < |plan.options|
    ensures AcceptsAll(plan.options[i].1, dotAll)
  {
    forall r | r in plan.options[i].1.inputs ensures Accepts(plan.options[i].1, r, dotAll) {
      OptionAccepts(plan, i, r, dotAll);
    }
  }

  lemma OptionAccepts(plan: Plan, i: nat, r: string, dotAll: bool)
    requires PlanOk(plan) && plan.Choice? && AcceptsAll(plan, dotAll) && i < |plan.options| && r in plan.options[i].1.inputs
    ensures Accepts(plan.options[i].1, r, dotAll)
  {
    var x := plan.pre + [plan.options[i].0] + r + plan.suf;
    assert x in plan.inputs && Accepts(plan, x, dotAll);
    Reassembled(plan.pre, plan.options[i].0, r, plan.suf);
    AcceptingOption(plan, x, i, dotAll);
  }

  lemma Reassembled(pre: string, c: char, r: string, suf: string)
    ensures var x := pre + [c] + r + suf; |pre| + |suf| < |x| && x[|pre|] == c && Middle(x, pre, suf) == r
  {
  }

  /** Options have different characters, so only one can accept. */
  lemma AcceptingOption(plan: Plan, x: string, i: nat, dotAll: bool)
    requires plan.Choice? && Accepts(plan, x, dotAll) && i < |plan.options| && plan.options[i].0 == x[|plan.pre|]
    requires forall h, j | 0 <= h < j < |plan.options| :: plan.options[h].0 != plan.options[j].0
    ensures Accepts(plan.options[i].1, Middle(x, plan.pre, plan.suf), dotAll)
  {
    var j :| 0 <= j < |plan.options| && plan.options[j].0 == x[|plan.pre|]
             && Accepts(plan.options[j].1, Middle(x, plan.pre, plan.suf), dotAll);
    assert i == j;
  }

  // When no wildcard is used, and when all of them fit

  /** Where one string has a newline, all have. */
  ghost predicate NewlinesShared(strings: seq<string>) {
    forall x, y, j | x in strings && y in strings && 0 <= j < |x| && j < |y| :: x[j] == '\n' ==> y[j] == '\n'
  }

  /** `r` is the part from position `at` of one of the strings. */
  ghost predicate HasPart(strings: seq<string>, at: nat, r: string) {
    exists x :: x in strings && at + |r| <= |x| && x[at..at + |r|] == r
  }

  lemma PartsShared(strings: seq<string>, at: nat, inner: seq<string>)
    requires NewlinesShared(strings) && forall r | r in inner :: HasPart(strings, at, r)
    ensures NewlinesShared(inner)
  {
    forall r, t, j | r in inner && t in inner && 0 <= j < |r| && j < |t| ensures r[j] == '\n' ==> t[j] == '\n' {
      var x :| x in strings && at + |r| <= |x| && x[at..at + |r|] == r;
      var y :| y in strings && at + |t| <= |y| && y[at..at + |t|] == t;
      assert x[at + j] == r[j] && y[at + j] == t[j];
    }
  }

  lemma SubPart(plan: Plan, r: string)
    requires plan.Wild? && WildOk(plan.inputs, plan.n, plan.pre, plan.suf, plan.sub) && r in plan.sub.inputs
    ensures HasPart(plan.inputs, |plan.pre| + 1, r)
  {
    var x :| x in plan.inputs && Middle(x, plan.pre, plan.suf) == r;
    assert x[|plan.pre| + 1..|plan.pre| + 1 + |r|] == r;
  }

  lemma OptionPart(plan: Plan, i: nat, r: string)
    requires plan.Choice? && ChoiceOk(plan.inputs, plan.n, plan.pre, plan.suf, plan.options)
    requires i < |plan.options| && r in plan.options[i].1.inputs
    ensures HasPart(plan.inputs, |plan.pre| + 1, r)
  {
    var x := plan.pre + [plan.options[i].0] + r + plan.suf;
    assert x in plan.inputs;
    assert x[|plan.pre| + 1..|plan.pre| + 1 + |r|] == r;
  }

  /** Wildcards stand only where the strings differ. */
  lemma WildShared(plan: Plan, x: string)
    requires plan.Wild? && WildOk(plan.inputs, plan.n, plan.pre, plan.suf, plan.sub) && NewlinesShared(plan.inputs)
    requires x in plan.inputs && |plan.pre| < |x|
    ensures x[|plan.pre|] != '\n'
  {
    var at, inputs := |plan.pre|, plan.inputs;
    var i :| 0 <= i < |inputs| && inputs[i][at] != inputs[0][at];
    assert inputs[i] in inputs && inputs[0] in inputs;
  }

  lemma WildStays(plan: Plan)
    requires plan.Wild? && WildOk(plan.inputs, plan.n, plan.pre, plan.suf, plan.sub) && NewlinesShared(plan.inputs)
    ensures NewlinesShared(plan.sub.inputs)
    ensures forall x | x in plan.inputs && |plan.pre| < |x| :: DotFits(x[|plan.pre|], false)
  {
    forall r | r in plan.sub.inputs ensures HasPart(plan.inputs, |plan.pre| + 1, r) { SubPart(plan, r); }
    PartsShared(plan.inputs, |plan.pre| + 1, plan.sub.inputs);
    forall x | x in plan.inputs && |plan.pre| < |x| ensures DotFits(x[|plan.pre|], false) { WildShared(plan, x); }
  }

  lemma OptionStays(plan: Plan, i: nat)
    requires plan.Choice? && ChoiceOk(plan.inputs, plan.n, plan.pre, plan.suf, plan.options)
    requires i < |plan.options| && NewlinesShared(plan.inputs)
    ensures NewlinesShared(plan.options[i].1.inputs)
  {
    forall r | r in plan.options[i].1.inputs ensures HasPart(plan.inputs, |plan.pre| + 1, r) { OptionPart(plan, i, r); }
    PartsShared(plan.inputs, |plan.pre| + 1, plan.options[i].1.inputs);
  }

  lemma {:induction false} SharedFits(plan: Plan, dotAll: bool)
    requires PlanOk(plan) && (dotAll || NewlinesShared(plan.inputs))
    ensures WildcardsFit(plan, dotAll)
    decreases plan
  {
    match plan
    case Leaf(_, _) =>
    case Wild(_, _, _, _, sub) =>
      if !dotAll { WildStays(plan); }
      SharedFits(sub, dotAll);
    case Choice(_, _, _, _, options) =>
      forall i | 0 <= i < |options| ensures WildcardsFit(options[i].1, dotAll) {
        if !dotAll { OptionStays(plan, i); }
        SharedFits(options[i].1, dotAll);
      }
  }

  // With one choice allowed, every difference becomes a wildcard

  lemma TwoGroups(strings: seq<string>, n: nat, p: nat, s: nat)
    requires SameLength(strings, n) && p + s < n && !AgreeAt(strings, n, p)
    ensures Wildcard(|Grouping.GroupPairsByFirst(Pairs(strings, n, p, s))|, 1)
  {
    var i :| 0 <= i < |strings| && strings[i][p] != strings[0][p];
    var pairs := Pairs(strings, n, p, s);
    Grouping.GroupPairsMeaning(pairs);
    var groups := Grouping.GroupPairsByFirst(pairs);
    assert Grouping.HasKey(groups, pairs[i].0) && Grouping.HasKey(groups, pairs[0].0);
    var k :| 0 <= k < |groups| && groups[k].0 == pairs[i].0;
    var l :| 0 <= l < |groups| && groups[l].0 == pairs[0].0;
    assert k != l;
  }

  ghost predicate OnlyWildcards(plan: Plan)
    decreases plan
  {
    plan.Leaf? || (plan.Wild? && OnlyWildcards(plan.sub))
  }

  lemma {:induction false} OneChoicePlan(input: seq<string>, n: nat)
    requires input != [] && SameLength(input, n)
    ensures OnlyWildcards(MakePlan(input, n, 1))
    decreases n, 1
  {
    SortedLength(input, n);
    var strings := SortStrings(input);
    var p := PrefixLength(strings, n, 0);
    if p < n {
      MiddleIsLeft(strings, n);
      OneChoiceDivide(strings, n, p, SuffixLength(strings, n, 0));
    }
  }

  lemma {:induction false} OneChoiceDivide(strings: seq<string>, n: nat, p: nat, s: nat)
    requires CutsAt(strings, n, p, s)
    ensures OnlyWildcards(Divide(strings, n, p, s, 1))
    decreases n, 0
  {
    TwoGroups(strings, n, p, s);
    OneChoicePlan(Rests(Pairs(strings, n, p, s)), n - s - p - 1);
  }

  lemma MiddleAt(x: string, pre: string, suf: string, j: nat)
    requires |pre| + |suf| < |x| && |pre| < j < |x| - |suf|
    ensures j - |pre| - 1 < |Middle(x, pre, suf)| && Middle(x, pre, suf)[j - |pre| - 1] == x[j]
  {
  }

  lemma EndsAgree(x: string, y: string, pre: string, suf: string, j: nat)
    requires InFrame(x, pre, suf) && InFrame(y, pre, suf) && |x| == |y| && j < |x| && (j < |pre| || |x| - |suf| <= j)
    ensures x[j] == y[j]
  {
    if j < |pre| {
      assert x[j] == pre[j] == y[j];
    } else {
      var k := |x| - |suf|;
      assert x[k..][j - k] == suf[j - k] == y[k..][j - k];
    }
  }

  /** Two strings of a wildcard plan at one position: in the prefix or suffix, at
      the wildcard, or in the middle. */
  lemma SharedAt(plan: Plan, x: string, y: string, j: nat)
    requires plan.Wild? && InFrame(x, plan.pre, plan.suf) && InFrame(y, plan.pre, plan.suf) && |x| == |y|
    requires Middle(x, plan.pre, plan.suf) in plan.sub.inputs && Middle(y, plan.pre, plan.suf) in plan.sub.inputs
    requires NewlinesShared(plan.sub.inputs) && j < |x| && x[j] == '\n' && x[|plan.pre|] != '\n'
    ensures y[j] == '\n'
  {
    if |plan.pre| < j < |x| - |plan.suf| {
      MiddleAt(x, plan.pre, plan.suf, j);
      MiddleAt(y, plan.pre, plan.suf, j);
    } else {
      EndsAgree(x, y, plan.pre, plan.suf, j);
    }
  }

  lemma WildFramed(plan: Plan, x: string)
    requires plan.Wild? && WildOk(plan.inputs, plan.n, plan.pre, plan.suf, plan.sub) && x in plan.inputs
    ensures |x| == plan.n && InFrame(x, plan.pre, plan.suf) && Middle(x, plan.pre, plan.suf) in plan.sub.inputs
  {
  }

  lemma WildShares(plan: Plan)
    requires plan.Wild? && WildOk(plan.inputs, plan.n, plan.pre, plan.suf, plan.sub) && NewlinesShared(plan.sub.inputs)
    requires forall x | x in plan.inputs && |plan.pre| < |x| :: DotFits(x[|plan.pre|], false)
    ensures NewlinesShared(plan.inputs)
  {
    forall x, y, j | x in plan.inputs && y in plan.inputs && 0 <= j < |x| && j < |y| ensures x[j] == '\n' ==> y[j] == '\n' {
      if x[j] == '\n' {
        WildFramed(plan, x);
        WildFramed(plan, y);
        SharedAt(plan, x, y, j);
      }
    }
  }

  lemma {:induction false} FittingShares(plan: Plan)
    requires PlanOk(plan) && OnlyWildcards(plan) && WildcardsFit(plan, false)
    ensures NewlinesShared(plan.inputs)
    decreases plan
  {
    if plan.Wild? {
      FittingShares(plan.sub);
      WildShares(plan);
    }
  }

  // The text

  ghost predicate PlainText(strings: seq<string>) {
    forall x | x in strings :: PlainString(x)
  }

  lemma {:induction false} PlainAppend(a: Items, b: Items)
    ensures PlainItems(Append(a, b)) <==> PlainItems(a) && PlainItems(b)
    decreases a
  {
    if a.Cons? { PlainAppend(a.tail, b); }
  }

  lemma {:induction false} PlainLiteral(w: string)
    ensures PlainItems(Literal(w)) <==> PlainString(w)
    decreases |w|
  {
    if w != "" {
      PlainLiteral(w[1..]);
      assert w == [w[0]] + w[1..];
    }
  }

  lemma PlainFrame(pre: string, middle: Items, suf: string)
    requires PlainItems(middle) && PlainString(pre) && PlainString(suf)
    ensures PlainItems(Append(Literal(pre), Append(middle, Literal(suf))))
  {
    PlainLiteral(pre);
    PlainLiteral(suf);
    PlainAppend(middle, Literal(suf));
    PlainAppend(Literal(pre), Append(middle, Literal(suf)));
  }

  predicate PlainString(x: string) {
    forall c | c in x :: c == '.' || Plain(c)
  }

  lemma PlainSlice(x: string, i: nat, j: nat)
    requires PlainString(x) && i <= j <= |x|
    ensures PlainString(x[i..j])
  {
    assert forall c | c in x[i..j] :: c in x;
  }

  lemma PlainPrefix(x: string, w: string)
    requires PlainString(x) && |w| <= |x| && x[..|w|] == w
    ensures PlainString(w)
  {
    PlainSlice(x, 0, |w|);
  }

  lemma PlainSuffix(x: string, w: string)
    requires PlainString(x) && EndsWith(x, w)
    ensures PlainString(w)
  {
    PlainSlice(x, |x| - |w|, |x|);
  }

  /** Prefix and suffix of plain strings are plain. */
  lemma PlainEnds(inputs: seq<string>, n: nat, pre: string, suf: string)
    requires inputs != [] && Framed(inputs, n, pre, suf) && PlainText(inputs)
    ensures PlainString(pre) && PlainString(suf)
  {
    assert inputs[0] in inputs;
    PlainPrefix(inputs[0], pre);
    PlainSuffix(inputs[0], suf);
  }

  lemma PlainSub(plan: Plan)
    requires plan.Wild? && WildOk(plan.inputs, plan.n, plan.pre, plan.suf, plan.sub) && PlainText(plan.inputs)
    ensures PlainText(plan.sub.inputs)
  {
    forall r | r in plan.sub.inputs ensures PlainString(r) {
      SubPart(plan, r);
      PlainPart(plan.inputs, |plan.pre| + 1, r);
    }
  }

  lemma PlainPart(strings: seq<string>, at: nat, r: string)
    requires PlainText(strings) && HasPart(strings, at, r)
    ensures PlainString(r)
  {
    var x :| x in strings && at + |r| <= |x| && x[at..at + |r|] == r;
    PlainSlice(x, at, at + |r|);
  }

  lemma PlainInside(pre: string, c: char, r: string, suf: string)
    requires PlainString(pre + [c] + r + suf)
    ensures (c == '.' || Plain(c)) && PlainString(r)
  {
    var x := pre + [c] + r + suf;
    assert x[|pre|] == c && c in x;
    PlainSlice(x, |pre| + 1, |pre| + 1 + |r|);
    assert x[|pre| + 1..|pre| + 1 + |r|] == r;
  }

  lemma PlainOption(plan: Plan, i: nat)
    requires PlanOk(plan) && PlainText(plan.inputs) && plan.Choice? && i < |plan.options|
    ensures (plan.options[i].0 == '.' || Plain(plan.options[i].0)) && PlainText(plan.options[i].1.inputs)
  {
    var option := plan.options[i];
    forall r | r in option.1.inputs ensures (option.0 == '.' || Plain(option.0)) && PlainString(r) {
      PlainInside(plan.pre, option.0, r, plan.suf);
    }
    assert PlanOk(option.1);
    assert option.1.inputs[0] in option.1.inputs;
  }

  lemma {:induction false} PlainPlan(plan: Plan)
    requires PlanOk(plan) && PlanShape(plan) && PlainText(plan.inputs)
    ensures PlainItems(ItemsOf(plan))
    decreases plan, 0
  {
    match plan
    case Leaf(inputs, _) =>
      assert inputs[0] in inputs;
      PlainLiteral(inputs[0]);
    case Wild(_, _, pre, suf, sub) =>
      PlainEnds(plan.inputs, plan.n, pre, suf);
      PlainSub(plan);
      PlainPlan(sub);
      PlainFrame(pre, Cons(Any, ItemsOf(sub)), suf);
    case Choice(_, _, pre, suf, _) =>
      PlainEnds(plan.inputs, plan.n, pre, suf);
      PlainOptions(plan, 0);
      PlainFrame(pre, Cons(Group(ChoicesOf(plan, 0)), Nil), suf);
  }

  lemma {:induction false} PlainOptions(plan: Plan, i: nat)
    requires PlanOk(plan) && PlanShape(plan) && PlainText(plan.inputs) && plan.Choice? && i < |plan.options|
    ensures PlainChoices(ChoicesOf(plan, i))
    decreases plan, 0, |plan.options| - i
  {
    PlainOption(plan, i);
    PlainPlan(plan.options[i].1);
    if i + 1 < |plan.options| { PlainOptions(plan, i + 1); }
  }

  /** Whether a regular expression, given as text, matches the whole of `x`. */
  ghost predicate FullMatch(text: string, x: string, dotAll: bool) {
    var r := Parse(text);
    r.Some? && MatchChoices(r.value, x, dotAll)
  }

  ghost function PlanOf(strings: seq<string>, maxChoices: int): Plan
    requires strings != [] && SameLength(strings, |strings[0]|)
  {
    MakePlan(strings, |strings[0]|, maxChoices)
  }

  /** The written text means what its plan accepts. */
  lemma TextMatch(strings: seq<string>, maxChoices: int, x: string, dotAll: bool)
    requires strings != [] && SameLength(strings, |strings[0]|) && PlainText(strings)
    ensures var text := RegexListMatchExpr(strings, maxChoices, "\\");
            text.Some? && (FullMatch(text.value, x, dotAll) <==> Accepts(PlanOf(strings, maxChoices), x, dotAll))
  {
    var plan := PlanOf(strings, maxChoices);
    forall y | y in plan.inputs ensures PlainString(y) { assert y in strings; }
    OkShape(plan);
    PlainPlan(plan);
    WriteRead(ItemsOf(plan));
    PlanMatch(plan, x, dotAll);
  }

  /** For plain strings of one length: only strings of that length match. */
  lemma TextMatchesOneLength(strings: seq<string>, maxChoices: int, x: string, dotAll: bool)
    requires strings != [] && SameLength(strings, |strings[0]|) && PlainText(strings)
    ensures FullMatch(RegexListMatchExpr(strings, maxChoices, "\\").value, x, dotAll) ==> |x| == |strings[0]|
  {
    TextMatch(strings, maxChoices, x, dotAll);
    if Accepts(PlanOf(strings, maxChoices), x, dotAll) { AcceptsLength(PlanOf(strings, maxChoices), x, dotAll); }
  }

  ghost predicate AllMatch(strings: seq<string>, maxChoices: int, dotAll: bool)
    requires strings != [] && SameLength(strings, |strings[0]|)
  {
    forall x | x in strings :: FullMatch(RegexListMatchExpr(strings, maxChoices, "\\").value, x, dotAll)
  }

  /** All inputs match exactly when no wildcard stands for a newline. */
  lemma TextMatchesInputs(strings: seq<string>, maxChoices: int, dotAll: bool)
    requires strings != [] && SameLength(strings, |strings[0]|) && PlainText(strings)
    ensures AllMatch(strings, maxChoices, dotAll) <==> WildcardsFit(PlanOf(strings, maxChoices), dotAll)
  {
    var plan := PlanOf(strings, maxChoices);
    AcceptsAllExactly(plan, dotAll);
    forall x ensures FullMatch(RegexListMatchExpr(strings, maxChoices, "\\").value, x, dotAll) <==> Accepts(plan, x, dotAll) {
      TextMatch(strings, maxChoices, x, dotAll);
    }
    assert SameMembers(plan.inputs, strings);
  }

  /** Every input matches, whatever number of choices is allowed, exactly when dots
      match newlines or the inputs have their newlines in the same places. */
  lemma InputsAlwaysMatch(strings: seq<string>, dotAll: bool)
    requires strings != [] && SameLength(strings, |strings[0]|) && PlainText(strings)
    ensures (forall maxChoices: int :: AllMatch(strings, maxChoices, dotAll)) <==> dotAll || NewlinesShared(strings)
  {
    if dotAll || NewlinesShared(strings) {
      forall maxChoices: int ensures AllMatch(strings, maxChoices, dotAll) {
        var plan := PlanOf(strings, maxChoices);
        assert SameMembers(plan.inputs, strings);
        SharedFits(plan, dotAll);
        TextMatchesInputs(strings, maxChoices, dotAll);
      }
    } else {
      var plan := PlanOf(strings, 1);
      assert SameMembers(plan.inputs, strings);
      OneChoicePlan(strings, |strings[0]|);
      TextMatchesInputs(strings, 1, dotAll);
      if WildcardsFit(plan, false) { FittingShares(plan); }
      assert !AllMatch(strings, 1, dotAll);
    }
  }

  /** Where no wildcard is used the matches are exactly the inputs; with no limit
      on the choices that is always so. */
  lemma TextMatchesExactly(strings: seq<string>, maxChoices: int, x: string, dotAll: bool)
    requires strings != [] && SameLength(strings, |strings[0]|) && PlainText(strings)
    ensures maxChoices == 0 ==> NoWildcard(PlanOf(strings, maxChoices))
    ensures NoWildcard(PlanOf(strings, maxChoices)) ==>
              (FullMatch(RegexListMatchExpr(strings, maxChoices, "\\").value, x, dotAll) <==> x in strings)
  {
    var plan := PlanOf(strings, maxChoices);
    if NoWildcard(plan) {
      TextMatch(strings, maxChoices, x, dotAll);
      AcceptsExactly(plan, x, dotAll);
      assert SameMembers(plan.inputs, strings);
    }
  }

  lemma NewlineIsPlain(strings: seq<string>)
    requires |strings| == 2 && strings[0] == "\n" && strings[1] == "a"
    ensures PlainText(strings)
  {
    assert Plain('\n') && Plain('a');
    forall x | x in strings ensures PlainString(x) {
      assert x == ['\n'] || x == ['a'];
    }
  }

  /** So an input is not always matched: a newline and another character, with one
      choice allowed. */
  lemma NewlineIsLost(strings: seq<string>)
    requires |strings| == 2 && strings[0] == "\n" && strings[1] == "a"
    ensures SameLength(strings, 1) && !FullMatch(RegexListMatchExpr(strings, 1, "\\").value, strings[0], false)
  {
    NewlineIsPlain(strings);
    var plan := PlanOf(strings, 1);
    OneChoicePlan(strings, 1);
    assert SameMembers(plan.inputs, strings) && strings[0] in plan.inputs && strings[1] in plan.inputs;
    TextMatch(strings, 1, strings[0], false);
  }
}
