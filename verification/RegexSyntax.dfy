/** The regular expressions that regexListMatchExpr writes: their meaning, their
    text, and the reading of that text. */
module RegexSyntax {
  import opened Options

  /** A concatenation of literals, wildcards and groups of alternatives. */
  datatype Items = Nil | Cons(head: Atom, tail: Items)
  datatype Atom = Lit(c: char) | Any | Group(choices: Choices)
  datatype Choices = One(items: Items) | More(first: Items, others: Choices)

  // Meaning: whole-string matching; a wildcard matches a newline only with dotAll

  ghost predicate MatchItems(r: Items, s: string, dotAll: bool)
    decreases r
  {
    match r
    case Nil => s == ""
    case Cons(a, rest) => exists k: nat :: k <= |s| && MatchAtom(a, s[..k], dotAll) && MatchItems(rest, s[k..], dotAll)
  }

  ghost predicate MatchAtom(a: Atom, s: string, dotAll: bool)
    decreases a
  {
    match a
    case Lit(c) => s == [c]
    case Any => |s| == 1 && DotFits(s[0], dotAll)
    case Group(choices) => MatchChoices(choices, s, dotAll)
  }

  ghost predicate MatchChoices(r: Choices, s: string, dotAll: bool)
    decreases r
  {
    match r
    case One(items) => MatchItems(items, s, dotAll)
    case More(first, others) => MatchItems(first, s, dotAll) || MatchChoices(others, s, dotAll)
  }

  predicate DotFits(c: char, dotAll: bool) {
    dotAll || c != '\n'
  }

  function Append(a: Items, b: Items): Items {
    match a
    case Nil => b
    case Cons(h, t) => Cons(h, Append(t, b))
  }

  function Literal(s: string): Items {
    if s == "" then Nil else Cons(Lit(s[0]), Literal(s[1..]))
  }

  /** A leading literal is matched by that prefix. */
  lemma {:induction false} LeadingLiteral(w: string, r: Items, s: string, dotAll: bool)
    ensures MatchItems(Append(Literal(w), r), s, dotAll) <==> |w| <= |s| && s[..|w|] == w && MatchItems(r, s[|w|..], dotAll)
    decreases |w|
  {
    if w == "" {
      assert s[0..] == s;
    } else {
      if s != "" {
        LeadingLiteral(w[1..], r, s[1..], dotAll);
        assert s[..1] == [s[0]];
        if |w| <= |s| {
          assert s[1..][|w| - 1..] == s[|w|..];
          assert s[..|w|] == [s[0]] + s[1..][..|w| - 1];
          assert w == [w[0]] + w[1..];
        }
      }
      HeadIsOne(Lit(w[0]), Append(Literal(w[1..]), r), s, dotAll);
    }
  }

  /** An atom that matches single characters takes exactly the first one. */
  lemma HeadIsOne(a: Atom, r: Items, s: string, dotAll: bool)
    requires a.Lit? || a.Any?
    ensures MatchItems(Cons(a, r), s, dotAll) <==> s != "" && MatchAtom(a, s[..1], dotAll) && MatchItems(r, s[1..], dotAll)
  {
    if MatchItems(Cons(a, r), s, dotAll) {
      var k: nat :| k <= |s| && MatchAtom(a, s[..k], dotAll) && MatchItems(r, s[k..], dotAll);
      assert k == 1;
    }
  }

  lemma LiteralMatch(w: string, s: string, dotAll: bool)
    ensures MatchItems(Literal(w), s, dotAll) <==> s == w
  {
    AppendNil(Literal(w));
    LeadingLiteral(w, Nil, s, dotAll);
    if s == w { assert s[..|w|] == w && s[|w|..] == ""; }
    if |w| <= |s| && s[..|w|] == w && s[|w|..] == "" { assert s == s[..|w|] + s[|w|..]; }
  }

  lemma {:induction false} AppendNil(a: Items)
    ensures Append(a, Nil) == a
    decreases a
  {
    if a.Cons? { AppendNil(a.tail); }
  }

  predicate EndsWith(s: string, w: string) {
    |w| <= |s| && s[|s| - |w|..] == w
  }

  lemma Slices(s: string, k: nat, m: nat)
    requires k <= m <= |s|
    ensures s[..m][..k] == s[..k] && s[..m][k..] == s[k..][..m - k] && s[k..][m - k..] == s[m..]
  {
  }

  /** A trailing literal is matched by that suffix. */
  lemma {:induction false} TrailingLiteral(r: Items, w: string, s: string, dotAll: bool)
    ensures MatchItems(Append(r, Literal(w)), s, dotAll) <==> EndsWith(s, w) && MatchItems(r, s[..|s| - |w|], dotAll)
    decreases r
  {
    if r.Nil? {
      LiteralMatch(w, s, dotAll);
      if s == w { assert s[0..] == s; }
    } else {
      if MatchItems(Append(r, Literal(w)), s, dotAll) { TrailingSplits(r, w, s, dotAll); }
      if EndsWith(s, w) && MatchItems(r, s[..|s| - |w|], dotAll) { TrailingJoins(r, w, s, dotAll); }
    }
  }

  lemma {:induction false} TrailingSplits(r: Items, w: string, s: string, dotAll: bool)
    requires r.Cons? && MatchItems(Append(r, Literal(w)), s, dotAll)
    ensures EndsWith(s, w) && MatchItems(r, s[..|s| - |w|], dotAll)
    decreases r, 0
  {
    var k: nat :| k <= |s| && MatchAtom(r.head, s[..k], dotAll) && MatchItems(Append(r.tail, Literal(w)), s[k..], dotAll);
    TrailingLiteral(r.tail, w, s[k..], dotAll);
    Slices(s, k, |s| - |w|);
    var front := s[..|s| - |w|];
    assert MatchAtom(r.head, front[..k], dotAll) && MatchItems(r.tail, front[k..], dotAll);
  }

  lemma {:induction false} TrailingJoins(r: Items, w: string, s: string, dotAll: bool)
    requires r.Cons? && EndsWith(s, w) && MatchItems(r, s[..|s| - |w|], dotAll)
    ensures MatchItems(Append(r, Literal(w)), s, dotAll)
    decreases r, 0
  {
    var front := s[..|s| - |w|];
    var k: nat :| k <= |front| && MatchAtom(r.head, front[..k], dotAll) && MatchItems(r.tail, front[k..], dotAll);
    Slices(s, k, |s| - |w|);
    TrailingLiteral(r.tail, w, s[k..], dotAll);
    assert MatchAtom(r.head, s[..k], dotAll) && MatchItems(Append(r.tail, Literal(w)), s[k..], dotAll);
  }

  lemma SingleGroup(choices: Choices, s: string, dotAll: bool)
    ensures MatchItems(Cons(Group(choices), Nil), s, dotAll) <==> MatchChoices(choices, s, dotAll)
  {
    if MatchChoices(choices, s, dotAll) {
      assert s[..|s|] == s && s[|s|..] == "";
      assert MatchAtom(Group(choices), s[..|s|], dotAll);
    }
    if MatchItems(Cons(Group(choices), Nil), s, dotAll) {
      var k: nat :| k <= |s| && MatchAtom(Group(choices), s[..k], dotAll) && MatchItems(Nil, s[k..], dotAll);
      assert s[..k] == s;
    }
  }

  // Text

  function RenderItems(r: Items, backslash: string): string {
    match r
    case Nil => ""
    case Cons(a, rest) => RenderAtom(a, backslash) + RenderItems(rest, backslash)
  }

  function RenderAtom(a: Atom, backslash: string): string {
    match a
    case Lit(c) => if c == '.' then backslash + "." else [c]
    case Any => "."
    case Group(choices) => "(" + RenderChoices(choices, backslash) + ")"
  }

  function RenderChoices(r: Choices, backslash: string): string {
    match r
    case One(items) => RenderItems(items, backslash)
    case More(first, others) => RenderItems(first, backslash) + "|" + RenderChoices(others, backslash)
  }

  // Reading the text back: backslash-dot is a literal dot, a bare dot a wildcard,
  // parentheses group, bars separate alternatives, other plain characters stand
  // for themselves

  predicate Plain(c: char) {
    c !in "\\.^$*+?{}[]|()"
  }

  function ParseItems(s: string): (r: Option<(Items, string)>)
    ensures r.Some? ==> |r.value.1| <= |s|
    decreases |s|, 1
  {
    if s == "" || s[0] == '|' || s[0] == ')' then Some((Nil, s))
    else
      var a := ParseAtom(s);
      if a.None? then None
      else
        var rest := ParseItems(a.value.1);
        if rest.None? then None else Some((Cons(a.value.0, rest.value.0), rest.value.1))
  }

  function ParseAtom(s: string): (r: Option<(Atom, string)>)
    requires s != ""
    ensures r.Some? ==> |r.value.1| < |s|
    decreases |s|, 0
  {
    if s[0] == '.' then Some((Any, s[1..]))
    else if s[0] == '\\' then (if |s| >= 2 && s[1] == '.' then Some((Lit('.'), s[2..])) else None)
    else if s[0] == '(' then
      var inner := ParseChoices(s[1..]);
      if inner.Some? && inner.value.1 != "" && inner.value.1[0] == ')'
      then Some((Group(inner.value.0), inner.value.1[1..])) else None
    else if Plain(s[0]) then Some((Lit(s[0]), s[1..]))
    else None
  }

  function ParseChoices(s: string): (r: Option<(Choices, string)>)
    ensures r.Some? ==> |r.value.1| <= |s|
    decreases |s|, 2
  {
    var first := ParseItems(s);
    if first.None? then None
    else if first.value.1 != "" && first.value.1[0] == '|' then
      var others := ParseChoices(first.value.1[1..]);
      if others.None? then None else Some((More(first.value.0, others.value.0), others.value.1))
    else Some((One(first.value.0), first.value.1))
  }

  /** The whole text as one expression. */
  function Parse(s: string): Option<Choices> {
    var r := ParseChoices(s);
    if r.Some? && r.value.1 == "" then Some(r.value.0) else None
  }

  predicate PlainItems(r: Items) {
    match r
    case Nil => true
    case Cons(a, rest) => PlainAtom(a) && PlainItems(rest)
  }

  predicate PlainAtom(a: Atom) {
    match a
    case Lit(c) => c == '.' || Plain(c)
    case Any => true
    case Group(choices) => PlainChoices(choices)
  }

  predicate PlainChoices(r: Choices) {
    match r
    case One(items) => PlainItems(items)
    case More(first, others) => PlainItems(first) && PlainChoices(others)
  }

  /** What may follow a complete item list. */
  predicate Stops(t: string) {
    t == "" || t[0] == '|' || t[0] == ')'
  }

  lemma {:induction false} ReadItems(r: Items, t: string)
    requires PlainItems(r) && Stops(t)
    ensures ParseItems(RenderItems(r, "\\") + t) == Some((r, t))
    decreases r
  {
    match r
    case Nil =>
      assert RenderItems(r, "\\") + t == t;
    case Cons(a, rest) =>
      var tail := RenderItems(rest, "\\") + t;
      assert RenderItems(r, "\\") + t == RenderAtom(a, "\\") + tail;
      ReadAtom(a, tail);
      ReadItems(rest, t);
      AtomStarts(a, tail);
  }

  lemma AtomStarts(a: Atom, t: string)
    requires PlainAtom(a)
    ensures var s := RenderAtom(a, "\\") + t; s != "" && s[0] != '|' && s[0] != ')'
  {
  }

  lemma {:induction false} ReadAtom(a: Atom, t: string)
    requires PlainAtom(a)
    ensures ParseAtom(RenderAtom(a, "\\") + t) == Some((a, t))
    decreases a
  {
    var s := RenderAtom(a, "\\") + t;
    match a
    case Lit(c) =>
      if c == '.' { assert s[2..] == t; } else { assert s[1..] == t; }
    case Any => assert s[1..] == t;
    case Group(choices) =>
      ReadChoices(choices, ")" + t);
      assert s[1..] == RenderChoices(choices, "\\") + (")" + t);
      assert (")" + t)[1..] == t;
  }

  lemma {:induction false} ReadChoices(r: Choices, t: string)
    requires PlainChoices(r) && (t == "" || t[0] == ')')
    ensures ParseChoices(RenderChoices(r, "\\") + t) == Some((r, t))
    decreases r
  {
    match r
    case One(items) => ReadItems(items, t);
    case More(first, others) =>
      var tail := RenderChoices(others, "\\") + t;
      assert RenderChoices(r, "\\") + t == RenderItems(first, "\\") + ("|" + tail);
      ReadItems(first, "|" + tail);
      assert ("|" + tail)[1..] == tail;
      ReadChoices(others, t);
  }

  /** Reading what was written gives the expression back. */
  lemma WriteRead(r: Items)
    requires PlainItems(r)
    ensures Parse(RenderItems(r, "\\")) == Some(One(r))
  {
    ReadChoices(One(r), "");
    assert RenderItems(r, "\\") + "" == RenderItems(r, "\\");
  }
}
