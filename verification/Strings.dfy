/** The lexicographic order of strings. */
module Strings {
  predicate StringLess(a: string, b: string) {
    b != "" && (a == "" || a[0] < b[0] || (a[0] == b[0] && StringLess(a[1..], b[1..])))
  }

  lemma {:induction false} LessIrreflexive(a: string)
    ensures !StringLess(a, a)
    decreases |a|
  {
    if a != "" { LessIrreflexive(a[1..]); }
  }

  lemma {:induction false} LessTransitive(a: string, b: string, c: string)
    requires StringLess(a, b) && StringLess(b, c)
    ensures StringLess(a, c)
    decreases |a|
  {
    if a != "" && a[0] == b[0] == c[0] { LessTransitive(a[1..], b[1..], c[1..]); }
  }

  lemma {:induction false} LessTotal(a: string, b: string)
    requires a != b
    ensures StringLess(a, b) || StringLess(b, a)
    decreases |a|
  {
    if a != "" && b != "" && a[0] == b[0] {
      assert a == [a[0]] + a[1..] && b == [b[0]] + b[1..];
      LessTotal(a[1..], b[1..]);
    }
  }

  /** Pairs compare by their strings first. */
  predicate PairLess(p: (string, int), q: (string, int)) {
    StringLess(p.0, q.0) || (p.0 == q.0 && p.1 < q.1)
  }

  lemma PairTransitive(p: (string, int), q: (string, int), r: (string, int))
    requires PairLess(p, q) && PairLess(q, r)
    ensures PairLess(p, r)
  {
    if StringLess(p.0, q.0) && StringLess(q.0, r.0) { LessTransitive(p.0, q.0, r.0); }
  }

  lemma PairTotal(p: (string, int), q: (string, int))
    requires p != q
    ensures PairLess(p, q) || PairLess(q, p)
  {
    if p.0 != q.0 { LessTotal(p.0, q.0); }
  }
}
