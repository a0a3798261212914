/**
 * Arithmetic of the implicit tree layout: node i has children 2i and 2i + 1, and
 * a tree of n nodes occupies the indices 1..n.
 */
module HeapLayout {
  import opened Powers

  /** How many of the indices 1..n lie in the subtree of node `i`. */
  function Size(i: nat, n: nat): nat
    requires i >= 1
    decreases n + 1 - i
  {
    if i > n then 0 else 1 + Size(2 * i, n) + Size(2 * i + 1, n)
  }

  function Min(a: int, b: int): int { if a < b then a else b }

  /** The leftmost index `h` levels below node `i`. */
  function Leftmost(i: nat, h: nat): nat
    decreases h
  {
    if h == 0 then i else Leftmost(2 * i, h - 1)
  }

  lemma {:induction false} LeftmostStep(i: nat, h: nat)
    ensures Leftmost(i, h + 1) == 2 * Leftmost(i, h)
    ensures Leftmost(i + 1, h) == Leftmost(i, h) + Pow2(h)
    ensures Leftmost(i, h) >= i && (i >= 1 ==> Leftmost(i, h) >= Pow2(h))
    decreases h
  {
    if h > 0 {
      LeftmostStep(2 * i, h - 1);
      LeftmostStep(2 * i + 1, h - 1);
      if i >= 1 { LeftmostStep(2 * i - 1, h - 1); }
    }
  }

  /** `h` levels below node `i` the leftmost index is in use, one level further it is not. */
  ghost predicate Depth(i: nat, n: nat, h: nat) {
    Leftmost(i, h) <= n < Leftmost(i, h + 1)
  }

  lemma {:induction false} DepthExists(i: nat, n: nat) returns (h: nat)
    requires 1 <= i <= n
    ensures Depth(i, n, h)
    decreases n - i
  {
    if n < 2 * i {
      h := 0;
    } else {
      var g := DepthExists(2 * i, n);
      h := g + 1;
    }
  }

  /** The size of a tree with `h` full levels above a last level holding up to
      `last` nodes. */
  function Filled(h: nat, last: int): int {
    Pow2(h) - 1 + Min(Pow2(h), last)
  }

  /** All levels above the last are full; the last holds what is left. */
  lemma {:induction false} SizeClosed(i: nat, n: nat, h: nat)
    requires 1 <= i <= n && Depth(i, n, h)
    ensures Size(i, n) == Filled(h, n + 1 - Leftmost(i, h))
    decreases h, 2
  {
    if h == 0 {
      assert Leftmost(i, 1) == Leftmost(2 * i, 0) == 2 * i;
      assert Size(2 * i, n) == 0 && Size(2 * i + 1, n) == 0;
    } else {
      LeftmostStep(2 * i, h - 1);
      SizeClosed(2 * i, n, h - 1);
      SizeRight(i, n, h);
    }
  }

  /** The right subtree's last level is the part of the last level past the middle. */
  lemma {:induction false} SizeRight(i: nat, n: nat, h: nat)
    requires 1 <= i <= n && Depth(i, n, h) && h >= 1
    ensures var p := Pow2(h - 1);
            var last := n + 1 - Leftmost(i, h);
            Size(2 * i + 1, n) == p - 1 + (if last <= p then 0 else Min(p, last - p))
    decreases h, 1
  {
    var left, right := Leftmost(2 * i, h - 1), Leftmost(2 * i + 1, h - 1);
    LeftmostStep(2 * i, h - 1);
    LeftmostStep(2 * i + 1, h - 1);
    assert Leftmost(i, h) == left && right == left + Pow2(h - 1);
    assert Leftmost(i, h + 1) == Leftmost(2 * i, h) == 2 * left;
    assert Leftmost(2 * i + 1, h) == 2 * right;
    if right <= n {
      SizeClosed(2 * i + 1, n, h - 1);
    } else {
      SizeRightShallow(i, n, h);
    }
  }

  lemma {:induction false} SizeRightShallow(i: nat, n: nat, h: nat)
    requires 1 <= i && h >= 1 && Leftmost(2 * i, h - 1) <= n < Leftmost(2 * i + 1, h - 1)
    ensures Size(2 * i + 1, n) == Pow2(h - 1) - 1
    decreases h, 0
  {
    if h > 1 {
      LeftmostStep(2 * i - 1, h - 2);
      LeftmostStep(2 * i, h - 2);
      LeftmostStep(2 * i + 1, h - 2);
      SizeClosed(2 * i + 1, n, h - 2);
    }
  }

  /** A subtree of the layout has the layout of its own size. */
  lemma SubtreeShape(i: nat, n: nat)
    requires 1 <= i <= n
    ensures Size(2 * i, n) == Size(2, Size(i, n))
  {
    var h := DepthExists(i, n);
    SizeClosed(i, n, h);
    if h == 0 {
      assert Leftmost(i, 1) == Leftmost(2 * i, 0) == 2 * i;
    } else {
      SizeClosed(2 * i, n, h - 1);
      ShapeOfFilled(h, n + 1 - Leftmost(i, h));
    }
  }

  lemma {:induction false} LeftmostOne(h: nat)
    ensures Leftmost(1, h) == Pow2(h)
  {
    if h > 0 { LeftmostOne(h - 1); LeftmostStep(1, h - 1); }
  }

  lemma RootSize(n: nat)
    ensures Size(1, n) == n
  {
    if n > 0 {
      var h := DepthExists(1, n);
      LeftmostOne(h);
      LeftmostOne(h + 1);
      SizeClosed(1, n, h);
    }
  }

  lemma ShapeOfFilled(h: nat, last: int)
    requires h >= 1 && last >= 1
    ensures Size(2, Filled(h, last)) == Filled(h - 1, last)
  {
    var m := Filled(h, last);
    LeftmostOne(h);
    LeftmostOne(h + 1);
    assert Leftmost(2, h - 1) == Leftmost(1, h) && Leftmost(2, h) == Leftmost(1, h + 1);
    SizeClosed(2, m, h - 1);
  }

  /** left_child_size: the closed form is the size of the left subtree. */
  method LeftChildSize(n: nat) returns (r: nat)
    requires n >= 1
    ensures r == Size(2, n)
  {
    var h := 0;
    while 1 + 2 * (Pow2(h + 1) - 1) <= n
      invariant 2 * Pow2(h) - 1 <= n
      decreases n - Pow2(h)
    {
      h := h + 1;
    }
    var p := Min(Pow2(h), n - 1 - 2 * (Pow2(h) - 1));
    r := Pow2(h) - 1 + p;
    if n == 2 * Pow2(h) - 1 {
      if h > 0 { ShapeOfFilled(h, Pow2(h)); }
    } else {
      ShapeOfFilled(h + 1, n + 1 - 2 * Pow2(h));
    }
  }

  // ---- which indices a subtree has ----

  /** Index `j` lies in the subtree of `i`. */
  predicate Under(i: nat, j: nat) {
    j >= i && (j == i || (j > 1 && Under(i, j / 2)))
  }

  lemma {:induction false} UnderRoot(j: nat)
    requires j >= 1
    ensures Under(1, j)
  {
    if j > 1 { UnderRoot(j / 2); }
  }

  lemma {:induction false} UnderChild(i: nat, c: nat, j: nat)
    requires i >= 1 && (c == 2 * i || c == 2 * i + 1) && Under(c, j)
    ensures Under(i, j) && j > i
  {
    if j != c { UnderChild(i, c, j / 2); }
  }

  lemma {:induction false} UnderOneChild(i: nat, j: nat)
    requires i >= 1 && Under(i, j) && j != i
    ensures Under(2 * i, j) != Under(2 * i + 1, j)
  {
    if j / 2 == i {
      if j == 2 * i { assert !Under(2 * i + 1, j); } else { assert !Under(2 * i, j / 2); }
    } else {
      UnderOneChild(i, j / 2);
      assert j != 2 * i && j != 2 * i + 1;
    }
  }

  /** The order in which init_tree fills the nodes of a subtree. */
  function FillOrder(i: nat, n: nat): seq<nat>
    requires i >= 1
    decreases n + 1 - i
  {
    if i > n then [] else FillOrder(2 * i, n) + FillOrder(2 * i + 1, n) + [i]
  }

  /** How often the subtree's filling writes index `j`. */
  ghost function Writes(i: nat, n: nat, j: nat): nat
    requires i >= 1
    decreases n + 1 - i
  {
    if i > n then 0 else Writes(2 * i, n, j) + Writes(2 * i + 1, n, j) + (if i == j then 1 else 0)
  }

  ghost function Count(s: seq<nat>, j: nat): nat {
    if s == [] then 0 else Count(s[..|s| - 1], j) + (if s[|s| - 1] == j then 1 else 0)
  }

  lemma {:induction false} CountConcat(l: seq<nat>, r: seq<nat>, j: nat)
    ensures Count(l + r, j) == Count(l, j) + Count(r, j)
    decreases |r|
  {
    if r == [] {
      assert l + r == l;
    } else {
      CountConcat(l, r[..|r| - 1], j);
      assert (l + r)[..|l + r| - 1] == l + r[..|r| - 1];
    }
  }

  lemma {:induction false} CountIsMultiplicity(s: seq<nat>, j: nat)
    ensures multiset(s)[j] == Count(s, j)
    decreases |s|
  {
    if s != [] {
      CountIsMultiplicity(s[..|s| - 1], j);
      assert s == s[..|s| - 1] + [s[|s| - 1]];
    }
  }

  lemma {:induction false} WritesAreCounted(i: nat, n: nat, j: nat)
    requires i >= 1
    ensures Count(FillOrder(i, n), j) == Writes(i, n, j)
    decreases n + 1 - i
  {
    if i <= n {
      WritesAreCounted(2 * i, n, j);
      WritesAreCounted(2 * i + 1, n, j);
      FillOrderStep(i, n, j);
    }
  }

  /** Every index of the subtree is filled exactly once. */
  lemma {:induction false} FillOrderOnce(i: nat, n: nat, j: nat)
    requires i >= 1
    ensures Writes(i, n, j) == if Under(i, j) && j <= n then 1 else 0
    decreases n + 1 - i
  {
    if i <= n {
      FillOrderOnce(2 * i, n, j);
      FillOrderOnce(2 * i + 1, n, j);
      UnderSplit(i, j);
    }
  }

  lemma FillOrderStep(i: nat, n: nat, j: nat)
    requires 1 <= i <= n
    ensures Count(FillOrder(i, n), j)
            == Count(FillOrder(2 * i, n), j) + Count(FillOrder(2 * i + 1, n), j) + (if i == j then 1 else 0)
  {
    var l, r := FillOrder(2 * i, n), FillOrder(2 * i + 1, n);
    var all := l + r + [i];
    assert FillOrder(i, n) == all && all[..|all| - 1] == l + r;
    CountConcat(l, r, j);
  }

  lemma UnderSplit(i: nat, j: nat)
    requires i >= 1
    ensures (if Under(i, j) then 1 else 0) ==
            (if i == j then 1 else 0) + (if Under(2 * i, j) then 1 else 0) + (if Under(2 * i + 1, j) then 1 else 0)
  {
    if Under(2 * i, j) { UnderChild(i, 2 * i, j); }
    if Under(2 * i + 1, j) { UnderChild(i, 2 * i + 1, j); }
    if Under(i, j) && j != i { UnderOneChild(i, j); }
  }

  /** Filling the whole tree writes each of the indices 1..n exactly once and no other. */
  lemma FillsEachOnce(n: nat, j: nat)
    ensures multiset(FillOrder(1, n))[j] == if 1 <= j <= n then 1 else 0
  {
    CountIsMultiplicity(FillOrder(1, n), j);
    WritesAreCounted(1, n, j);
    FillOrderOnce(1, n, j);
    if j >= 1 { UnderRoot(j); }
  }
}
