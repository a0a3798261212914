/**
 * Unsigned words as numbers, with the bit operations the bit set uses.  Every
 * operation is given by its recursion on bits; the lemmas say what each does to
 * bit `i`.
 */
module Bits {
  import opened Powers

  predicate Bit(w: nat, i: nat) {
    if i == 0 then w % 2 == 1 else Bit(w / 2, i - 1)
  }

  function Or(a: nat, b: nat): nat {
    if a == 0 then b
    else 2 * Or(a / 2, b / 2) + if a % 2 == 1 || b % 2 == 1 then 1 else 0
  }

  function And(a: nat, b: nat): nat {
    if a == 0 then 0
    else 2 * And(a / 2, b / 2) + if a % 2 == 1 && b % 2 == 1 then 1 else 0
  }

  /** a & ~b */
  function AndNot(a: nat, b: nat): nat {
    if a == 0 then 0
    else 2 * AndNot(a / 2, b / 2) + if a % 2 == 1 && b % 2 == 0 then 1 else 0
  }

  /** std::countr_zero of a non-zero word. */
  function TrailingZeros(w: nat): nat
    requires w > 0
  {
    if w % 2 == 1 then 0 else 1 + TrailingZeros(w / 2)
  }

  lemma {:induction false} BitZero(i: nat)
    ensures !Bit(0, i)
  {
    if i > 0 { BitZero(i - 1); }
  }

  lemma {:induction false} BitOr(a: nat, b: nat, i: nat)
    ensures Bit(Or(a, b), i) <==> Bit(a, i) || Bit(b, i)
    decreases a, i
  {
    if a == 0 {
      BitZero(i);
    } else if i > 0 {
      BitOr(a / 2, b / 2, i - 1);
    }
  }

  lemma {:induction false} BitAnd(a: nat, b: nat, i: nat)
    ensures Bit(And(a, b), i) <==> Bit(a, i) && Bit(b, i)
    decreases a, i
  {
    if a == 0 {
      BitZero(i);
    } else if i > 0 {
      BitAnd(a / 2, b / 2, i - 1);
    }
  }

  lemma {:induction false} BitAndNot(a: nat, b: nat, i: nat)
    ensures Bit(AndNot(a, b), i) <==> Bit(a, i) && !Bit(b, i)
    decreases a, i
  {
    if a == 0 {
      BitZero(i);
    } else if i > 0 {
      BitAndNot(a / 2, b / 2, i - 1);
    }
  }

  lemma {:induction false} BitPow2(k: nat, i: nat)
    ensures Bit(Pow2(k), i) <==> i == k
  {
    if k == 0 {
      if i > 0 { BitZero(i - 1); }
    } else if i > 0 {
      BitPow2(k - 1, i - 1);
    }
  }

  /** Words are determined by their bits. */
  lemma {:induction false} SameBits(a: nat, b: nat)
    requires forall i: nat :: Bit(a, i) <==> Bit(b, i)
    ensures a == b
    decreases a + b
  {
    if a != 0 || b != 0 {
      assert Bit(a, 0) <==> Bit(b, 0);
      forall i: nat ensures Bit(a / 2, i) <==> Bit(b / 2, i) {
        assert Bit(a, i + 1) <==> Bit(b, i + 1);
      }
      SameBits(a / 2, b / 2);
    }
  }

  /** The lowest set bit is where TrailingZeros points. */
  lemma {:induction false} LowestBit(w: nat)
    requires w > 0
    ensures Bit(w, TrailingZeros(w)) && forall i: nat | i < TrailingZeros(w) :: !Bit(w, i)
  {
    if w % 2 == 0 { LowestBit(w / 2); }
  }

  /** w & (w - 1) clears exactly the lowest set bit. */
  lemma {:induction false} ClearLowest(w: nat, i: nat)
    requires w > 0
    ensures Bit(And(w, w - 1), i) <==> Bit(w, i) && i != TrailingZeros(w)
    decreases w
  {
    if w % 2 == 1 {
      assert (w - 1) / 2 == w / 2;
      if i > 0 { BitAnd(w / 2, w / 2, i - 1); }
    } else {
      assert (w - 1) / 2 == w / 2 - 1;
      if i > 0 { ClearLowest(w / 2, i - 1); }
    }
  }

  lemma {:induction false} AndSmaller(a: nat, b: nat)
    ensures And(a, b) <= b
  {
    if a != 0 { AndSmaller(a / 2, b / 2); }
  }

  /** Words of `n` bits stay within `n` bits. */
  lemma {:induction false} Width(a: nat, b: nat, n: nat)
    requires a < Pow2(n) && b < Pow2(n)
    ensures Or(a, b) < Pow2(n) && AndNot(a, b) < Pow2(n)
    decreases n
  {
    if a != 0 {
      Width(a / 2, b / 2, n - 1);
    }
  }

  lemma {:induction false} HighBitsClear(w: nat, n: nat, i: nat)
    requires w < Pow2(n) && i >= n
    ensures !Bit(w, i)
    decreases n
  {
    if n == 0 { BitZero(i); } else { HighBitsClear(w / 2, n - 1, i - 1); }
  }
}
