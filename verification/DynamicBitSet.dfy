/** DynamicBitSet: a bit set of fixed size in 64-bit blocks. */
module DynamicBitSet {
  import opened Bits
  import opened Powers

  const BITS_PER_BLOCK: nat := 64

  predicate Member(blocks: seq<nat>, i: nat) {
    i / BITS_PER_BLOCK < |blocks| && Bit(blocks[i / BITS_PER_BLOCK], i % BITS_PER_BLOCK)
  }

  /** Blocks are words, there are as many as needed, and spare bits are clear. */
  ghost predicate BlocksOk(blocks: seq<nat>, numBits: nat) {
    && |blocks| == numBits / BITS_PER_BLOCK + (if numBits % BITS_PER_BLOCK != 0 then 1 else 0)
    && (forall b | 0 <= b < |blocks| :: blocks[b] < Pow2(BITS_PER_BLOCK))
    && (forall i: nat | Member(blocks, i) :: i < numBits)
  }

  /** The members determine the blocks. */
  lemma SameMembers(a: seq<nat>, b: seq<nat>, numBits: nat)
    requires BlocksOk(a, numBits) && BlocksOk(b, numBits)
    requires forall j: nat :: Member(a, j) <==> Member(b, j)
    ensures a == b
  {
    forall i | 0 <= i < |a| ensures a[i] == b[i] {
      forall k: nat ensures Bit(a[i], k) <==> Bit(b[i], k) {
        if k < BITS_PER_BLOCK {
          var j := i * BITS_PER_BLOCK + k;
          assert j / BITS_PER_BLOCK == i && j % BITS_PER_BLOCK == k;
          assert Member(a, j) <==> Member(b, j);
        } else {
          HighBitsClear(a[i], BITS_PER_BLOCK, k);
          HighBitsClear(b[i], BITS_PER_BLOCK, k);
        }
      }
      SameBits(a[i], b[i]);
    }
  }

  /** Blocks differ at most in bit `i`. */
  lemma EditBlock(blocks: seq<nat>, i: nat, word: nat, j: nat)
    requires i / BITS_PER_BLOCK < |blocks|
    requires forall k: nat | k != i % BITS_PER_BLOCK :: Bit(word, k) <==> Bit(blocks[i / BITS_PER_BLOCK], k)
    ensures j != i ==> (Member(blocks[i / BITS_PER_BLOCK := word], j) <==> Member(blocks, j))
  {
    if j != i && j / BITS_PER_BLOCK == i / BITS_PER_BLOCK {
      assert j % BITS_PER_BLOCK != i % BITS_PER_BLOCK;
    }
  }

  lemma MaskTest(w: nat, k: nat)
    ensures And(w, Pow2(k)) != 0 <==> Bit(w, k)
  {
    var masked := And(w, Pow2(k));
    if masked == 0 {
      BitZero(k);
      BitAnd(w, Pow2(k), k);
      BitPow2(k, k);
    } else {
      var i := TrailingZeros(masked);
      LowestBit(masked);
      BitAnd(w, Pow2(k), i);
      BitPow2(k, i);
    }
  }

  /** Setting bit `i` of a block sequence. */
  lemma SetBitKeeps(blocks: seq<nat>, numBits: nat, i: nat)
    requires BlocksOk(blocks, numBits) && i < numBits
    ensures i / BITS_PER_BLOCK < |blocks|
    ensures var blocks' := blocks[i / BITS_PER_BLOCK := Or(blocks[i / BITS_PER_BLOCK], Pow2(i % BITS_PER_BLOCK))];
            BlocksOk(blocks', numBits) && forall j: nat :: Member(blocks', j) <==> Member(blocks, j) || j == i
  {
    var b, k := i / BITS_PER_BLOCK, i % BITS_PER_BLOCK;
    var word := Or(blocks[b], Pow2(k));
    Pow2Monotone(k, BITS_PER_BLOCK);
    Width(blocks[b], Pow2(k), BITS_PER_BLOCK);
    forall l: nat ensures Bit(word, l) <==> Bit(blocks[b], l) || l == k {
      BitOr(blocks[b], Pow2(k), l);
      BitPow2(k, l);
    }
    var blocks' := blocks[b := word];
    forall j: nat ensures Member(blocks', j) <==> Member(blocks, j) || j == i {
      EditBlock(blocks, i, word, j);
    }
    forall j: nat | Member(blocks', j) ensures j < numBits {
      assert Member(blocks, j) || j == i;
    }
  }

  lemma ClearBitKeeps(blocks: seq<nat>, numBits: nat, i: nat)
    requires BlocksOk(blocks, numBits) && i < numBits
    ensures i / BITS_PER_BLOCK < |blocks|
    ensures var blocks' := blocks[i / BITS_PER_BLOCK := AndNot(blocks[i / BITS_PER_BLOCK], Pow2(i % BITS_PER_BLOCK))];
            BlocksOk(blocks', numBits) && forall j: nat :: Member(blocks', j) <==> Member(blocks, j) && j != i
  {
    var b, k := i / BITS_PER_BLOCK, i % BITS_PER_BLOCK;
    var word := AndNot(blocks[b], Pow2(k));
    Pow2Monotone(k, BITS_PER_BLOCK);
    Width(blocks[b], Pow2(k), BITS_PER_BLOCK);
    forall l: nat ensures Bit(word, l) <==> Bit(blocks[b], l) && l != k {
      BitAndNot(blocks[b], Pow2(k), l);
      BitPow2(k, l);
    }
    var blocks' := blocks[b := word];
    forall j: nat ensures Member(blocks', j) <==> Member(blocks, j) && j != i {
      EditBlock(blocks, i, word, j);
    }
    forall j: nat | Member(blocks', j) ensures j < numBits {
      assert Member(blocks, j);
    }
  }

  ghost predicate Ascending(s: seq<nat>) {
    forall i, j | 0 <= i < j < |s| :: s[i] < s[j]
  }

  class BitSet {
    var blocks: seq<nat>
    const numBits: nat

    ghost predicate Valid()
      reads this
    {
      BlocksOk(blocks, numBits)
    }

    ghost predicate Has(i: nat)
      reads this
    {
      Member(blocks, i)
    }

    constructor (numBits: nat)
      ensures Valid() && this.numBits == numBits && forall i: nat :: !Has(i)
    {
      this.numBits := numBits;
      blocks := seq(numBits / BITS_PER_BLOCK + (if numBits % BITS_PER_BLOCK != 0 then 1 else 0), _ => 0);
      new;
      Pow2Monotone(0, BITS_PER_BLOCK);
      forall i: nat ensures !Member(blocks, i) {
        BitZero(i % BITS_PER_BLOCK);
      }
    }

    /** Whether the bit was newly set. */
    method Set(i: nat) returns (added: bool)
      requires Valid() && i < numBits
      modifies this
      ensures Valid() && added == !old(Has(i)) && forall j: nat :: Has(j) <==> old(Has(j)) || j == i
    {
      SetBitKeeps(blocks, numBits, i);
      var block := blocks[i / BITS_PER_BLOCK];
      var singleBitMask := Pow2(i % BITS_PER_BLOCK);
      MaskTest(block, i % BITS_PER_BLOCK);
      if And(block, singleBitMask) != 0 {
        return false;
      }
      blocks := blocks[i / BITS_PER_BLOCK := Or(block, singleBitMask)];
      added := true;
    }

    method Clear(i: nat)
      requires Valid() && i < numBits
      modifies this
      ensures Valid() && forall j: nat :: Has(j) <==> old(Has(j)) && j != i
    {
      ClearBitKeeps(blocks, numBits, i);
      blocks := blocks[i / BITS_PER_BLOCK := AndNot(blocks[i / BITS_PER_BLOCK], Pow2(i % BITS_PER_BLOCK))];
    }

    method IsSet(i: nat) returns (r: bool)
      requires Valid() && i < numBits
      ensures r == Has(i)
    {
      MaskTest(blocks[i / BITS_PER_BLOCK], i % BITS_PER_BLOCK);
      r := And(blocks[i / BITS_PER_BLOCK], Pow2(i % BITS_PER_BLOCK)) != 0;
    }

    method MergeFrom(other: BitSet)
      requires Valid() && other.Valid() && numBits == other.numBits
      modifies this
      ensures Valid() && forall j: nat :: Has(j) <==> old(Has(j)) || old(other.Has(j))
    {
      ghost var before, theirs := blocks, other.blocks;
      for b := 0 to |blocks|
        invariant |blocks| == |before| && (other != this ==> other.blocks == theirs)
        invariant forall c | 0 <= c < |blocks| :: blocks[c] == if c < b then Or(before[c], theirs[c]) else before[c]
      {
        blocks := blocks[b := Or(blocks[b], other.blocks[b])];
      }
      forall b | 0 <= b < |blocks| ensures blocks[b] < Pow2(BITS_PER_BLOCK) {
        Width(before[b], theirs[b], BITS_PER_BLOCK);
      }
      forall j: nat ensures Member(blocks, j) <==> Member(before, j) || Member(theirs, j) {
        var b := j / BITS_PER_BLOCK;
        if b < |blocks| { BitOr(before[b], theirs[b], j % BITS_PER_BLOCK); }
      }
    }

    /** The indices handed to the callback: every set bit, once, in ascending
        order, found by repeatedly clearing the lowest bit of a block. */
    method ForEachSetBit() returns (visited: seq<nat>)
      requires Valid()
      ensures Ascending(visited) && forall i: nat :: i in visited <==> Has(i)
    {
      visited := [];
      var baseIndex := 0;
      for b := 0 to |blocks|
        invariant baseIndex == b * BITS_PER_BLOCK && Ascending(visited)
        invariant forall i: nat :: i in visited <==> i < baseIndex && Has(i)
      {
        var inBlock := VisitBlock(blocks[b], baseIndex);
        JoinBlock(visited, inBlock, blocks, b);
        visited := visited + inBlock;
        baseIndex := baseIndex + BITS_PER_BLOCK;
      }
    }
  }

  /** One block's inner loop. */
  method VisitBlock(word: nat, baseIndex: nat) returns (visited: seq<nat>)
    ensures Ascending(visited)
    ensures forall i: nat :: i in visited <==> i >= baseIndex && Bit(word, i - baseIndex)
  {
    var block := word;
    visited := [];
    while block != 0
      invariant Ascending(visited)
      invariant forall i: nat :: i in visited <==> i >= baseIndex && Bit(word, i - baseIndex) && !Bit(block, i - baseIndex)
      invariant forall k: nat | Bit(block, k) :: Bit(word, k) && forall i | i in visited :: i < baseIndex + k
      decreases block
    {
      var k := TrailingZeros(block);
      LowestBit(block);
      var rest := And(block, block - 1);
      AndSmaller(block, block - 1);
      forall l: nat ensures Bit(rest, l) <==> Bit(block, l) && l != k {
        ClearLowest(block, l);
      }
      forall i | 0 <= i < |visited| ensures visited[i] < baseIndex + k {
        assert visited[i] in visited;
      }
      visited := visited + [baseIndex + k];
      block := rest;
    }
    forall k: nat ensures !Bit(block, k) { BitZero(k); }
  }

  lemma JoinBlock(visited: seq<nat>, inBlock: seq<nat>, blocks: seq<nat>, b: nat)
    requires b < |blocks| && blocks[b] < Pow2(BITS_PER_BLOCK) && Ascending(visited) && Ascending(inBlock)
    requires forall i: nat :: i in visited <==> i < b * BITS_PER_BLOCK && Member(blocks, i)
    requires forall i: nat :: i in inBlock <==> i >= b * BITS_PER_BLOCK && Bit(blocks[b], i - b * BITS_PER_BLOCK)
    ensures Ascending(visited + inBlock)
    ensures forall i: nat :: i in visited + inBlock <==> i < (b + 1) * BITS_PER_BLOCK && Member(blocks, i)
  {
    forall i, j | 0 <= i < |visited| && 0 <= j < |inBlock| ensures visited[i] < inBlock[j] {
      assert visited[i] in visited && inBlock[j] in inBlock;
    }
    forall i: nat ensures i in inBlock <==> b * BITS_PER_BLOCK <= i < (b + 1) * BITS_PER_BLOCK && Member(blocks, i) {
      if i >= b * BITS_PER_BLOCK {
        if i < (b + 1) * BITS_PER_BLOCK {
          assert i / BITS_PER_BLOCK == b && i % BITS_PER_BLOCK == i - b * BITS_PER_BLOCK;
        } else {
          HighBitsClear(blocks[b], BITS_PER_BLOCK, i - b * BITS_PER_BLOCK);
        }
      }
    }
  }
}
