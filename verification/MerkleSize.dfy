/** How many bits and hashes a partial merkle tree stores. */
module MerkleSize {
  import opened Numbers
  import opened MerkleTree

  /** Matched transactions in a range. */
  ghost function Count(match1: seq<bool>, lo: nat, hi: nat): nat
    requires lo <= hi <= |match1|
  {
    if lo == hi then 0 else Count(match1, lo, hi - 1) + if match1[hi - 1] then 1 else 0
  }

  lemma {:induction false} CountSplit(match1: seq<bool>, lo: nat, mid: nat, hi: nat)
    requires lo <= mid <= hi <= |match1|
    ensures Count(match1, lo, hi) == Count(match1, lo, mid) + Count(match1, mid, hi)
  {
    if mid < hi {
      CountSplit(match1, lo, mid, hi - 1);
    }
  }

  lemma {:induction false} CountAny(match1: seq<bool>, lo: nat, hi: nat)
    requires lo <= hi <= |match1|
    ensures Count(match1, lo, hi) > 0 <==> Any(match1, lo, hi)
  {
    if lo < hi {
      CountAny(match1, lo, hi - 1);
      if match1[hi - 1] {
        assert Any(match1, lo, hi);
      } else if Any(match1, lo, hi) {
        var i :| lo <= i < hi && match1[i];
        assert Any(match1, lo, hi - 1);
      }
    }
  }

  /** Nodes that are descended into and have one child. */
  ghost function Singles(match1: seq<bool>, h: nat, p: nat): nat
    requires p < Width(|match1|, h)
    decreases h
  {
    if h == 0 || !Any(match1, First(h, p), End(|match1|, h, p)) then 0
    else
      LeftExists(|match1|, h, p);
      Singles(match1, h - 1, 2 * p) +
      if 2 * p + 1 < Width(|match1|, h - 1) then Singles(match1, h - 1, 2 * p + 1) else 1
  }

  /** One bit per node visited: two for each hash but one, and one more for each node with a
      single child. */
  lemma {:induction false} BitCount(combine: Combine, txids: seq<Hash>, match1: seq<bool>, h: nat, p: nat)
    requires |match1| == |txids| && p < Width(|txids|, h)
    ensures var q := Stored(combine, txids, match1, h, p);
            |q.bits| == 2 * |q.hashes| - 1 + Singles(match1, h, p) && |q.hashes| >= 1
    decreases h
  {
    hide Any, CalcHash, Width, First, End;
    if h > 0 && Any(match1, First(h, p), End(|txids|, h, p)) {
      LeftExists(|txids|, h, p);
      BitCount(combine, txids, match1, h - 1, 2 * p);
      if 2 * p + 1 < Width(|txids|, h - 1) {
        BitCount(combine, txids, match1, h - 1, 2 * p + 1);
      }
    }
  }

  /** N <= total_transactions: at most one hash for each transaction. */
  lemma {:induction false} HashCount(combine: Combine, txids: seq<Hash>, match1: seq<bool>, h: nat, p: nat)
    requires |match1| == |txids| && p < Width(|txids|, h)
    ensures |Stored(combine, txids, match1, h, p).hashes| <= End(|txids|, h, p) - First(h, p)
    decreases h
  {
    hide Any, CalcHash, Width, First, End;
    FirstInside(|txids|, h, p);
    if h > 0 && Any(match1, First(h, p), End(|txids|, h, p)) {
      Cover(|txids|, h, p);
      HashCount(combine, txids, match1, h - 1, 2 * p);
      if 2 * p + 1 < Width(|txids|, h - 1) {
        HashCount(combine, txids, match1, h - 1, 2 * p + 1);
      }
    }
  }

  /** N <= 1 + matched_transactions * tree_height. */
  lemma {:induction false} HashBound(combine: Combine, txids: seq<Hash>, match1: seq<bool>, h: nat, p: nat)
    requires |match1| == |txids| && p < Width(|txids|, h)
    ensures First(h, p) <= End(|txids|, h, p) <= |match1|
    ensures |Stored(combine, txids, match1, h, p).hashes| <= 1 + Count(match1, First(h, p), End(|txids|, h, p)) * h
    decreases h
  {
    var n := |txids|;
    hide Any, CalcHash, Width, First, End, Count;
    FirstInside(n, h, p);
    var lo, hi := First(h, p), End(n, h, p);
    if h > 0 && Any(match1, lo, hi) {
      Cover(n, h, p);
      CountAny(match1, lo, hi);
      HashBound(combine, txids, match1, h - 1, 2 * p);
      if 2 * p + 1 < Width(n, h - 1) {
        var mid := First(h - 1, 2 * p + 1);
        HashBound(combine, txids, match1, h - 1, 2 * p + 1);
        CountSplit(match1, lo, mid, hi);
        Rearrange(Count(match1, lo, mid), Count(match1, mid, hi), h);
      } else {
        Rearrange(Count(match1, lo, hi), 0, h);
      }
    }
  }

  lemma {:induction false} Rearrange(a: nat, b: nat, h: nat)
    requires h > 0 && a + b > 0
    ensures 1 + a * (h - 1) + 1 + b * (h - 1) <= 1 + (a + b) * h
  {
    assert (a + b) * h == a * (h - 1) + b * (h - 1) + (a + b);
  }

  // --------------------------------------------------------------- the encoded size

  /** Bytes of a compact size. */
  function CompactSize(x: nat): nat {
    if x < 253 then 1 else if x <= 0xFFFF then 3 else if x <= 0xFFFF_FFFF then 5 else 9
  }

  /** Bytes of the serialized tree. */
  function EncodedSize(part: Part): nat {
    var bytes := (|part.bits| + 7) / 8;
    4 + CompactSize(|part.hashes|) + 32 * |part.hashes| + CompactSize(bytes) + bytes
  }

  /** 10 + ceil(32.25 * n) */
  function Promised(n: nat): nat {
    10 + (129 * n + 3) / 4
  }

  /** The number of hashes stored for a node, from the mask alone. */
  ghost function Hashes(match1: seq<bool>, h: nat, p: nat): nat
    requires p < Width(|match1|, h)
    decreases h
  {
    if h == 0 || !Any(match1, First(h, p), End(|match1|, h, p)) then 1
    else
      LeftExists(|match1|, h, p);
      Hashes(match1, h - 1, 2 * p) +
      if 2 * p + 1 < Width(|match1|, h - 1) then Hashes(match1, h - 1, 2 * p + 1) else 0
  }

  lemma {:induction false} HashesStored(combine: Combine, txids: seq<Hash>, match1: seq<bool>, h: nat, p: nat)
    requires |match1| == |txids| && p < Width(|txids|, h)
    ensures |Stored(combine, txids, match1, h, p).hashes| == Hashes(match1, h, p)
    decreases h
  {
    hide Any, CalcHash, Width, First, End;
    if h > 0 && Any(match1, First(h, p), End(|txids|, h, p)) {
      LeftExists(|txids|, h, p);
      HashesStored(combine, txids, match1, h - 1, 2 * p);
      if 2 * p + 1 < Width(|txids|, h - 1) {
        HashesStored(combine, txids, match1, h - 1, 2 * p + 1);
      }
    }
  }

  /** Below a node with all its transactions no node has a single child. */
  lemma {:induction false} FullSingles(match1: seq<bool>, h: nat, p: nat)
    requires p < Width(|match1|, h) && First(h, p + 1) <= |match1|
    ensures Singles(match1, h, p) == 0
    decreases h
  {
    if h > 0 {
      FirstChildren(h, p);
      Cover(|match1|, h, p);
      NodeExists(|match1|, h - 1, 2 * p + 1);
      hide Any, Width, First, End;
      FullSingles(match1, h - 1, 2 * p);
      FullSingles(match1, h - 1, 2 * p + 1);
    }
  }

  /** On each level at most one node has a single child. */
  lemma {:induction false} SinglesBound(match1: seq<bool>, h: nat, p: nat)
    requires p < Width(|match1|, h)
    ensures Singles(match1, h, p) <= h
    decreases h
  {
    if h > 0 {
      Cover(|match1|, h, p);
      SinglesBound(match1, h - 1, 2 * p);
      if 2 * p + 1 < Width(|match1|, h - 1) {
        NodeExists(|match1|, h - 1, 2 * p + 1);
        FullSingles(match1, h - 1, 2 * p);
        SinglesBound(match1, h - 1, 2 * p + 1);
      }
    }
  }

  /** No tree that is accepted is higher than 16. */
  lemma {:induction false} HeightBound(n: nat, h: nat)
    requires 0 < n <= MAX_BLOCK_SIZE / 60 && IsHeight(n, h)
    ensures h <= 16 && Width(n, h) == 1
  {
    var top := 16;
    Pow15();
    NodeExists(n, h, 0);
    NodeExists(n, top, 1);
    assert First(top, 1) == Exp2(top) == 2 * Exp2(top - 1);
    assert First(h, 0) == 0;
  }

  /** The promised size against what is stored, in numbers. */
  lemma {:induction false} SizeNumbers(q: Part, n: nat, s: nat)
    requires 1 <= |q.hashes| == n <= 0xFFFF && |q.bits| == 2 * n - 1 + s && s <= 16
    ensures EncodedSize(q) <= Promised(n) <==> |q.bits| <= 2016 || s <= 1 + 8 * ((n + 3) / 4) - 2 * n
  {
  }

  /** When the promised size is kept, from the mask alone. The flag bits are as many as the nodes
      visited. Up to 2016 of them the promise is kept; beyond, there is room for one single child,
      and for two more for each hash that is missing to a multiple of four. */
  lemma {:induction false} SizeExact(combine: Combine, txids: seq<Hash>, match1: seq<bool>, h: nat)
    requires |match1| == |txids| && 0 < |txids| <= MAX_BLOCK_SIZE / 60 && IsHeight(|txids|, h)
    ensures 0 < Width(|txids|, h)
    ensures var q := Stored(combine, txids, match1, h, 0);
            var n, s := Hashes(match1, h, 0), Singles(match1, h, 0);
            EncodedSize(q) <= Promised(|q.hashes|) <==> 2 * n - 1 + s <= 2016 || s <= 1 + 8 * ((n + 3) / 4) - 2 * n
  {
    hide IsHeight, Width, Stored, Hashes, Singles, EncodedSize, Promised, First, End;
    HeightBound(|txids|, h);
    BitCount(combine, txids, match1, h, 0);
    HashesStored(combine, txids, match1, h, 0);
    HashCount(combine, txids, match1, h, 0);
    SinglesBound(match1, h, 0);
    FirstInside(|txids|, h, 0);
    SizeNumbers(Stored(combine, txids, match1, h, 0), Hashes(match1, h, 0), Singles(match1, h, 0));
  }

  /** So with at most one node that has a single child it is kept. */
  lemma {:induction false} SizeKept(combine: Combine, txids: seq<Hash>, match1: seq<bool>, h: nat)
    requires |match1| == |txids| && 0 < Width(|txids|, h) && |txids| <= 0xFFFF && Singles(match1, h, 0) <= 1
    ensures var q := Stored(combine, txids, match1, h, 0); EncodedSize(q) <= Promised(|q.hashes|)
  {
    hide Width, Stored, Singles, EncodedSize, Promised, First, End;
    BitCount(combine, txids, match1, h, 0);
    HashCount(combine, txids, match1, h, 0);
    FirstInside(|txids|, h, 0);
    var q := Stored(combine, txids, match1, h, 0);
    SizeNumbers(q, |q.hashes|, Singles(match1, h, 0));
  }

  /** The flag bits are at most 2 * N - 1 exactly if no node visited has a single child. */
  lemma {:induction false} BitsExact(combine: Combine, txids: seq<Hash>, match1: seq<bool>, h: nat, p: nat)
    requires |match1| == |txids| && p < Width(|txids|, h)
    ensures var q := Stored(combine, txids, match1, h, p);
      |q.bits| <= 2 * |q.hashes| - 1 <==> Singles(match1, h, p) == 0
  {
    hide Stored, Singles, Width;
    BitCount(combine, txids, match1, h, p);
  }

  ghost predicate AllTrue(match1: seq<bool>) {
    forall i :: 0 <= i < |match1| ==> match1[i]
  }

  lemma {:induction false} AnyTrue(match1: seq<bool>, h: nat, p: nat)
    requires AllTrue(match1) && p < Width(|match1|, h)
    ensures Any(match1, First(h, p), End(|match1|, h, p))
  {
    FirstInside(|match1|, h, p);
    assert match1[First(h, p)];
  }

  lemma {:induction false} OneLeaf(n: nat, h: nat, p: nat)
    requires h == 0 && p < Width(n, h)
    ensures End(n, h, p) - First(h, p) == 1
  {
  }

  lemma {:induction false} AllHashes(combine: Combine, txids: seq<Hash>, match1: seq<bool>, h: nat, p: nat)
    requires |match1| == |txids| && p < Width(|txids|, h) && AllTrue(match1)
    ensures |Stored(combine, txids, match1, h, p).hashes| == End(|txids|, h, p) - First(h, p)
    decreases h
  {
    hide Any, CalcHash, Width, First, End, Stored;
    AnyTrue(match1, h, p);
    FirstInside(|txids|, h, p);
    if h == 0 {
      StoredEnd(combine, txids, match1, h, p);
      assert End(|txids|, h, p) - First(h, p) == 1 by { OneLeaf(|txids|, h, p); }
    } else {
      Cover(|txids|, h, p);
      StoredInner(combine, txids, match1, h, p);
      AllHashes(combine, txids, match1, h - 1, 2 * p);
      if 2 * p + 1 < Width(|txids|, h - 1) {
        AllHashes(combine, txids, match1, h - 1, 2 * p + 1);
      }
    }
  }

  /** A subtree over one transaction is a chain of nodes with a single child. */
  lemma {:induction false} ChainSingles(match1: seq<bool>, h: nat, p: nat)
    requires AllTrue(match1) && p < Width(|match1|, h) && First(h, p) + 1 == |match1|
    ensures Singles(match1, h, p) == h
    decreases h
  {
    if h > 0 {
      AnyTrue(match1, h, p);
      FirstChildren(h, p);
      Cover(|match1|, h, p);
      NodeExists(|match1|, h - 1, 2 * p + 1);
      hide Any, Width, First, End;
      ChainSingles(match1, h - 1, 2 * p);
    }
  }

  lemma {:induction false} Pow15()
    ensures Exp2(15) == 32768
  {
    assert Exp2(5) == 32;
    assert Exp2(10) == 1024 by { assert Exp2(7) == 128; }
  }

  lemma {:induction false} Spine(h: nat)
    requires h == 16
    ensures Width(32769, h) == 1 && Width(32769, h - 1) == 2
    ensures First(h - 1, 0) == 0 && First(h - 1, 1) == 32768 && First(h, 0) == 0 && First(h, 1) == 65536
  {
    Pow15();
    assert Exp2(h) == 2 * Exp2(h - 1);
    hide Exp2;
  }

  /** The promise is broken by a block of 2^15 + 1 transactions, all matched: one byte too many. */
  lemma {:induction false} PromiseBroken(combine: Combine, txids: seq<Hash>, match1: seq<bool>, h: nat)
    requires |match1| == |txids| == 32769 && AllTrue(match1) && h == 16
    ensures Width(|txids|, h) == 1
    ensures var q := Stored(combine, txids, match1, h, 0); EncodedSize(q) == Promised(|q.hashes|) + 1
  {
    hide Exp2, Stored, First, Width, Any, AllTrue, Singles;
    Spine(h);
    FullSingles(match1, h - 1, 0);
    ChainSingles(match1, h - 1, 1);
    SinglesTwo(match1, h, 0);
    AllHashes(combine, txids, match1, h, 0);
    BitCount(combine, txids, match1, h, 0);
  }

  lemma {:induction false} SinglesTwo(match1: seq<bool>, h: nat, p: nat)
    requires AllTrue(match1) && h > 0 && p < Width(|match1|, h) && 2 * p + 1 < Width(|match1|, h - 1)
    ensures Singles(match1, h, p) == Singles(match1, h - 1, 2 * p) + Singles(match1, h - 1, 2 * p + 1)
  {
    AnyTrue(match1, h, p);
    hide Any, Width, First, End;
  }

  lemma {:induction false} StoredEnd(combine: Combine, txids: seq<Hash>, match1: seq<bool>, h: nat, p: nat)
    requires |match1| == |txids| && p < Width(|txids|, h) && (h == 0 || !Any(match1, First(h, p), End(|txids|, h, p)))
    ensures var q := Stored(combine, txids, match1, h, p); |q.bits| == 1 && |q.hashes| == 1
  {
  }

  lemma {:induction false} ThreeLeaves(h: nat)
    requires h == 2
    ensures Width(3, h) == 1 && Width(3, h - 1) == 2 && Width(3, h - 2) == 3
    ensures First(h, 0) == 0 && First(h - 1, 0) == 0 && First(h - 1, 1) == 2
    ensures End(3, h, 0) == 3 && End(3, h - 1, 0) == 2 && End(3, h - 1, 1) == 3
  {
    assert Exp2(h - 2) == 1 && Exp2(h - 1) == 2 && Exp2(h) == 4;
  }

  lemma {:induction false} LastMatched()
    ensures var m := [false, false, true]; Any(m, 0, 3) && !Any(m, 0, 2) && Any(m, 2, 3)
  {
    assert [false, false, true][2];
  }

  /** The flag bits can exceed 2 * N - 1: three transactions, the last one matched, give 2 hashes
      and 4 bits. */
  lemma {:induction false} MoreBits(combine: Combine, txids: seq<Hash>, h: nat)
    requires |txids| == 3 && h == 2
    ensures Width(3, h) == 1
    ensures var q := Stored(combine, txids, [false, false, true], h, 0); |q.hashes| == 2 && |q.bits| == 4
  {
    hide Stored, Exp2, Width, First, End, Any, CalcHash;
    var m := [false, false, true];
    ThreeLeaves(h);
    LastMatched();
    StoredInner(combine, txids, m, h, 0);
    StoredEnd(combine, txids, m, h - 1, 0);
    StoredInner(combine, txids, m, h - 1, 1);
    StoredEnd(combine, txids, m, h - 2, 2);
  }
}
