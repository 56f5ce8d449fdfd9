/** Why extraction refuses equal siblings: a list whose last transaction is repeated has the same
    merkle root, but its partial trees are not accepted. */
module MerkleTwins {
  import opened Numbers
  import opened MerkleTree
  import opened MerkleBlock

  /** The list with its last transaction repeated. */
  function Repeated(txids: seq<Hash>): seq<Hash>
    requires txids != []
  {
    txids + [txids[|txids| - 1]]
  }

  /** The roots of two and of three transactions. */
  lemma {:induction false} SmallTrees(combine: Combine, a: Hash, b: Hash, c: Hash)
    ensures Width(2, 1) == 1 && CalcHash(combine, [a, b], 1, 0) == combine(a, b)
    ensures Width(3, 1) == 2 && Width(3, 2) == 1
    ensures CalcHash(combine, [a, b, c], 2, 0) == combine(combine(a, b), combine(c, c))
  {
    hide Width;
    SmallWidths();
    assert CalcHash(combine, [a, b, c], 1, 0) == combine(a, b);
    assert CalcHash(combine, [a, b, c], 1, 1) == combine(c, c);
  }

  lemma {:induction false} SmallWidths()
    ensures Width(2, 0) == 2 && Width(2, 1) == 1 && Width(3, 0) == 3 && Width(3, 1) == 2 && Width(3, 2) == 1
  {
    hide Width;
    assert Exp2(0) == 1 && Exp2(1) == 2 && Exp2(2) == 4;
    WidthIs(2, 0, 1, 2);
    WidthIs(2, 1, 2, 1);
    WidthIs(3, 0, 1, 3);
    WidthIs(3, 1, 2, 2);
    WidthIs(3, 2, 4, 1);
  }

  lemma {:induction false} WidthIs(n: nat, h: nat, d: nat, w: nat)
    requires Exp2(h) == d && n <= w * d < n + d
    ensures Width(n, h) == w
  {
    hide Exp2;
    Division(n + d - 1, d, w, n + d - 1 - w * d);
  }

  lemma {:induction false} FirstEven(h: nat, p: nat)
    requires h >= 1
    ensures First(h, p) % 2 == 0
  {
    FirstChildren(h, p);
    var d := p * Exp2(h - 1);
    assert p * (2 * Exp2(h - 1)) == 2 * d;
  }

  /** Above the transactions, an odd number of them and one more have as many nodes. */
  lemma {:induction false} SameWidth(n: nat, h: nat)
    requires n % 2 == 1 && h >= 1
    ensures Width(n + 1, h) == Width(n, h)
  {
    hide Width, First;
    var a, b := Width(n, h), Width(n + 1, h);
    var p := if a < b then a else b;
    NodeExists(n, h, p);
    NodeExists(n + 1, h, p);
    FirstEven(h, p);
  }

  lemma {:induction false} LeafWidth(n: nat)
    ensures Width(n, 0) == n
  {
  }

  /** Repeating the last of an odd number of transactions changes no hash above them. */
  lemma {:induction false} RepeatedHash(combine: Combine, txids: seq<Hash>, h: nat, p: nat)
    requires |txids| % 2 == 1 && h >= 1 && p < Width(|txids|, h)
    ensures p < Width(|txids| + 1, h) && CalcHash(combine, Repeated(txids), h, p) == CalcHash(combine, txids, h, p)
  {
    hide Width;
    var n := |txids|;
    SameWidth(n, h);
    LeftExists(n, h, p);
    if h == 1 {
      LeafWidth(n);
      LeafWidth(n + 1);
    } else {
      SameWidth(n, h - 1);
      RepeatedHash(combine, txids, h - 1, 2 * p);
      if 2 * p + 1 < Width(n, h - 1) {
        RepeatedHash(combine, txids, h - 1, 2 * p + 1);
      }
    }
  }

  /** Twins below a node are twins below its parent. */
  lemma {:induction false} TwinsUp(combine: Combine, txids: seq<Hash>, match1: seq<bool>, h: nat, q: nat, right: nat)
    requires |match1| == |txids| && right <= 1 && 2 * q + right < Width(|txids|, h)
    requires Twins(combine, txids, match1, h, 2 * q + right)
    ensures q < Width(|txids|, h + 1) && Twins(combine, txids, match1, h + 1, q)
  {
    hide Width, CalcHash, First, End;
    var n := |txids|;
    ParentExists(n, h, q, right);
    Cover(n, h + 1, q);
    FirstChildren(h + 1, q);
    SomeMatch(combine, txids, match1, h, 2 * q + right);
    if 2 * q + 1 < Width(n, h) {
      FirstInside(n, h, 2 * q + 1);
    }
    AnyWider(match1, First(h, 2 * q + right), End(n, h, 2 * q + right), First(h + 1, q), End(n, h + 1, q));
    TwinsInner(combine, txids, match1, h + 1, q);
  }

  lemma {:induction false} AnyWider(match1: seq<bool>, lo: nat, hi: nat, low: nat, high: nat)
    requires low <= lo && hi <= high <= |match1| && Any(match1, lo, hi)
    ensures Any(match1, low, high)
  {
  }

  lemma {:induction false} SomeMatch(combine: Combine, txids: seq<Hash>, match1: seq<bool>, h: nat, p: nat)
    requires |match1| == |txids| && p < Width(|txids|, h) && Twins(combine, txids, match1, h, p)
    ensures Any(match1, First(h, p), End(|txids|, h, p))
  {
  }

  lemma {:induction false} ParentExists(n: nat, h: nat, q: nat, right: nat)
    requires right <= 1 && 2 * q + right < Width(n, h)
    ensures q < Width(n, h + 1) && 2 * q < Width(n, h)
  {
    hide Width, First;
    NodeExists(n, h, 2 * q);
    NodeExists(n, h + 1, q);
    FirstChildren(h + 1, q);
  }

  lemma {:induction false} TwinsAtRoot(combine: Combine, txids: seq<Hash>, match1: seq<bool>, h: nat, p: nat, top: nat)
    requires |match1| == |txids| && h <= top && p < Width(|txids|, h) && Twins(combine, txids, match1, h, p)
    requires Width(|txids|, top) == 1
    ensures Twins(combine, txids, match1, top, 0)
    decreases top - h
  {
    hide Width, Twins;
    if h < top {
      assert p == 2 * (p / 2) + p % 2;
      TwinsUp(combine, txids, match1, h, p / 2, p % 2);
      TwinsAtRoot(combine, txids, match1, h + 1, p / 2, top);
    }
  }

  lemma {:induction false} TwinLeaves(combine: Combine, txids: seq<Hash>, match1: seq<bool>)
    requires |txids| % 2 == 1 && |match1| == |txids| + 1 && (match1[|txids| - 1] || match1[|txids|])
    ensures |txids| / 2 < Width(|txids| + 1, 1) && Twins(combine, Repeated(txids), match1, 1, |txids| / 2)
  {
    hide Width;
    var n, p := |txids|, |txids| / 2;
    NodeExists(n + 1, 1, p);
    LeafWidth(n + 1);
    assert First(1, p) == 2 * p == n - 1 && End(n + 1, 1, p) == n + 1;
  }

  /** A list of three or more transactions, oddly many, and the one with the last repeated have one
      root; but a tree of the second that matches the repeated one is refused. */
  lemma {:induction false} RepetitionRefused(combine: Combine, txids: seq<Hash>, match1: seq<bool>, h: nat)
    requires |txids| % 2 == 1 && 3 <= |txids| < MAX_BLOCK_SIZE / 60 && IsHeight(|txids|, h)
    requires |match1| == |txids| + 1 && (match1[|txids| - 1] || match1[|txids|])
    ensures IsHeight(|txids| + 1, h) && 0 < Width(|txids|, h) && 0 < Width(|txids| + 1, h)
    ensures CalcHash(combine, Repeated(txids), h, 0) == CalcHash(combine, txids, h, 0)
    ensures var q := Stored(combine, Repeated(txids), match1, h, 0);
            Extracted(combine, |txids| + 1, Part(Padded(q.bits), q.hashes), false, h).0 == 0
  {
    hide Width, CalcHash, Extracted, Padded, Stored, Twins, Matched;
    var n := |txids|;
    LeafWidth(n);
    LeafWidth(n + 1);
    SameHeight(n, h);
    WholeTree(n, h);
    WholeTree(n + 1, h);
    RepeatedHash(combine, txids, h, 0);
    TwinLeaves(combine, txids, match1);
    TwinsAtRoot(combine, Repeated(txids), match1, 1, n / 2, h);
    RoundTripExactly(combine, Repeated(txids), match1, h);
  }

  lemma {:induction false} SameHeight(n: nat, h: nat)
    requires n % 2 == 1 && n >= 3 && IsHeight(n, h)
    ensures h >= 1 && IsHeight(n + 1, h)
  {
    hide Width;
    LeafWidth(n);
    LeafWidth(n + 1);
    SameWidth(n, h);
    var m := n + 1;
    forall g: nat | g < h
      ensures Width(m, g) > 1
    {
      if g > 0 {
        SameWidth(n, g);
      }
    }
  }
}
