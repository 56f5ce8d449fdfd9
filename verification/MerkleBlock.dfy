/** The partial merkle tree, src/merkleblock.cpp and src/merkleblock.h. */
module MerkleBlock {
  import opened Numbers
  import opened MerkleTree
  import opened MerkleSize


  lemma {:induction false} PowGrows(h: nat)
    ensures Exp2(h) > h
  {
    if h > 0 {
      PowGrows(h - 1);
    }
  }

  lemma {:induction false} WidthEnds(n: nat, h: nat)
    requires h >= n
    ensures Width(n, h) <= 1
  {
    PowGrows(h);
    NodeExists(n, h, 1);
    assert First(h, 1) == Exp2(h);
  }

  // -------------------------------------------------------------------- flag bits

  function Mask(k: nat): bv8
    requires k < 8
  {
    1 << k
  }

  function BitAt(bytes: seq<bv8>, p: nat): bool
    requires p < 8 * |bytes|
  {
    bytes[p / 8] & Mask(p % 8) != 0
  }

  lemma {:induction false} MaskOr(x: bv8, k: nat, m: nat)
    requires k < 8 && m < 8
    ensures (x | Mask(k)) & Mask(m) != 0 <==> k == m || x & Mask(m) != 0
  {
    MaskValue(k);
    MaskValue(m);
    hide Mask;
  }

  lemma {:induction false} MaskValue(k: nat)
    requires k < 8
    ensures Mask(k) == if k == 0 then 1 else if k == 1 then 2 else if k == 2 then 4 else if k == 3 then 8
                       else if k == 4 then 16 else if k == 5 then 32 else if k == 6 then 64 else 128
  {
  }

  /** Flag bits are taken from the least significant bit of a byte on. */
  lemma {:induction false} LowestFirst(x: bv8)
    ensures BitAt([x], 0) <==> x % 2 == 1
    ensures BitAt([x], 1) <==> x / 2 % 2 == 1
    ensures BitAt([x], 6) <==> x / 64 % 2 == 1
    ensures BitAt([x], 7) <==> x / 128 == 1
  {
    MaskValue(0);
    MaskValue(1);
    MaskValue(6);
    MaskValue(7);
  }

  /** The writing half of SerializationOp: bits packed eight to a byte, least significant first. */
  method Pack(bits: seq<bool>) returns (bytes: seq<bv8>)
    ensures |bytes| == (|bits| + 7) / 8
    ensures forall p :: 0 <= p < 8 * |bytes| ==> (BitAt(bytes, p) <==> p < |bits| && bits[p])
  {
    hide Mask;
    var a := new bv8[(|bits| + 7) / 8](_ => 0);
    AllClear(a[..]);
    for p := 0 to |bits|
      invariant PackedTo(a[..], bits, p)
    {
      PackStep(a[..], bits, p);
      if bits[p] {
        a[p / 8] := a[p / 8] | Mask(p % 8);
      }
    }
    bytes := a[..];
  }

  ghost predicate PackedTo(bytes: seq<bv8>, bits: seq<bool>, n: nat) {
    |bytes| == (|bits| + 7) / 8 && forall p :: 0 <= p < 8 * |bytes| ==>
      (BitAt(bytes, p) <==> p < |bits| && p < n && bits[p])
  }

  lemma {:induction false} AllClear(bytes: seq<bv8>)
    requires forall i :: 0 <= i < |bytes| ==> bytes[i] == 0
    ensures forall p :: 0 <= p < 8 * |bytes| ==> !BitAt(bytes, p)
  {
    hide Mask;
  }

  lemma {:induction false} PackStep(bytes: seq<bv8>, bits: seq<bool>, n: nat)
    requires PackedTo(bytes, bits, n) && n < |bits|
    ensures PackedTo(if bits[n] then bytes[n / 8 := bytes[n / 8] | Mask(n % 8)] else bytes, bits, n + 1)
  {
    hide Mask;
    if bits[n] {
      var after := bytes[n / 8 := bytes[n / 8] | Mask(n % 8)];
      forall p | 0 <= p < 8 * |bytes|
        ensures BitAt(after, p) <==> p < |bits| && p < n + 1 && bits[p]
      {
        assert BitAt(bytes, p) <==> p < |bits| && p < n && bits[p];
        if p / 8 == n / 8 {
          MaskOr(bytes[n / 8], n % 8, p % 8);
        }
      }
    } else {
      forall p | 0 <= p < 8 * |bytes|
        ensures BitAt(bytes, p) <==> p < |bits| && p < n + 1 && bits[p]
      {
        assert BitAt(bytes, p) <==> p < |bits| && p < n && bits[p];
      }
    }
  }

  /** The reading half. */
  method Unpack(bytes: seq<bv8>) returns (bits: seq<bool>)
    ensures |bits| == 8 * |bytes|
    ensures forall p :: 0 <= p < |bits| ==> (bits[p] <==> BitAt(bytes, p))
  {
    bits := [];
    for p := 0 to 8 * |bytes|
      invariant |bits| == p
      invariant forall q :: 0 <= q < p ==> (bits[q] <==> BitAt(bytes, q))
    {
      bits := bits + [BitAt(bytes, p)];
    }
  }

  /** The bits after a trip over the wire: padded to whole bytes. */
  ghost function Padded(bits: seq<bool>): (r: seq<bool>)
    ensures |r| == (|bits| + 7) / 8 * 8
  {
    bits + seq((|bits| + 7) / 8 * 8 - |bits|, _ => false)
  }

  /** Packing and unpacking gives the bits back, padded to whole bytes. */
  method OverTheWire(bits: seq<bool>) returns (r: seq<bool>)
    ensures r == Padded(bits)
  {
    var bytes := Pack(bits);
    r := Unpack(bytes);
    assert forall p :: 0 <= p < |r| ==> r[p] == Padded(bits)[p];
  }

  // ----------------------------------------------------------------------- the tree

  /** What ExtractMatches returns: the null hash on every failure. */
  ghost function Extracted(combine: Combine, n: nat, part: Part, bad: bool, h: nat): (r: (Hash, seq<Hash>)) {
    if n == 0 || n > MAX_BLOCK_SIZE / 60 || |part.hashes| > n || |part.bits| < |part.hashes| then (0, [])
    else
      var out := Extract(combine, n, part, h, 0, 0, 0);
      if bad || out.bad || (out.bits + 7) / 8 != (|part.bits| + 7) / 8 ||
        out.hashes != |part.hashes| then (0, out.matches)
      else (out.hash, out.matches)
  }

  /** CPartialMerkleTree */
  class PartialMerkleTree {
    const combine: Combine
    var nTransactions: nat
    var vBits: seq<bool>
    var vHash: seq<Hash>
    var fBad: bool

    /** The loop over the heights. */
    method TreeHeight() returns (h: nat)
      ensures IsHeight(nTransactions, h)
    {
      hide Width;
      h := 0;
      WidthEnds(nTransactions, nTransactions);
      while Width(nTransactions, h) > 1
        invariant h <= nTransactions
        invariant forall g: nat :: g < h ==> Width(nTransactions, g) > 1
        decreases nTransactions - h
      {
        h := h + 1;
      }
    }

    /** The tree stores exactly the part of the merkle tree the matches call for. */
    constructor (c: Combine, txids: seq<Hash>, match1: seq<bool>)
      requires |txids| == |match1| > 0
      ensures combine == c && nTransactions == |txids| && !fBad
      ensures forall h :: IsHeight(|txids|, h) ==>
        0 < Width(|txids|, h) && Part(vBits, vHash) == Stored(c, txids, match1, h, 0)
    {
      combine, nTransactions, fBad := c, |txids|, false;
      vBits, vHash := [], [];
      new;
      var h := TreeHeight();
      NodeExists(|txids|, h, 0);
      TraverseAndBuild(h, 0, txids, match1);
      forall g | IsHeight(|txids|, g)
        ensures g == h
      {
        OneHeight(|txids|, g, h);
      }
    }

    /** TraverseAndBuild */
    method TraverseAndBuild(h: nat, pos: nat, txids: seq<Hash>, match1: seq<bool>)
      requires |txids| == |match1| == nTransactions && pos < Width(nTransactions, h)
      modifies this`vBits, this`vHash
      ensures vBits == old(vBits) + Stored(combine, txids, match1, h, pos).bits
      ensures vHash == old(vHash) + Stored(combine, txids, match1, h, pos).hashes
      decreases h
    {
      hide CalcHash, Width, First, End, Stored;
      FirstInside(nTransactions, h, pos);
      var fParentOfMatch := false;
      var p := First(h, pos);
      assert !Any(match1, First(h, pos), p);
      while p < First(h, pos + 1) && p < nTransactions
        invariant First(h, pos) <= p <= End(nTransactions, h, pos)
        invariant fParentOfMatch <==> Any(match1, First(h, pos), p)
        modifies {}
      {
        AnyNext(match1, First(h, pos), p);
        EndBeyond(nTransactions, h, pos, p);
        fParentOfMatch := fParentOfMatch || match1[p];
        p := p + 1;
      }
      EndReached(nTransactions, h, pos, p);
      vBits := vBits + [fParentOfMatch];
      if h == 0 || !fParentOfMatch {
        StoredLeaf(combine, txids, match1, h, pos);
        vHash := vHash + [CalcHash(combine, txids, h, pos)];
      } else {
        LeftExists(nTransactions, h, pos);
        StoredInner(combine, txids, match1, h, pos);
        TraverseAndBuild(h - 1, pos * 2, txids, match1);
        ghost var l := Stored(combine, txids, match1, h - 1, pos * 2);
        if pos * 2 + 1 < Width(nTransactions, h - 1) {
          TraverseAndBuild(h - 1, pos * 2 + 1, txids, match1);
          ghost var r := Stored(combine, txids, match1, h - 1, pos * 2 + 1);
          assert old(vBits) + [true] + l.bits + r.bits == old(vBits) + ([true] + l.bits + r.bits);
          assert old(vHash) + l.hashes + r.hashes == old(vHash) + (l.hashes + r.hashes);
        } else {
          assert old(vBits) + [true] + l.bits == old(vBits) + ([true] + l.bits + []);
          assert old(vHash) + l.hashes == old(vHash) + (l.hashes + []);
        }
      }
    }

    /** TraverseAndExtract */
    method TraverseAndExtract(h: nat, pos: nat, bitsUsed: nat, hashUsed: nat, vMatch: seq<Hash>)
      returns (hash: Hash, bits: nat, hashes: nat, matches: seq<Hash>)
      modifies this`fBad
      ensures var out := Extract(combine, nTransactions, Part(vBits, vHash), h, pos, bitsUsed, hashUsed);
              hash == out.hash && bits == out.bits && hashes == out.hashes && matches == vMatch + out.matches &&
              fBad == (old(fBad) || out.bad)
      decreases h
    {
      hide Width, Extract;
      ghost var part := Part(vBits, vHash);
      if bitsUsed >= |vBits| {
        ExtractLeaf(combine, nTransactions, part, h, pos, bitsUsed, hashUsed);
        fBad := true;
        return 0, bitsUsed, hashUsed, vMatch;
      }
      var fParentOfMatch := vBits[bitsUsed];
      bits, hashes, matches := bitsUsed + 1, hashUsed, vMatch;
      if h == 0 || !fParentOfMatch {
        ExtractLeaf(combine, nTransactions, part, h, pos, bitsUsed, hashUsed);
        if hashUsed >= |vHash| {
          fBad := true;
          return 0, bits, hashes, matches;
        }
        hash := vHash[hashes];
        hashes := hashes + 1;
        if h == 0 && fParentOfMatch {
          matches := matches + [hash];
        }
      } else {
        var left, right;
        left, bits, hashes, matches := TraverseAndExtract(h - 1, pos * 2, bits, hashes, matches);
        if pos * 2 + 1 < Width(nTransactions, h - 1) {
          ExtractTwo(combine, nTransactions, part, h, pos, bitsUsed, hashUsed);
          right, bits, hashes, matches := TraverseAndExtract(h - 1, pos * 2 + 1, bits, hashes, matches);
          if right == left {
            fBad := true;
          }
        } else {
          ExtractOne(combine, nTransactions, part, h, pos, bitsUsed, hashUsed);
          right := left;
        }
        hash := combine(left, right);
      }
    }

    /** ExtractMatches */
    method ExtractMatches() returns (root: Hash, vMatch: seq<Hash>)
      modifies this`fBad
      ensures forall h :: IsHeight(nTransactions, h) ==>
        (root, vMatch) == Extracted(combine, nTransactions, Part(vBits, vHash), old(fBad), h)
    {
      hide Width, IsHeight, Extract;
      vMatch := [];
      if nTransactions == 0 {
        return 0, [];
      }
      if nTransactions > MAX_BLOCK_SIZE / 60 {
        return 0, [];
      }
      if |vHash| > nTransactions {
        return 0, [];
      }
      if |vBits| < |vHash| {
        return 0, [];
      }
      var h := TreeHeight();
      forall g | IsHeight(nTransactions, g)
        ensures g == h
      {
        OneHeight(nTransactions, g, h);
      }
      var bitsUsed, hashUsed;
      ghost var out := Extract(combine, nTransactions, Part(vBits, vHash), h, 0, 0, 0);
      root, bitsUsed, hashUsed, vMatch := TraverseAndExtract(h, 0, 0, 0, vMatch);
      assert [] + out.matches == out.matches;
      if fBad {
        root := 0;
      } else if (bitsUsed + 7) / 8 != (|vBits| + 7) / 8 {
        root := 0;
      } else if hashUsed != |vHash| {
        root := 0;
      }
    }

    /** SerializationOp, writing and reading back: fBad is reset. */
    method Reread()
      modifies this
      ensures vBits == Padded(old(vBits)) && vHash == old(vHash) && nTransactions == old(nTransactions) && !fBad
    {
      vBits := OverTheWire(vBits);
      fBad := false;
    }
  }

  lemma {:induction false} OneHeight(n: nat, g: nat, h: nat)
    requires IsHeight(n, g) && IsHeight(n, h)
    ensures g == h
  {
    hide Width;
    assert g < h ==> Width(n, g) > 1;
    assert h < g ==> Width(n, h) > 1;
  }

  lemma {:induction false} StoredLeaf(combine: Combine, txids: seq<Hash>, match1: seq<bool>, h: nat, p: nat)
    requires |match1| == |txids| && p < Width(|txids|, h) && (h == 0 || !Any(match1, First(h, p), End(|txids|, h, p)))
    ensures Stored(combine, txids, match1, h, p) ==
      Part([Any(match1, First(h, p), End(|txids|, h, p))], [CalcHash(combine, txids, h, p)])
  {
  }

  lemma {:induction false} AnyNext(match1: seq<bool>, lo: nat, p: nat)
    requires lo <= p < |match1|
    ensures Any(match1, lo, p + 1) <==> Any(match1, lo, p) || match1[p]
  {
    if Any(match1, lo, p + 1) {
      var i :| lo <= i < p + 1 && match1[i];
      assert i < p ==> Any(match1, lo, p);
    }
  }

  lemma {:induction false} EndBeyond(n: nat, h: nat, pos: nat, p: nat)
    requires p < First(h, pos + 1) && p < n
    ensures p < End(n, h, pos)
  {
  }

  lemma {:induction false} EndReached(n: nat, h: nat, pos: nat, p: nat)
    requires p <= End(n, h, pos) && !(p < First(h, pos + 1) && p < n)
    ensures p == End(n, h, pos)
  {
  }

  // ------------------------------------------------------------------- main results

  lemma {:induction false} WholeTree(n: nat, h: nat)
    requires n > 0 && IsHeight(n, h)
    ensures 0 < Width(n, h) && First(h, 0) == 0 && End(n, h, 0) == n
  {
    NodeExists(n, h, 0);
    NodeExists(n, h, 1);
  }

  lemma {:induction false} PaddedHolds(q: Part)
    ensures Holds(Part(Padded(q.bits), q.hashes), q, 0, 0)
  {
  }

  /** Building, packing, unpacking and extracting gives the merkle root and exactly the matched
      transactions, in order; or, if two siblings above a match hash alike, it fails. */
  lemma {:induction false} RoundTripExactly(combine: Combine, txids: seq<Hash>, match1: seq<bool>, h: nat)
    requires |match1| == |txids| && 0 < |txids| <= MAX_BLOCK_SIZE / 60 && IsHeight(|txids|, h)
    ensures 0 < Width(|txids|, h)
    ensures var q := Stored(combine, txids, match1, h, 0);
            Extracted(combine, |txids|, Part(Padded(q.bits), q.hashes), false, h) ==
            (if Twins(combine, txids, match1, h, 0) then 0 else CalcHash(combine, txids, h, 0),
             Matched(txids, match1, 0, |txids|))
  {
    WholeTree(|txids|, h);
    hide IsHeight, Width, First, End, Stored, CalcHash, Extract, Padded, Holds, Matched, Twins;
    var q := Stored(combine, txids, match1, h, 0);
    PaddedHolds(q);
    HashCount(combine, txids, match1, h, 0);
    BitCount(combine, txids, match1, h, 0);
    ExtractStored(combine, txids, match1, h, 0, Part(Padded(q.bits), q.hashes), 0, 0);
  }

  /** Different transactions come back. */
  lemma {:induction false} RoundTrip(combine: Combine, txids: seq<Hash>, match1: seq<bool>, h: nat)
    requires Injective(combine) && Distinct(txids) && |match1| == |txids|
    requires 0 < |txids| <= MAX_BLOCK_SIZE / 60 && IsHeight(|txids|, h)
    ensures 0 < Width(|txids|, h)
    ensures var q := Stored(combine, txids, match1, h, 0);
            Extracted(combine, |txids|, Part(Padded(q.bits), q.hashes), false, h) ==
            (CalcHash(combine, txids, h, 0), Matched(txids, match1, 0, |txids|))
  {
    hide IsHeight, Width, First, End, Stored, CalcHash, Extracted, Padded, Matched, Twins, Injective, Distinct;
    RoundTripExactly(combine, txids, match1, h);
    NoTwins(combine, txids, match1, h, 0);
  }

  /** Whatever bits and hashes are received: if the root is that of a list of as many transactions,
      the matches are taken from this list, in order. */
  lemma {:induction false} Soundness(combine: Combine, txids: seq<Hash>, part: Part, bad: bool, h: nat)
    returns (ps: seq<nat>)
    requires Injective(combine) && |txids| > 0 && IsHeight(|txids|, h)
    requires 0 < Width(|txids|, h) && CalcHash(combine, txids, h, 0) != 0
    requires Extracted(combine, |txids|, part, bad, h).0 == CalcHash(combine, txids, h, 0)
    ensures Rising(ps, 0, |txids|) && Lists(Extracted(combine, |txids|, part, bad, h).1, txids, ps)
  {
    WholeTree(|txids|, h);
    hide IsHeight, Width, First, End, CalcHash, Extract, Injective, Rising, Lists, Leaves;
    ExtractSound(combine, txids, part, h, 0, 0, 0);
    ps := Leaves(combine, |txids|, part, h, 0, 0, 0);
  }

  /** A tree sent over the wire and extracted at the other end. */
  method BuildAndExtract(combine: Combine, txids: seq<Hash>, match1: seq<bool>) returns (root: Hash, matches: seq<Hash>)
    requires Injective(combine) && Distinct(txids) && |match1| == |txids| && 0 < |txids| <= MAX_BLOCK_SIZE / 60
    ensures matches == Matched(txids, match1, 0, |txids|)
    ensures forall h :: IsHeight(|txids|, h) ==> 0 < Width(|txids|, h) && root == CalcHash(combine, txids, h, 0)
  {
    hide IsHeight, Width, Stored, CalcHash, Extracted, Injective, Distinct, Padded, Matched;
    var tree := new PartialMerkleTree(combine, txids, match1);
    tree.Reread();
    root, matches := tree.ExtractMatches();
    var h := tree.TreeHeight();
    forall g | IsHeight(|txids|, g)
      ensures g == h
    {
      OneHeight(|txids|, g, h);
    }
    RoundTrip(combine, txids, match1, h);
  }

  // ------------------------------------------------------------------ nothing to spare

  /** More bits and hashes behind those that were used make no difference to the traversal. */
  lemma {:induction false} ExtractMore(combine: Combine, n: nat, part: Part, more: Part, h: nat, p: nat, i: nat, j: nat)
    requires !Extract(combine, n, part, h, p, i, j).bad
    ensures Extract(combine, n, Part(part.bits + more.bits, part.hashes + more.hashes), h, p, i, j) ==
            Extract(combine, n, part, h, p, i, j)
    decreases h
  {
    hide Width, Extract;
    var whole := Part(part.bits + more.bits, part.hashes + more.hashes);
    ExtractGood(combine, n, part, h, p, i, j);
    assert whole.bits[i] == part.bits[i];
    if h == 0 || !part.bits[i] {
      ExtractLeaf(combine, n, part, h, p, i, j);
      ExtractLeaf(combine, n, whole, h, p, i, j);
    } else if 2 * p + 1 < Width(n, h - 1) {
      ExtractTwo(combine, n, part, h, p, i, j);
      ExtractTwo(combine, n, whole, h, p, i, j);
      var l := Extract(combine, n, part, h - 1, 2 * p, i + 1, j);
      ExtractMore(combine, n, part, more, h - 1, 2 * p, i + 1, j);
      ExtractMore(combine, n, part, more, h - 1, 2 * p + 1, l.bits, l.hashes);
    } else {
      ExtractOne(combine, n, part, h, p, i, j);
      ExtractOne(combine, n, whole, h, p, i, j);
      ExtractMore(combine, n, part, more, h - 1, 2 * p, i + 1, j);
    }
  }

  lemma {:induction false} ExtractGood(combine: Combine, n: nat, part: Part, h: nat, p: nat, i: nat, j: nat)
    requires !Extract(combine, n, part, h, p, i, j).bad
    ensures i < |part.bits| && (h == 0 || !part.bits[i] ==> j < |part.hashes|)
  {
  }

  /** An accepted tree has nothing to spare: with anything appended it is still accepted, and then
      says the same, exactly if that is no hash and no bit that starts another byte. */
  lemma {:induction false} NothingToSpare(combine: Combine, n: nat, part: Part, more: Part, h: nat)
    requires Extracted(combine, n, part, false, h).0 != 0
    ensures var r := Extracted(combine, n, Part(part.bits + more.bits, part.hashes + more.hashes), false, h);
            if more.hashes == [] && (|part.bits| + |more.bits| + 7) / 8 == (|part.bits| + 7) / 8
            then r == Extracted(combine, n, part, false, h)
            else r.0 == 0
  {
    hide Extract;
    ExtractMore(combine, n, part, more, h, 0, 0, 0);
  }

  /** The bounds every accepted tree keeps. */
  lemma {:induction false} AcceptedBounds(combine: Combine, n: nat, part: Part, bad: bool, h: nat)
    requires Extracted(combine, n, part, bad, h).0 != 0
    ensures !bad && 0 < n <= 33_333 && 0 < |part.hashes| <= n && |part.hashes| <= |part.bits|
  {
    hide Extract;
    HashUsed(combine, n, part, h, 0, 0, 0);
  }

  lemma {:induction false} HashUsed(combine: Combine, n: nat, part: Part, h: nat, p: nat, i: nat, j: nat)
    requires !Extract(combine, n, part, h, p, i, j).bad
    ensures Extract(combine, n, part, h, p, i, j).hashes > j
    decreases h
  {
    hide Width;
    if h > 0 && i < |part.bits| && part.bits[i] {
      HashUsed(combine, n, part, h - 1, 2 * p, i + 1, j);
    }
  }
}
