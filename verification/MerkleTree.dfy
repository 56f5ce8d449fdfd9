/** The merkle tree over a block's transactions, and the parts of it a partial tree stores. */
module MerkleTree {
  import opened Numbers

  /** A 256-bit hash; 0 is the null hash. */
  type Hash = nat

  /** Hash of two concatenated hashes. */
  type Combine = (Hash, Hash) -> Hash

  /** No two different pairs are seen to collide. */
  ghost predicate Injective(combine: Combine) {
    forall a, b, c, d :: combine(a, b) == combine(c, d) ==> a == c && b == d
  }

  /** CalcTreeWidth: the number of nodes at this height over n transactions. */
  function Width(n: nat, h: nat): nat {
    (n + Exp2(h) - 1) / Exp2(h)
  }

  /** The first transaction below node p at height h. */
  function First(h: nat, p: nat): nat {
    p * Exp2(h)
  }

  lemma {:induction false} DivideUp(n: nat, d: nat, p: nat)
    requires d >= 1
    ensures p < (n + d - 1) / d <==> p * d < n
  {
    var q := (n + d - 1) / d;
    assert q * d <= n + d - 1 < q * d + d;
    if p < q {
      assert (p + 1) * d <= q * d by { Grow(p + 1, q, d); }
      assert (p + 1) * d == p * d + d;
    } else {
      assert q * d <= p * d by { Grow(q, p, d); }
    }
  }

  lemma {:induction false} Grow(a: nat, b: nat, d: nat)
    requires a <= b
    ensures a * d <= b * d
  {
  }

  /** A node exists exactly if there is a transaction below it. */
  lemma {:induction false} NodeExists(n: nat, h: nat, p: nat)
    ensures p < Width(n, h) <==> First(h, p) < n
  {
    DivideUp(n, Exp2(h), p);
  }

  const MAX_BLOCK_SIZE := 2_000_000

  /** The height of the tree: the first with a single node. */
  ghost predicate IsHeight(n: nat, h: nat) {
    Width(n, h) <= 1 && forall g: nat :: g < h ==> Width(n, g) > 1
  }

  lemma {:induction false} FirstChildren(h: nat, p: nat)
    requires h > 0
    ensures First(h - 1, 2 * p) == First(h, p)
    ensures First(h - 1, 2 * p + 1) == First(h, p) + Exp2(h - 1)
    ensures First(h, p + 1) == First(h, p) + Exp2(h)
    ensures First(h - 1, 2 * p + 2) == First(h, p + 1)
  {
    var d := Exp2(h - 1);
    assert 2 * p * d == p * (2 * d);
    assert (2 * p + 1) * d == 2 * p * d + d;
    assert (2 * p + 2) * d == 2 * p * d + 2 * d;
    assert (p + 1) * (2 * d) == p * (2 * d) + 2 * d;
  }

  /** The left child of a node exists. */
  lemma {:induction false} LeftExists(n: nat, h: nat, p: nat)
    requires h > 0 && p < Width(n, h)
    ensures 2 * p < Width(n, h - 1)
  {
    NodeExists(n, h, p);
    NodeExists(n, h - 1, 2 * p);
    FirstChildren(h, p);
  }

  /** CalcHash: a missing right child counts as a copy of the left one. */
  function CalcHash(combine: Combine, txids: seq<Hash>, h: nat, p: nat): Hash
    requires p < Width(|txids|, h)
    decreases h
  {
    if h == 0 then
      txids[p]
    else
      LeftExists(|txids|, h, p);
      var left := CalcHash(combine, txids, h - 1, 2 * p);
      var right := if 2 * p + 1 < Width(|txids|, h - 1) then CalcHash(combine, txids, h - 1, 2 * p + 1) else left;
      combine(left, right)
  }

  // ------------------------------------------------------------------- the stored part

  /** One past the last transaction below node p at height h. */
  function End(n: nat, h: nat, p: nat): (e: nat)
    ensures e <= n
  {
    if First(h, p + 1) < n then First(h, p + 1) else n
  }

  /** Some transaction in this range is matched. */
  ghost predicate Any(match1: seq<bool>, lo: nat, hi: nat)
    requires hi <= |match1|
  {
    exists i :: lo <= i < hi && match1[i]
  }

  /** The matched transactions in this range, in order. */
  function Matched(txids: seq<Hash>, match1: seq<bool>, lo: nat, hi: nat): seq<Hash>
    requires lo <= hi <= |txids| == |match1|
  {
    if lo == hi then [] else Matched(txids, match1, lo, hi - 1) + if match1[hi - 1] then [txids[hi - 1]] else []
  }

  /** Flag bits and hashes, in depth-first order. */
  datatype Part = Part(bits: seq<bool>, hashes: seq<Hash>)

  /** What TraverseAndBuild appends for node p at height h. */
  ghost function Stored(combine: Combine, txids: seq<Hash>, match1: seq<bool>, h: nat, p: nat): Part
    requires p < Width(|txids|, h) && |match1| == |txids|
    decreases h
  {
    var any := Any(match1, First(h, p), End(|txids|, h, p));
    if h == 0 || !any then
      Part([any], [CalcHash(combine, txids, h, p)])
    else
      LeftExists(|txids|, h, p);
      var l := Stored(combine, txids, match1, h - 1, 2 * p);
      if 2 * p + 1 < Width(|txids|, h - 1) then
        var r := Stored(combine, txids, match1, h - 1, 2 * p + 1);
        Part([true] + l.bits + r.bits, l.hashes + r.hashes)
      else
        Part([true] + l.bits, l.hashes)
  }

  // ----------------------------------------------------------------------- extraction

  /** The state after a subtree has been read: its hash, the bits and hashes used, the matches. */
  datatype Out = Out(hash: Hash, bits: nat, hashes: nat, matches: seq<Hash>, bad: bool)

  /** TraverseAndExtract from bit i and hash j on. */
  function Extract(combine: Combine, n: nat, part: Part, h: nat, p: nat, i: nat, j: nat): (out: Out)
    ensures out.bits >= i && out.hashes >= j
    ensures i <= |part.bits| ==> out.bits <= |part.bits|
    ensures j <= |part.hashes| ==> out.hashes <= |part.hashes|
    decreases h
  {
    if i >= |part.bits| then
      Out(0, i, j, [], true)
    else if h == 0 || !part.bits[i] then
      if j >= |part.hashes| then
        Out(0, i + 1, j, [], true)
      else
        Out(part.hashes[j], i + 1, j + 1, if h == 0 && part.bits[i] then [part.hashes[j]] else [], false)
    else
      var l := Extract(combine, n, part, h - 1, 2 * p, i + 1, j);
      if 2 * p + 1 < Width(n, h - 1) then
        var r := Extract(combine, n, part, h - 1, 2 * p + 1, l.bits, l.hashes);
        Out(combine(l.hash, r.hash), r.bits, r.hashes, l.matches + r.matches, l.bad || r.bad || l.hash == r.hash)
      else
        Out(combine(l.hash, l.hash), l.bits, l.hashes, l.matches, l.bad)
  }

  /** The positions of the leaves TraverseAndExtract reports as matched. */
  ghost function Leaves(combine: Combine, n: nat, part: Part, h: nat, p: nat, i: nat, j: nat): seq<nat>
    decreases h
  {
    if i >= |part.bits| then []
    else if h == 0 || !part.bits[i] then
      if j < |part.hashes| && h == 0 && part.bits[i] then [p] else []
    else
      var l := Extract(combine, n, part, h - 1, 2 * p, i + 1, j);
      Leaves(combine, n, part, h - 1, 2 * p, i + 1, j) +
      if 2 * p + 1 < Width(n, h - 1) then Leaves(combine, n, part, h - 1, 2 * p + 1, l.bits, l.hashes) else []
  }

  // ----------------------------------------------------------------------- round trip

  ghost predicate Distinct(txids: seq<Hash>) {
    forall i, j :: 0 <= i < j < |txids| ==> txids[i] != txids[j]
  }

  lemma {:induction false} FirstInside(n: nat, h: nat, p: nat)
    requires p < Width(n, h)
    ensures First(h, p) < End(n, h, p) <= n
  {
    NodeExists(n, h, p);
    assert (p + 1) * Exp2(h) == p * Exp2(h) + Exp2(h);
  }

  /** Equal hashes at one height have equal first transactions below. */
  lemma {:induction false} HashFirst(combine: Combine, txids: seq<Hash>, h: nat, p: nat, q: nat)
    requires Injective(combine) && p < Width(|txids|, h) && q < Width(|txids|, h)
    requires CalcHash(combine, txids, h, p) == CalcHash(combine, txids, h, q)
    ensures First(h, p) < |txids| && First(h, q) < |txids| && txids[First(h, p)] == txids[First(h, q)]
  {
    NodeExists(|txids|, h, p);
    NodeExists(|txids|, h, q);
    if h > 0 {
      LeftExists(|txids|, h, p);
      LeftExists(|txids|, h, q);
      FirstChildren(h, p);
      FirstChildren(h, q);
      HashFirst(combine, txids, h - 1, 2 * p, 2 * q);
    }
  }

  /** The two subtrees of a node never hash alike when the transactions are distinct. */
  lemma {:induction false} ChildrenDiffer(combine: Combine, txids: seq<Hash>, h: nat, p: nat)
    requires Injective(combine) && Distinct(txids) && h > 0 && 2 * p + 1 < Width(|txids|, h - 1)
    ensures 2 * p < Width(|txids|, h - 1)
    ensures CalcHash(combine, txids, h - 1, 2 * p) != CalcHash(combine, txids, h - 1, 2 * p + 1)
  {
    NodeExists(|txids|, h - 1, 2 * p + 1);
    NodeExists(|txids|, h - 1, 2 * p);
    FirstChildren(h, p);
    if CalcHash(combine, txids, h - 1, 2 * p) == CalcHash(combine, txids, h - 1, 2 * p + 1) {
      HashFirst(combine, txids, h - 1, 2 * p, 2 * p + 1);
      assert false;
    }
  }

  lemma {:induction false} MatchedNone(txids: seq<Hash>, match1: seq<bool>, lo: nat, hi: nat)
    requires lo <= hi <= |txids| == |match1| && !Any(match1, lo, hi)
    ensures Matched(txids, match1, lo, hi) == []
  {
    if lo < hi {
      assert !match1[hi - 1];
      MatchedNone(txids, match1, lo, hi - 1);
    }
  }

  lemma {:induction false} MatchedSplit(txids: seq<Hash>, match1: seq<bool>, lo: nat, mid: nat, hi: nat)
    requires lo <= mid <= hi <= |txids| == |match1|
    ensures Matched(txids, match1, lo, hi) == Matched(txids, match1, lo, mid) + Matched(txids, match1, mid, hi)
  {
    if mid < hi {
      MatchedSplit(txids, match1, lo, mid, hi - 1);
    }
  }

  /** The children of a node cover its transactions. */
  lemma {:induction false} Cover(n: nat, h: nat, p: nat)
    requires h > 0 && p < Width(n, h)
    ensures 2 * p < Width(n, h - 1) && First(h - 1, 2 * p) == First(h, p)
    ensures 2 * p + 1 < Width(n, h - 1) ==>
      End(n, h - 1, 2 * p) == First(h - 1, 2 * p + 1) && End(n, h - 1, 2 * p + 1) == End(n, h, p)
    ensures 2 * p + 1 >= Width(n, h - 1) ==> End(n, h - 1, 2 * p) == End(n, h, p)
  {
    LeftExists(n, h, p);
    FirstChildren(h, p);
    NodeExists(n, h - 1, 2 * p + 1);
    NodeExists(n, h, p);
  }

  /** Part whole carries q between the bits before i and after, and the hashes before j and after. */
  ghost predicate Holds(whole: Part, q: Part, i: nat, j: nat) {
    i + |q.bits| <= |whole.bits| && whole.bits[i..i + |q.bits|] == q.bits &&
    j + |q.hashes| <= |whole.hashes| && whole.hashes[j..j + |q.hashes|] == q.hashes
  }

  lemma {:induction false} SliceSplit<T>(whole: seq<T>, a: seq<T>, b: seq<T>, i: nat)
    requires i + |a + b| <= |whole| && whole[i..i + |a + b|] == a + b
    ensures i + |a| + |b| <= |whole| && whole[i..i + |a|] == a && whole[i + |a|..i + |a| + |b|] == b
  {
    var s := whole[i..i + |a + b|];
    assert whole[i..i + |a|] == s[..|a|];
    assert whole[i + |a|..i + |a| + |b|] == s[|a|..];
  }

  lemma {:induction false} HoldsSplit(whole: Part, l: Part, r: Part, i: nat, j: nat)
    requires Holds(whole, Part([true] + l.bits + r.bits, l.hashes + r.hashes), i, j)
    ensures i < |whole.bits| && whole.bits[i]
    ensures Holds(whole, l, i + 1, j) && Holds(whole, r, i + 1 + |l.bits|, j + |l.hashes|)
  {
    SliceSplit(whole.bits, [true] + l.bits, r.bits, i);
    SliceSplit(whole.bits, [true], l.bits, i);
    SliceSplit(whole.hashes, l.hashes, r.hashes, j);
    assert whole.bits[i..i + 1][0];
  }

  /** Some node above a matched transaction has two children that hash alike. */
  ghost predicate Twins(combine: Combine, txids: seq<Hash>, match1: seq<bool>, h: nat, p: nat)
    requires |match1| == |txids| && p < Width(|txids|, h)
    decreases h
  {
    h > 0 && Any(match1, First(h, p), End(|txids|, h, p)) &&
    (LeftExists(|txids|, h, p);
     Twins(combine, txids, match1, h - 1, 2 * p) ||
     (2 * p + 1 < Width(|txids|, h - 1) &&
      (Twins(combine, txids, match1, h - 1, 2 * p + 1) ||
       CalcHash(combine, txids, h - 1, 2 * p) == CalcHash(combine, txids, h - 1, 2 * p + 1))))
  }

  /** Reading back what was stored for a node, wherever it stands among other bits and hashes, uses
      exactly those and gives its hash and its matched transactions; it is bad exactly if there are
      twins. */
  lemma {:induction false} ExtractStored(combine: Combine, txids: seq<Hash>, match1: seq<bool>, h: nat, p: nat,
          whole: Part, i: nat, j: nat)
    requires |match1| == |txids| && p < Width(|txids|, h)
    requires Holds(whole, Stored(combine, txids, match1, h, p), i, j)
    ensures First(h, p) < End(|txids|, h, p) <= |txids|
    ensures var q := Stored(combine, txids, match1, h, p);
            Extract(combine, |txids|, whole, h, p, i, j) ==
            Out(CalcHash(combine, txids, h, p), i + |q.bits|, j + |q.hashes|,
                Matched(txids, match1, First(h, p), End(|txids|, h, p)), Twins(combine, txids, match1, h, p))
    decreases h
  {
    var n := |txids|;
    hide Stored, Extract, CalcHash, Holds, Matched, Width, First, End, Any, Twins;
    FirstInside(n, h, p);
    if h == 0 || !Any(match1, First(h, p), End(n, h, p)) {
      ExtractEnd(combine, txids, match1, h, p, whole, i, j);
      NoTwinsHere(combine, txids, match1, h, p);
    } else {
      Cover(n, h, p);
      StoredInner(combine, txids, match1, h, p);
      TwinsInner(combine, txids, match1, h, p);
      var l := Stored(combine, txids, match1, h - 1, 2 * p);
      if 2 * p + 1 < Width(n, h - 1) {
        var r := Stored(combine, txids, match1, h - 1, 2 * p + 1);
        HoldsSplit(whole, l, r, i, j);
        ExtractStored(combine, txids, match1, h - 1, 2 * p, whole, i + 1, j);
        ExtractStored(combine, txids, match1, h - 1, 2 * p + 1, whole, i + 1 + |l.bits|, j + |l.hashes|);
        MatchedSplit(txids, match1, First(h, p), First(h - 1, 2 * p + 1), End(n, h, p));
        ExtractTwo(combine, n, whole, h, p, i, j);
      } else {
        HoldsSplit(whole, l, Part([], []), i, j);
        ExtractStored(combine, txids, match1, h - 1, 2 * p, whole, i + 1, j);
        ExtractOne(combine, n, whole, h, p, i, j);
      }
    }
  }

  lemma {:induction false} NoTwinsHere(combine: Combine, txids: seq<Hash>, match1: seq<bool>, h: nat, p: nat)
    requires |match1| == |txids| && p < Width(|txids|, h) && (h == 0 || !Any(match1, First(h, p), End(|txids|, h, p)))
    ensures !Twins(combine, txids, match1, h, p)
  {
  }

  lemma {:induction false} TwinsInner(combine: Combine, txids: seq<Hash>, match1: seq<bool>, h: nat, p: nat)
    requires |match1| == |txids| && p < Width(|txids|, h) && h > 0 && 2 * p < Width(|txids|, h - 1)
    requires Any(match1, First(h, p), End(|txids|, h, p))
    ensures Twins(combine, txids, match1, h, p) <==>
            Twins(combine, txids, match1, h - 1, 2 * p) ||
            (2 * p + 1 < Width(|txids|, h - 1) &&
             (Twins(combine, txids, match1, h - 1, 2 * p + 1) ||
              CalcHash(combine, txids, h - 1, 2 * p) == CalcHash(combine, txids, h - 1, 2 * p + 1)))
  {
    hide CalcHash, Width, First, End, Any;
  }

  /** Different transactions have no twins above them. */
  lemma {:induction false} NoTwins(combine: Combine, txids: seq<Hash>, match1: seq<bool>, h: nat, p: nat)
    requires Injective(combine) && Distinct(txids) && |match1| == |txids| && p < Width(|txids|, h)
    ensures !Twins(combine, txids, match1, h, p)
    decreases h
  {
    hide CalcHash, Width, First, End, Any, Injective, Distinct;
    if h > 0 {
      LeftExists(|txids|, h, p);
      NoTwins(combine, txids, match1, h - 1, 2 * p);
      if 2 * p + 1 < Width(|txids|, h - 1) {
        NoTwins(combine, txids, match1, h - 1, 2 * p + 1);
        ChildrenDiffer(combine, txids, h, p);
      }
    }
  }

  lemma {:induction false} StoredInner(combine: Combine, txids: seq<Hash>, match1: seq<bool>, h: nat, p: nat)
    requires |match1| == |txids| && p < Width(|txids|, h) && h > 0 && 2 * p < Width(|txids|, h - 1)
    requires Any(match1, First(h, p), End(|txids|, h, p))
    ensures var l := Stored(combine, txids, match1, h - 1, 2 * p);
            var left := CalcHash(combine, txids, h - 1, 2 * p);
            if 2 * p + 1 < Width(|txids|, h - 1) then
              var r := Stored(combine, txids, match1, h - 1, 2 * p + 1);
              Stored(combine, txids, match1, h, p) == Part([true] + l.bits + r.bits, l.hashes + r.hashes) &&
              CalcHash(combine, txids, h, p) == combine(left, CalcHash(combine, txids, h - 1, 2 * p + 1))
            else
              Stored(combine, txids, match1, h, p) == Part([true] + l.bits + [], l.hashes + []) &&
              CalcHash(combine, txids, h, p) == combine(left, left)
  {
  }

  lemma {:induction false} ExtractLeaf(combine: Combine, n: nat, part: Part, h: nat, p: nat, i: nat, j: nat)
    requires i >= |part.bits| || h == 0 || !part.bits[i]
    ensures Extract(combine, n, part, h, p, i, j) ==
            if i >= |part.bits| then Out(0, i, j, [], true)
            else if j >= |part.hashes| then Out(0, i + 1, j, [], true)
            else Out(part.hashes[j], i + 1, j + 1, if h == 0 && part.bits[i] then [part.hashes[j]] else [], false)
  {
  }

  lemma {:induction false} ExtractTwo(combine: Combine, n: nat, part: Part, h: nat, p: nat, i: nat, j: nat)
    requires h > 0 && i < |part.bits| && part.bits[i] && 2 * p + 1 < Width(n, h - 1)
    ensures var l := Extract(combine, n, part, h - 1, 2 * p, i + 1, j);
            var r := Extract(combine, n, part, h - 1, 2 * p + 1, l.bits, l.hashes);
            Extract(combine, n, part, h, p, i, j) ==
            Out(combine(l.hash, r.hash), r.bits, r.hashes, l.matches + r.matches, l.bad || r.bad || l.hash == r.hash)
  {
  }

  lemma {:induction false} ExtractOne(combine: Combine, n: nat, part: Part, h: nat, p: nat, i: nat, j: nat)
    requires h > 0 && i < |part.bits| && part.bits[i] && 2 * p + 1 >= Width(n, h - 1)
    ensures var l := Extract(combine, n, part, h - 1, 2 * p, i + 1, j);
            Extract(combine, n, part, h, p, i, j) == Out(combine(l.hash, l.hash), l.bits, l.hashes, l.matches, l.bad)
  {
  }

  lemma {:induction false} ExtractEnd(combine: Combine, txids: seq<Hash>, match1: seq<bool>, h: nat, p: nat,
          whole: Part, i: nat, j: nat)
    requires |match1| == |txids| && p < Width(|txids|, h)
    requires Holds(whole, Stored(combine, txids, match1, h, p), i, j)
    requires First(h, p) < End(|txids|, h, p) <= |txids| && (h == 0 || !Any(match1, First(h, p), End(|txids|, h, p)))
    ensures Extract(combine, |txids|, whole, h, p, i, j) ==
            Out(CalcHash(combine, txids, h, p), i + 1, j + 1, Matched(txids, match1, First(h, p), End(|txids|, h, p)),
              false)
    ensures var q := Stored(combine, txids, match1, h, p); |q.bits| == 1 && |q.hashes| == 1
  {
    hide Extract, CalcHash, Width, Matched;
    var q := Stored(combine, txids, match1, h, p);
    assert whole.bits[i..i + 1][0] == q.bits[0] && whole.hashes[j..j + 1][0] == q.hashes[0];
    ExtractLeaf(combine, |txids|, whole, h, p, i, j);
    if h == 0 {
      LeafHash(combine, txids, p);
      MatchedOne(txids, match1, p);
    } else {
      MatchedNone(txids, match1, First(h, p), End(|txids|, h, p));
    }
  }

  lemma {:induction false} LeafHash(combine: Combine, txids: seq<Hash>, p: nat)
    requires p < Width(|txids|, 0)
    ensures First(0, p) == p < |txids| && End(|txids|, 0, p) == p + 1 && CalcHash(combine, txids, 0, p) == txids[p]
  {
  }

  lemma {:induction false} MatchedOne(txids: seq<Hash>, match1: seq<bool>, p: nat)
    requires |match1| == |txids| && p < |txids|
    ensures Matched(txids, match1, p, p + 1) == if match1[p] then [txids[p]] else []
    ensures Any(match1, p, p + 1) <==> match1[p]
  {
    assert Matched(txids, match1, p, p) == [];
  }

  // ------------------------------------------------------------------------- soundness

  /** Increasing positions from lo up to hi. */
  ghost predicate Rising(ps: seq<nat>, lo: nat, hi: nat) {
    (forall k :: 0 <= k < |ps| ==> lo <= ps[k] < hi) && (forall k, m :: 0 <= k < m < |ps| ==> ps[k] < ps[m])
  }

  /** The listed transactions are those at these positions. */
  ghost predicate Lists(matches: seq<Hash>, txids: seq<Hash>, ps: seq<nat>) {
    |matches| == |ps| && forall k :: 0 <= k < |ps| ==> ps[k] < |txids| && matches[k] == txids[ps[k]]
  }

  lemma {:induction false} RisingJoin(ps: seq<nat>, qs: seq<nat>, lo: nat, mid: nat, hi: nat)
    requires Rising(ps, lo, mid) && Rising(qs, mid, hi) && lo <= mid <= hi
    ensures Rising(ps + qs, lo, hi)
  {
  }

  lemma {:induction false} ListsJoin(a: seq<Hash>, b: seq<Hash>, txids: seq<Hash>, ps: seq<nat>, qs: seq<nat>)
    requires Lists(a, txids, ps) && Lists(b, txids, qs)
    ensures Lists(a + b, txids, ps + qs)
  {
  }

  /** Whatever bits and hashes are given: if the hash extracted for a node is the true one, the
      matches are transactions below it, in order. */
  lemma {:induction false} ExtractSound(combine: Combine, txids: seq<Hash>, part: Part, h: nat, p: nat, i: nat, j: nat)
    requires Injective(combine) && p < Width(|txids|, h)
    requires var out := Extract(combine, |txids|, part, h, p, i, j);
      !out.bad && out.hash == CalcHash(combine, txids, h, p)
    ensures Rising(Leaves(combine, |txids|, part, h, p, i, j), First(h, p), End(|txids|, h, p))
    ensures Lists(Extract(combine, |txids|, part, h, p, i, j).matches, txids,
      Leaves(combine, |txids|, part, h, p, i, j))
    decreases h
  {
    var n := |txids|;
    hide Extract, CalcHash, Rising, Lists, Width, First, End, Leaves, Injective;
    FirstInside(n, h, p);
    if !(i < |part.bits| && h > 0 && part.bits[i]) {
      SoundEnd(combine, txids, part, h, p, i, j);
    } else {
      Cover(n, h, p);
      CalcInner(combine, txids, h, p);
      LeavesInner(combine, n, part, h, p, i, j);
      var l := Extract(combine, n, part, h - 1, 2 * p, i + 1, j);
      if 2 * p + 1 < Width(n, h - 1) {
        FirstInside(n, h - 1, 2 * p);
        FirstInside(n, h - 1, 2 * p + 1);
        ExtractTwo(combine, n, part, h, p, i, j);
        var r := Extract(combine, n, part, h - 1, 2 * p + 1, l.bits, l.hashes);
        Unpair(combine, l.hash, r.hash, CalcHash(combine, txids, h - 1, 2 * p),
          CalcHash(combine, txids, h - 1, 2 * p + 1));
        ExtractSound(combine, txids, part, h - 1, 2 * p, i + 1, j);
        ExtractSound(combine, txids, part, h - 1, 2 * p + 1, l.bits, l.hashes);
        var ps := Leaves(combine, n, part, h - 1, 2 * p, i + 1, j);
        var qs := Leaves(combine, n, part, h - 1, 2 * p + 1, l.bits, l.hashes);
        RisingJoin(ps, qs, First(h, p), First(h - 1, 2 * p + 1), End(n, h, p));
        ListsJoin(l.matches, r.matches, txids, ps, qs);
      } else {
        ExtractOne(combine, n, part, h, p, i, j);
        Unpair(combine, l.hash, l.hash, CalcHash(combine, txids, h - 1, 2 * p), CalcHash(combine, txids, h - 1, 2 * p));
        ExtractSound(combine, txids, part, h - 1, 2 * p, i + 1, j);
      }
    }
  }

  lemma {:induction false} SoundEnd(combine: Combine, txids: seq<Hash>, part: Part, h: nat, p: nat, i: nat, j: nat)
    requires p < Width(|txids|, h) && First(h, p) < End(|txids|, h, p) && !(i < |part.bits| && h > 0 && part.bits[i])
    requires var out := Extract(combine, |txids|, part, h, p, i, j);
      !out.bad && out.hash == CalcHash(combine, txids, h, p)
    ensures Rising(Leaves(combine, |txids|, part, h, p, i, j), First(h, p), End(|txids|, h, p))
    ensures Lists(Extract(combine, |txids|, part, h, p, i, j).matches, txids,
      Leaves(combine, |txids|, part, h, p, i, j))
  {
  }

  lemma {:induction false} Unpair(combine: Combine, a: Hash, b: Hash, c: Hash, d: Hash)
    requires Injective(combine) && combine(a, b) == combine(c, d)
    ensures a == c && b == d
  {
  }

  lemma {:induction false} CalcInner(combine: Combine, txids: seq<Hash>, h: nat, p: nat)
    requires h > 0 && p < Width(|txids|, h) && 2 * p < Width(|txids|, h - 1)
    ensures var left := CalcHash(combine, txids, h - 1, 2 * p);
            CalcHash(combine, txids, h, p) ==
            if 2 * p + 1 < Width(|txids|, h - 1)
              then combine(left, CalcHash(combine, txids, h - 1, 2 * p + 1)) else combine(left, left)
  {
  }

  lemma {:induction false} LeavesInner(combine: Combine, n: nat, part: Part, h: nat, p: nat, i: nat, j: nat)
    requires h > 0 && i < |part.bits| && part.bits[i]
    ensures var l := Extract(combine, n, part, h - 1, 2 * p, i + 1, j);
            var ps := Leaves(combine, n, part, h - 1, 2 * p, i + 1, j);
            Leaves(combine, n, part, h, p, i, j) ==
            if 2 * p + 1 < Width(n, h - 1)
              then ps + Leaves(combine, n, part, h - 1, 2 * p + 1, l.bits, l.hashes) else ps
  {
    assert Leaves(combine, n, part, h - 1, 2 * p, i + 1, j) + [] == Leaves(combine, n, part, h - 1, 2 * p, i + 1, j);
  }
}
