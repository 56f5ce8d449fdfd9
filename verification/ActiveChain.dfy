/** The active chain, CChain of src/chain.h and src/chain.cpp. */
module ActiveChain {
  import opened Numbers
  import opened BlockTree

  class Chain {
    var vChain: seq<BlockIndex?>

    /** Entry h is the tip's ancestor at height h. */
    ghost predicate Valid(nodes: set<BlockIndex>)
      reads this, nodes
    {
      Built(nodes) && Leads(vChain, nodes)
    }

    constructor ()
      ensures vChain == []
    {
      vChain := [];
    }

    function Height(): int
      reads this
    {
      |vChain| - 1
    }

    function Tip(): BlockIndex?
      reads this
    {
      if |vChain| > 0 then vChain[|vChain| - 1] else null
    }

    function At(h: int): BlockIndex?
      reads this
    {
      if h < 0 || h >= |vChain| then null else vChain[h]
    }

    predicate Contains(b: BlockIndex)
      reads this
    {
      At(b.nHeight) == b
    }

    /** SetTip: the early exit of the loop loses nothing. */
    method SetTip(tip: BlockIndex?, ghost nodes: set<BlockIndex>)
      requires Valid(nodes) && (tip != null ==> tip in nodes)
      modifies this
      ensures Valid(nodes) && Tip() == tip && (tip == null ==> vChain == [])
      ensures tip != null ==> |vChain| == tip.nHeight + 1 && Linked(tip) && forall h :: 0 <= h < |vChain| ==>
        vChain[h] == Ancestor(tip, h)
    {
      hide Built, Ancestor, Leads;
      if tip == null {
        vChain := [];
        NoBlocks(nodes);
        return;
      }
      SelfAncestor(nodes, tip);
      ghost var before := vChain;
      var size := tip.nHeight + 1;
      vChain := Resized(vChain, size);
      var walk: BlockIndex? := tip;
      ghost var g: int := tip.nHeight;
      while walk != null && vChain[walk.nHeight] != walk
        invariant -1 <= g <= tip.nHeight && |vChain| == size
        invariant
          if g < 0 then walk == null
          else walk != null && walk in nodes && walk == Ancestor(tip, g) && walk.nHeight == g
        invariant forall h :: g < h < size ==> vChain[h] == Ancestor(tip, h)
        invariant forall h :: 0 <= h <= g ==> vChain[h] == if h < |before| then before[h] else null
        decreases g
      {
        if g > 0 {
          PrevLeads(nodes, tip, walk, g);
        } else {
          NoPrev(nodes, tip, walk);
        }
        vChain := vChain[walk.nHeight := walk];
        walk := walk.pprev;
        g := g - 1;
      }
      if walk != null {
        assert g < |before| && before[g] == walk;
        SharedPart(before, nodes, tip, g);
      }
      NewTip(vChain, nodes, tip);
    }

    /** FindFork: the highest block of this chain on the way down from b, or none. */
    method FindFork(b: BlockIndex, ghost nodes: set<BlockIndex>) returns (r: BlockIndex?)
      requires Valid(nodes) && b in nodes
      ensures r != null ==> r in nodes && Below(r, b) && Contains(r)
      ensures forall c: BlockIndex :: c in nodes && Below(c, b) && Contains(c) ==> r != null && c.nHeight <= r.nHeight
    {
      hide Built, Ancestor, Leads;
      SelfAncestor(nodes, b);
      r := b;
      ghost var g: int := b.nHeight;
      if b.nHeight > Height() {
        ghost var turns;
        r, turns := GetAncestor(b, Height(), nodes);
        g := Height();
      }
      while r != null && !Contains(r)
        invariant -1 <= g <= b.nHeight
        invariant if g < 0 then r == null else r != null && r in nodes && r == Ancestor(b, g) && r.nHeight == g
        invariant forall h :: g < h <= b.nHeight ==> !Contains(Ancestor(b, h))
        decreases g
      {
        if g > 0 {
          PrevLeads(nodes, b, r, g);
        } else {
          NoPrev(nodes, b, r);
        }
        r := r.pprev;
        g := g - 1;
      }
    }
  }

  /** Every entry is the last entry's ancestor at its height. */
  ghost predicate Leads(chain: seq<BlockIndex?>, nodes: set<BlockIndex>)
    reads nodes
  {
    chain == [] ||
    (var tip := chain[|chain| - 1];
     tip != null && tip in nodes && Linked(tip) && tip.nHeight == |chain| - 1 &&
     forall h :: 0 <= h < |chain| ==> chain[h] == Ancestor(tip, h))
  }

  function Resized(chain: seq<BlockIndex?>, n: nat): (r: seq<BlockIndex?>)
    ensures |r| == n
    ensures forall h :: 0 <= h < n ==> r[h] == if h < |chain| then chain[h] else null
  {
    if n <= |chain| then chain[..n] else chain + seq(n - |chain|, _ => null)
  }

  lemma {:induction false} NoBlocks(nodes: set<BlockIndex>)
    ensures Leads([], nodes)
  {
  }

  lemma {:induction false} NewTip(chain: seq<BlockIndex?>, nodes: set<BlockIndex>, tip: BlockIndex)
    requires tip in nodes && Linked(tip) && |chain| == tip.nHeight + 1
    requires forall h :: 0 <= h < |chain| ==> chain[h] == Ancestor(tip, h)
    ensures Leads(chain, nodes) && chain[|chain| - 1] == tip
  {
    assert Ancestor(tip, tip.nHeight) == tip;
  }

  /** Below a block both chains have, they agree. */
  lemma {:induction false} SharedPart(before: seq<BlockIndex?>, nodes: set<BlockIndex>, tip: BlockIndex, g: nat)
    requires Leads(before, nodes) && g < |before| && Linked(tip) && g <= tip.nHeight && before[g] == Ancestor(tip, g)
    ensures forall h :: 0 <= h <= g ==> before[h] == Ancestor(tip, h)
  {
    var last := before[|before| - 1];
    forall h | 0 <= h <= g
      ensures before[h] == Ancestor(tip, h)
    {
      MeetOnce(last, tip, g, h);
    }
  }

  /** New blocks in the index leave the chain as it is. */
  lemma {:induction false} MoreBlocks(chain: Chain, nodes: set<BlockIndex>, more: set<BlockIndex>)
    requires chain.Valid(nodes) && nodes <= more && Built(more)
    ensures chain.Valid(more)
  {
    hide Built;
  }

  /** Contains tells exactly the ancestors of the tip. */
  lemma {:induction false} ContainsExact(chain: Chain, nodes: set<BlockIndex>, b: BlockIndex)
    requires chain.Valid(nodes) && chain.Tip() != null && b in nodes
    ensures chain.Contains(b) <==> Below(b, chain.Tip())
  {
  }

  // ---------------------------------------------------------------------- locators

  /** The heights GetLocator visits from height h on, when this many blocks are listed already. */
  function LocatorHeights(h: nat, step: nat, listed: nat): (r: seq<nat>)
    requires step >= 1
    ensures |r| >= 1 && r[0] == h && r[|r| - 1] == 0
    ensures forall i, j :: 0 <= i < j < |r| ==> r[i] > r[j]
    decreases h
  {
    if h == 0 then [0]
    else
      [h] + LocatorHeights(if h > step then h - step else 0, if listed + 1 > 10 then 2 * step else step, listed + 1)
  }

  /** How far the steps reach when the step is doubled k times. */
  ghost function Far(step: nat, k: nat): nat {
    step * (Exp2(k) - 1)
  }

  lemma {:induction false} FarStep(step: nat, k: nat)
    ensures Far(step, 0) == 0
    ensures k > 0 ==> Far(step, k) == step + Far(2 * step, k - 1)
  {
    if k > 0 {
      Doubling(step, Exp2(k - 1));
    }
  }

  /** With k doublings of the step, k + 1 more blocks reach 2^k times as far. */
  lemma {:induction false} LocatorTail(h: nat, step: nat, listed: nat, k: nat)
    requires step >= 1 && listed >= 10 && h <= Far(step, k)
    ensures |LocatorHeights(h, step, listed)| <= k + 1
    decreases k
  {
    hide Far;
    FarStep(step, k);
    if h > 0 {
      LocatorTail(if h > step then h - step else 0, 2 * step, listed + 1, k - 1);
    }
  }

  lemma {:induction false} Doubling(step: nat, p: nat)
    ensures step * (2 * p - 1) == step + 2 * step * (p - 1)
  {
  }

  lemma {:induction false} LocatorHead(h: nat, listed: nat, k: nat)
    requires listed <= 10 && h <= 10 - listed + Exp2(k) - 1
    ensures |LocatorHeights(h, 1, listed)| <= 10 - listed + k + 1
    decreases 10 - listed
  {
    if listed == 10 {
      LocatorTail(h, 1, listed, k);
    } else if h > 0 {
      LocatorHead(if h > 1 then h - 1 else 0, listed + 1, k);
    }
  }

  /** A locator is short: from a height below 10 + 2^k it lists at most 11 + k blocks. */
  lemma {:induction false} LocatorShort(h: nat, k: nat)
    requires h < 10 + Exp2(k)
    ensures |LocatorHeights(h, 1, 0)| <= 11 + k
  {
    LocatorHead(h, 0, k);
  }

  /** It starts with a dozen blocks in a row. */
  lemma {:induction false} LocatorStart(h: nat, listed: nat, i: nat)
    requires listed + i <= 11 && i <= h
    ensures i < |LocatorHeights(h, 1, listed)| && LocatorHeights(h, 1, listed)[i] == h - i
    decreases i
  {
    hide LocatorHeights;
    HeightsUnfold(h, 1, listed);
    if i > 0 && listed < 10 {
      LocatorStart(h - 1, listed + 1, i - 1);
    }
  }

  /** And it goes back no faster than by doubling: the first listed height at or below any other one
      misses it by less than the other one is away from the start. */
  lemma {:induction false} LocatorReaches(start: nat, h: nat, step: nat, listed: nat, c: nat) returns (i: nat)
    requires c <= h <= start && 1 <= step && (step <= start - h || (step == 1 && listed < 10))
    ensures var r := LocatorHeights(h, step, listed);
            i < |r| && r[i] <= c && (c == start || c - r[i] < start - c) && forall j :: 0 <= j < i ==> r[j] > c
    decreases h
  {
    hide LocatorHeights;
    HeightsUnfold(h, step, listed);
    if c == h {
      i := 0;
    } else {
      var next := if h > step then h - step else 0;
      var wider := if listed + 1 > 10 then 2 * step else step;
      var k := 0;
      if next > c {
        k := LocatorReaches(start, next, wider, listed + 1, c);
      }
      i := k + 1;
      OneFurther(h, LocatorHeights(next, wider, listed + 1), c, k);
    }
  }

  lemma {:induction false} OneFurther(h: nat, rest: seq<nat>, c: nat, k: nat)
    requires h > c && k < |rest| && forall j :: 0 <= j < k ==> rest[j] > c
    ensures ([h] + rest)[k + 1] == rest[k] && forall j :: 0 <= j < k + 1 ==> ([h] + rest)[j] > c
  {
  }

  /** The blocks a locator lists from b on. */
  ghost function Listed(b: BlockIndex, step: nat, listed: nat): seq<BlockIndex>
    requires step >= 1 && Linked(b)
    decreases b.nHeight
  {
    if b.nHeight == 0 then [b]
    else
      [b] + Listed(Ancestor(b, if b.nHeight > step then b.nHeight - step else 0),
        if listed + 1 > 10 then 2 * step else step, listed + 1)
  }

  /** They are the ancestors of b at the scheduled heights. */
  lemma {:induction false} ListedAt(b: BlockIndex, step: nat, listed: nat)
    requires step >= 1 && Linked(b)
    ensures var hs := LocatorHeights(b.nHeight, step, listed);
            |Listed(b, step, listed)| == |hs| &&
            forall i :: 0 <= i < |hs| ==> hs[i] <= b.nHeight && Listed(b, step, listed)[i] == Ancestor(b, hs[i])
    decreases b.nHeight
  {
    hide Listed, LocatorHeights, Linked, Ancestor;
    ListedUnfold(b, step, listed);
    HeightsUnfold(b.nHeight, step, listed);
    AncestorSelf(b);
    if b.nHeight > 0 {
      var h := if b.nHeight > step then b.nHeight - step else 0;
      var step1 := if listed + 1 > 10 then 2 * step else step;
      ListedAt(Ancestor(b, h), step1, listed + 1);
      var hs := LocatorHeights(h, step1, listed + 1);
      forall i | 0 <= i < |hs| + 1
        ensures ([b.nHeight] + hs)[i] <= b.nHeight
        ensures ([b] + Listed(Ancestor(b, h), step1, listed + 1))[i] == Ancestor(b, ([b.nHeight] + hs)[i])
      {
        if i > 0 {
          AncestorOfAncestor(b, h, hs[i - 1]);
        }
      }
    }
  }

  /** GetLocator: ancestors of the start at the scheduled heights, down to the genesis block. */
  method GetLocator(chain: Chain, start: BlockIndex?, ghost nodes: set<BlockIndex>) returns (have: seq<BlockIndex>)
    requires chain.Valid(nodes) && (start != null ==> start in nodes)
    ensures start == null && chain.Tip() == null ==> have == []
    ensures start != null || chain.Tip() != null ==>
      var first := if start != null then start else chain.Tip();
      Linked(first) && have == Listed(first, 1, 0)
  {
    hide Built, Ancestor, Leads, Listed;
    have := [];
    var walk := start;
    if walk == null {
      walk := chain.Tip();
      TipInside(chain.vChain, nodes);
    }
    if walk == null {
      return;
    }
    ghost var first: BlockIndex := walk;
    SelfAncestor(nodes, first);
    var step := 1;
    while walk != null
      invariant step >= 1 && walk != null && walk in nodes && Linked(walk)
      invariant have + Listed(walk, step, |have|) == Listed(first, 1, 0)
      decreases walk.nHeight
    {
      ListedUnfold(walk, step, |have|);
      ghost var sofar := have;
      have := have + [walk];
      if walk.nHeight == 0 {
        break;
      }
      var height := if walk.nHeight - step > 0 then walk.nHeight - step else 0;
      ghost var next := Ancestor(walk, height);
      if chain.Contains(walk) {
        InChain(chain.vChain, nodes, walk, height);
        walk := chain.At(height);
      } else {
        ghost var turns;
        walk, turns := GetAncestor(walk, height, nodes);
      }
      assert walk == next;
      if |have| > 10 {
        step := step * 2;
      }
      Regroup(sofar, have[|sofar|], Listed(walk, step, |have|));
    }
  }

  lemma {:induction false} Regroup(a: seq<BlockIndex>, b: BlockIndex, c: seq<BlockIndex>)
    ensures a + ([b] + c) == a + [b] + c
  {
  }

  lemma {:induction false} AncestorSelf(b: BlockIndex)
    requires Linked(b)
    ensures Ancestor(b, b.nHeight) == b
  {
  }

  lemma {:induction false} HeightsUnfold(h: nat, step: nat, listed: nat)
    requires step >= 1
    ensures LocatorHeights(h, step, listed) ==
            if h == 0 then [0]
            else [h] + LocatorHeights(if h > step then h - step else 0, if listed + 1 > 10 then 2 * step else step,
              listed + 1)
  {
  }

  lemma {:induction false} ListedUnfold(b: BlockIndex, step: nat, listed: nat)
    requires step >= 1 && Linked(b)
    ensures Listed(b, step, listed) ==
            if b.nHeight == 0 then [b]
            else [b] + Listed(Ancestor(b, if b.nHeight > step then b.nHeight - step else 0),
              if listed + 1 > 10 then 2 * step else step, listed + 1)
  {
  }

  lemma {:induction false} TipInside(chain: seq<BlockIndex?>, nodes: set<BlockIndex>)
    requires Leads(chain, nodes)
    ensures chain != [] ==> chain[|chain| - 1] != null && chain[|chain| - 1] in nodes
  {
  }

  /** In the chain, the entry at a lower height is the ancestor. */
  lemma {:induction false} InChain(chain: seq<BlockIndex?>, nodes: set<BlockIndex>, b: BlockIndex, h: nat)
    requires Built(nodes) && Leads(chain, nodes) && b in nodes && b.nHeight < |chain| && chain[b.nHeight] == b &&
      h <= b.nHeight
    ensures Linked(b) && chain[h] != null && chain[h] in nodes && chain[h] == Ancestor(b, h)
  {
    var tip := chain[|chain| - 1];
    AncestorOfAncestor(tip, b.nHeight, h);
    AncestorInside(nodes, tip, h);
  }
}
