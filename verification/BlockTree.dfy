/** Entries of the block index: the tree they form and the skip pointers over it, src/chain.cpp. */
module BlockTree {
  import opened Numbers

  // ----------------------------------------------------------------- skip heights

  /** Bitwise and. */
  function BitAnd(a: nat, b: nat): nat {
    if a == 0 || b == 0 then 0 else 2 * BitAnd(a / 2, b / 2) + (a % 2) * (b % 2)
  }

  lemma {:induction false} Bit(b: nat)
    requires b < 2
    ensures b * b == b
  {
  }

  lemma {:induction false} AndSelf(a: nat)
    ensures BitAnd(a, a) == a
  {
    if a > 0 {
      AndSelf(a / 2);
      Bit(a % 2);
    }
  }

  /** InvertLowestOne */
  function InvertLowestOne(n: nat): nat {
    if n == 0 then 0 else BitAnd(n, n - 1)
  }

  lemma {:induction false} InvertOdd(n: nat)
    requires n % 2 == 1
    ensures InvertLowestOne(n) == n - 1
  {
    AndSelf(n / 2);
    assert (n - 1) / 2 == n / 2 && (n - 1) % 2 == 0;
    assert BitAnd(n, n - 1) == n - 1 by {
      if n > 1 {
        assert BitAnd(n, n - 1) == 2 * BitAnd(n / 2, (n - 1) / 2) + (n % 2) * ((n - 1) % 2);
      }
    }
  }

  lemma {:induction false} InvertEven(n: nat)
    requires n > 0 && n % 2 == 0
    ensures InvertLowestOne(n) == 2 * InvertLowestOne(n / 2)
  {
    assert (n - 1) / 2 == n / 2 - 1;
    assert BitAnd(n, n - 1) == 2 * BitAnd(n / 2, (n - 1) / 2) + (n % 2) * ((n - 1) % 2);
  }

  /** It takes the lowest one bit out of n, and nothing else. */
  lemma {:induction false} LowestOne(n: nat) returns (j: nat, k: nat)
    requires n > 0
    ensures n == (2 * k + 1) * Exp2(j) && InvertLowestOne(n) == 2 * k * Exp2(j)
  {
    hide InvertLowestOne;
    if n % 2 == 1 {
      InvertOdd(n);
      j, k := 0, n / 2;
    } else {
      InvertEven(n);
      j, k := LowestOne(n / 2);
      Twice(k, Exp2(j));
      j := j + 1;
    }
  }

  lemma {:induction false} Twice(k: nat, p: nat)
    ensures (2 * k + 1) * (2 * p) == 2 * ((2 * k + 1) * p) && 2 * k * (2 * p) == 2 * (2 * k * p)
  {
  }

  lemma {:induction false} InvertLess(n: nat)
    ensures InvertLowestOne(n) <= n && (n > 0 ==> InvertLowestOne(n) < n)
  {
    if n > 0 {
      var j, k := LowestOne(n);
      assert (2 * k + 1) * Exp2(j) == 2 * k * Exp2(j) + Exp2(j);
    }
  }

  /** GetSkipHeight */
  function SkipHeight(height: int): (r: nat)
    ensures height >= 1 ==> r < height
  {
    if height < 2 then 0
    else
      InvertLess(height - 1);
      InvertLess(InvertLowestOne(height - 1));
      InvertLess(height);
      if height % 2 == 1 then InvertLowestOne(InvertLowestOne(height - 1)) + 1 else InvertLowestOne(height)
  }

  /** Where one turn of the loop of GetAncestor goes from height w on its way to height t. */
  function Jump(w: nat, t: nat): (r: nat)
    requires t < w
    ensures t <= r < w
  {
    var s, p := SkipHeight(w), SkipHeight(w - 1);
    if s == t || (s > t && !(p < s - 2 && p >= t)) then s else w - 1
  }

  /** How many turns the loop takes from height w to height t. */
  function Steps(w: nat, t: nat): nat
    decreases w
  {
    if w <= t then 0 else 1 + Steps(Jump(w, t), t)
  }

  lemma {:induction false} Turn(w: nat, t: nat)
    requires t < w
    ensures Steps(w, t) == 1 + Steps(Jump(w, t), t)
  {
  }

  lemma {:induction false} NextTurn(w: nat, t: nat)
    requires t < w
    ensures var s, p := SkipHeight(w), SkipHeight(w - 1);
      Steps(w, t) == 1 + Steps(if s == t || (s > t && !(p < s - 2 && p >= t)) then s else w - 1, t)
  {
    hide SkipHeight;
  }

  lemma {:induction false} JumpFrom(w: nat, t: nat, s: nat, p: nat)
    requires t < w && s == SkipHeight(w) && p == SkipHeight(w - 1)
    ensures s < t || (s > t && t <= p < s - 2) ==> Jump(w, t) == w - 1
    ensures s == t || (s > t && (p < t || p >= s - 2)) ==> Jump(w, t) == s
  {
  }

  // --------------------------------------------------------------------- the tree

  /** CBlockIndex: a block's parent, height and time are set when it is entered, pskip afterwards. */
  class BlockIndex {
    const pprev: BlockIndex?
    const nHeight: nat
    const nTime: int
    var pskip: BlockIndex?

    constructor (parent: BlockIndex?, time: int)
      ensures pprev == parent && nTime == time && pskip == null
      ensures nHeight == if parent == null then 0 else parent.nHeight + 1
    {
      pprev, nTime, pskip := parent, time, null;
      nHeight := if parent == null then 0 else parent.nHeight + 1;
    }
  }

  /** Heights count the blocks down to a genesis block. */
  ghost predicate Linked(b: BlockIndex)
    decreases b.nHeight
  {
    if b.pprev == null then b.nHeight == 0 else b.nHeight == b.pprev.nHeight + 1 && Linked(b.pprev)
  }

  /** The block at height h found by following pprev. */
  ghost function Ancestor(b: BlockIndex, h: nat): (r: BlockIndex)
    requires Linked(b) && h <= b.nHeight
    ensures Linked(r) && r.nHeight == h
    decreases b.nHeight
  {
    if b.nHeight == h then b else Ancestor(b.pprev, h)
  }

  lemma {:induction false} AncestorOfAncestor(b: BlockIndex, g: nat, h: nat)
    requires Linked(b) && h <= g <= b.nHeight
    ensures Ancestor(Ancestor(b, g), h) == Ancestor(b, h)
    decreases b.nHeight
  {
    if b.nHeight != g {
      AncestorOfAncestor(b.pprev, g, h);
    }
  }

  lemma {:induction false} AncestorStep(b: BlockIndex, h: nat)
    requires Linked(b) && h < b.nHeight
    ensures Ancestor(b, h + 1).pprev == Ancestor(b, h)
    decreases b.nHeight
  {
    if b.nHeight != h + 1 {
      AncestorStep(b.pprev, h);
    }
  }

  /** A set of blocks closed under parents whose skip pointers, where set, were set by BuildSkip. */
  ghost predicate Built(nodes: set<BlockIndex>)
    reads nodes
  {
    forall b :: b in nodes ==>
      Linked(b) && (b.pprev != null ==> b.pprev in nodes) &&
      (b.pskip != null ==> b.nHeight > 0 && b.pskip in nodes && b.pskip == Ancestor(b, SkipHeight(b.nHeight)))
  }

  lemma {:induction false} AncestorInside(nodes: set<BlockIndex>, b: BlockIndex, h: nat)
    requires Built(nodes) && b in nodes && h <= b.nHeight
    ensures Ancestor(b, h) in nodes
    decreases b.nHeight
  {
    if b.nHeight != h {
      AncestorInside(nodes, b.pprev, h);
    }
  }

  /** Every block but a genesis block has its skip pointer. */
  ghost predicate Skipped(nodes: set<BlockIndex>)
    reads nodes
  {
    forall b :: b in nodes && b.nHeight > 0 ==> b.pskip != null
  }

  /** GetAncestor: the skip pointers lead where the walk along pprev leads, in so many turns. */
  method GetAncestor(b: BlockIndex, height: int, ghost nodes: set<BlockIndex>)
    returns (r: BlockIndex?, ghost turns: nat)
    requires Built(nodes) && b in nodes
    ensures r == null <==> height > b.nHeight || height < 0
    ensures r != null ==> r in nodes && r == Ancestor(b, height)
    ensures r != null && Skipped(nodes) ==> turns == Steps(b.nHeight, height)
  {
    hide *;
    turns := 0;
    if height > b.nHeight || height < 0 {
      return null, 0;
    }
    var walk := b;
    var heightWalk := b.nHeight;
    ghost var full := Skipped(nodes);
    SelfAncestor(nodes, b);
    while heightWalk > height
      invariant height <= heightWalk <= b.nHeight && walk in nodes && walk == Ancestor(b, heightWalk)
      invariant full ==> turns + Steps(heightWalk, height) == Steps(b.nHeight, height)
      decreases heightWalk
    {
      var heightSkip := SkipHeight(heightWalk);
      var heightSkipPrev := SkipHeight(heightWalk - 1);
      NextTurn(heightWalk, height);
      HasSkip(nodes, walk);
      turns := turns + 1;
      if walk.pskip != null && (heightSkip == height ||
         (heightSkip > height && !(heightSkipPrev < heightSkip - 2 && heightSkipPrev >= height)))
      {
        SkipLeads(nodes, b, walk, heightWalk);
        walk := walk.pskip;
        heightWalk := heightSkip;
      } else {
        PrevLeads(nodes, b, walk, heightWalk);
        assert walk.pprev != null;
        walk := walk.pprev;
        heightWalk := heightWalk - 1;
      }
    }
    r := walk;
    Turned(height);
  }

  lemma {:induction false} Turned(t: nat)
    ensures Steps(t, t) == 0
  {
  }

  lemma {:induction false} HasSkip(nodes: set<BlockIndex>, b: BlockIndex)
    requires b in nodes
    ensures Skipped(nodes) && b.nHeight > 0 ==> b.pskip != null
  {
  }

  lemma {:induction false} SelfAncestor(nodes: set<BlockIndex>, b: BlockIndex)
    requires Built(nodes) && b in nodes
    ensures Linked(b) && Ancestor(b, b.nHeight) == b
  {
  }

  lemma {:induction false} SkipLeads(nodes: set<BlockIndex>, b: BlockIndex, walk: BlockIndex, g: nat)
    requires Built(nodes) && b in nodes && walk in nodes && Linked(b) && g <= b.nHeight && walk == Ancestor(b, g) &&
      walk.pskip != null
    ensures g > 0 && walk.pskip in nodes && walk.pskip == Ancestor(b, SkipHeight(g))
  {
    AncestorOfAncestor(b, g, SkipHeight(g));
  }

  lemma {:induction false} PrevLeads(nodes: set<BlockIndex>, b: BlockIndex, walk: BlockIndex, g: nat)
    requires Built(nodes) && b in nodes && walk in nodes && Linked(b) && 0 < g <= b.nHeight && walk == Ancestor(b, g)
    ensures walk.pprev != null && walk.pprev in nodes && walk.pprev == Ancestor(b, g - 1)
  {
    AncestorStep(b, g - 1);
  }

  lemma {:induction false} NoPrev(nodes: set<BlockIndex>, b: BlockIndex, walk: BlockIndex)
    requires Built(nodes) && b in nodes && Linked(b) && walk == Ancestor(b, 0)
    ensures walk.pprev == null
  {
  }

  /** BuildSkip keeps every skip pointer what it should be. */
  method BuildSkip(b: BlockIndex, ghost nodes: set<BlockIndex>)
    requires Built(nodes) && b in nodes
    modifies b`pskip
    ensures Built(nodes)
    ensures b.pskip == if b.pprev == null then old(b.pskip) else Ancestor(b, SkipHeight(b.nHeight))
  {
    if b.pprev != null {
      var r, _ := GetAncestor(b.pprev, SkipHeight(b.nHeight), nodes);
      b.pskip := r;
    }
  }

  // ----------------------------------------------------- last common ancestor

  /** a is b or one of its ancestors. */
  ghost predicate Below(a: BlockIndex, b: BlockIndex) {
    Linked(b) && a.nHeight <= b.nHeight && a == Ancestor(b, a.nHeight)
  }

  /** Branches that meet stay together. */
  lemma {:induction false} MeetOnce(a: BlockIndex, b: BlockIndex, g: nat, h: nat)
    requires Linked(a) && Linked(b) && h <= g <= a.nHeight && g <= b.nHeight && Ancestor(a, g) == Ancestor(b, g)
    ensures Ancestor(a, h) == Ancestor(b, h)
  {
    AncestorOfAncestor(a, g, h);
    AncestorOfAncestor(b, g, h);
  }

  /** FindLastCommonAncestorBlockIndex: the highest block both have, or none; the final assertion
      holds whether or not the branches meet. */
  method FindLastCommonAncestor(pa: BlockIndex, pb: BlockIndex, ghost nodes: set<BlockIndex>) returns (r: BlockIndex?)
    requires Built(nodes) && pa in nodes && pb in nodes
    ensures r != null ==> r in nodes && Below(r, pa) && Below(r, pb)
    ensures forall c: BlockIndex :: c in nodes && Below(c, pa) && Below(c, pb) ==> r != null && c.nHeight <= r.nHeight
  {
    hide Built, Ancestor;
    SelfAncestor(nodes, pa);
    SelfAncestor(nodes, pb);
    var a: BlockIndex?, b: BlockIndex? := pa, pb;
    ghost var turns;
    if pa.nHeight > pb.nHeight {
      a, turns := GetAncestor(pa, pb.nHeight, nodes);
    } else if pb.nHeight > pa.nHeight {
      b, turns := GetAncestor(pb, pa.nHeight, nodes);
    }
    ghost var h := if pa.nHeight < pb.nHeight then pa.nHeight else pb.nHeight;
    ghost var top := h;
    while a != b && a != null && b != null
      invariant -1 <= h <= top <= pa.nHeight && top <= pb.nHeight
      invariant h >= 0 ==>
        a != null && b != null && a in nodes && b in nodes && a == Ancestor(pa, h) && b == Ancestor(pb, h)
      invariant h < 0 ==> a == null && b == null
      invariant forall g :: h < g <= top ==> Ancestor(pa, g) != Ancestor(pb, g)
      decreases h
    {
      if h > 0 {
        PrevLeads(nodes, pa, a, h);
        PrevLeads(nodes, pb, b, h);
      } else {
        NoPrev(nodes, pa, a);
        NoPrev(nodes, pb, b);
      }
      a := a.pprev;
      b := b.pprev;
      h := h - 1;
    }
    assert a == b;
    r := a;
    forall c: BlockIndex | c in nodes && Below(c, pa) && Below(c, pb)
      ensures r != null && c.nHeight <= r.nHeight
    {
      assert Ancestor(pa, c.nHeight) == Ancestor(pb, c.nHeight);
    }
  }
}
