/** SHAKE-128 as an arbitrary function from byte strings and lengths to byte strings. */
module LegRoastXof {

  type Byte = x: int | 0 <= x < 256
  type Bytes = seq<Byte>

  const SEED_BYTES := 16
  const HASH_BYTES := 32

  /** An extendable-output function; only that it is a function, and yields as many bytes
      as asked for, is ever used. */
  datatype Xof = Xof(f: (Bytes, nat) -> Bytes) {

    /** LR_EXPAND */
    function Expand(data: Bytes, n: nat): (r: Bytes)
      ensures |r| == n
    {
      var s := f(data, n);
      if |s| == n then s else seq(n, i => 0)
    }

    /** LR_HASH */
    function Hash(data: Bytes): (r: Bytes)
      ensures |r| == HASH_BYTES
    {
      Expand(data, HASH_BYTES)
    }
  }

  /** A seed of SEED_BYTES bytes. */
  datatype Seed = Seed(bytes: Bytes)
}

/** The heap-indexed binary tree of seeds from which LegRoast derives the parties' randomness,
    and the puncturing of it that reveals every leaf but one. */
module LegRoastSeedTree {
  import opened Numbers
  import opened LegRoastField
  import opened LegRoastXof

  const ZERO := Seed([0, 0, 0, 0, 0, 0, 0, 0, 0, 0, 0, 0, 0, 0, 0, 0])

  function Parent(i: nat): nat
    requires i > 0
  {
    (i - 1) / 2
  }

  function Sibling(i: nat): nat
    requires i > 0
  {
    if i % 2 == 1 then i + 1 else i - 1
  }

  /** The left (odd) or right (even) child seed i of a seed. */
  function Child(xof: Xof, seed: Seed, i: nat): Seed {
    var pair := xof.Expand(seed.bytes, 2 * SEED_BYTES);
    Seed(if i % 2 == 1 then pair[..SEED_BYTES] else pair[SEED_BYTES..])
  }

  /** The seed at heap index i of the tree grown from a root seed. */
  ghost function Node(xof: Xof, root: Seed, i: nat): Seed {
    if i == 0 then root else Child(xof, Node(xof, root, Parent(i)), i)
  }

  /** A tree with the children of node i overwritten from node i. */
  ghost function Expanded(xof: Xof, tree: seq<Seed>, i: nat): seq<Seed>
    requires 2 * i + 2 < |tree|
  {
    tree[2 * i + 1 := Child(xof, tree[i], 2 * i + 1)][2 * i + 2 := Child(xof, tree[i], 2 * i + 2)]
  }

  /** The first n nodes are those of the tree grown from root. */
  ghost predicate Grown(xof: Xof, root: Seed, tree: seq<Seed>, n: nat) {
    n <= |tree| && forall i :: 0 <= i < n ==> tree[i] == Node(xof, root, i)
  }

  lemma NodeChildren(xof: Xof, root: Seed, i: nat)
    ensures Node(xof, root, 0) == root
    ensures Node(xof, root, 2 * i + 1) == Child(xof, Node(xof, root, i), 2 * i + 1)
    ensures Node(xof, root, 2 * i + 2) == Child(xof, Node(xof, root, i), 2 * i + 2)
  {
  }

  lemma GrowStep(xof: Xof, root: Seed, tree: seq<Seed>, i: nat)
    requires 2 * i + 2 < |tree| && Grown(xof, root, tree, 2 * i + 1)
    ensures Grown(xof, root, Expanded(xof, tree, i), 2 * i + 3)
  {
    hide Child, Node;
    NodeChildren(xof, root, i);
  }

  /** LR_EXPAND of node i over its two adjacent children. */
  method ExpandNode(xof: Xof, tree: array<Seed>, i: nat)
    requires 2 * i + 2 < tree.Length
    modifies tree
    ensures tree[..] == Expanded(xof, old(tree[..]), i)
  {
    var pair := xof.Expand(tree[i].bytes, 2 * SEED_BYTES);
    tree[2 * i + 1] := Seed(pair[..SEED_BYTES]);
    tree[2 * i + 2] := Seed(pair[SEED_BYTES..]);
  }

  /** generate_seed_tree */
  method GenerateSeedTree(xof: Xof, tree: array<Seed>, parties: nat)
    requires parties > 0 && tree.Length == 2 * parties - 1
    modifies tree
    ensures Grown(xof, old(tree[0]), tree[..], tree.Length)
  {
    ghost var root := tree[0];
    assert Grown(xof, root, tree[..], 1);
    hide Child, Node, Grown, Expanded;
    for i := 0 to parties - 1
      invariant Grown(xof, root, tree[..], 2 * i + 1)
    {
      GrowStep(xof, root, tree[..], i);
      ExpandNode(xof, tree, i);
    }
  }

  // ----------------------------------------------------------------- paths

  /** The distance of a heap index from the root. */
  ghost function Level(i: nat): nat {
    if i == 0 then 0 else 1 + Level(Parent(i))
  }

  /** Node i lies on the path from the root to node leaf. */
  ghost predicate OnPath(i: nat, leaf: nat) {
    i == leaf || (i < leaf && OnPath(i, Parent(leaf)))
  }

  lemma {:induction false} LevelRange(i: nat)
    ensures Exp2(Level(i)) - 1 <= i < 2 * Exp2(Level(i)) - 1
  {
    if i > 0 {
      LevelRange(Parent(i));
    }
  }

  lemma {:induction false} Exp2Less(j: nat, k: nat)
    requires j < k
    ensures 2 * Exp2(j) <= Exp2(k)
  {
    if j + 1 < k {
      Exp2Less(j, k - 1);
    }
  }

  /** The leaves of a tree with 2^depth leaves are exactly depth steps down. */
  lemma LeafLevel(i: nat, depth: nat)
    requires i < 2 * Exp2(depth) - 1
    ensures Level(i) <= depth
    ensures Level(i) == depth <==> Exp2(depth) - 1 <= i
  {
    LevelRange(i);
    if Level(i) > depth {
      Exp2Less(depth, Level(i));
    } else if Level(i) < depth {
      Exp2Less(Level(i), depth);
    }
  }

  /** A path has one node per level. */
  lemma {:induction false} PathUnique(a: nat, b: nat, leaf: nat)
    requires OnPath(a, leaf) && OnPath(b, leaf) && Level(a) == Level(b)
    ensures a == b
  {
    if a == leaf && b < leaf {
      PathLevel(b, leaf);
    } else if b == leaf && a < leaf {
      PathLevel(a, leaf);
    } else if a < leaf {
      PathUnique(a, b, Parent(leaf));
    }
  }

  lemma {:induction false} PathLevel(a: nat, leaf: nat)
    requires OnPath(a, leaf)
    ensures Level(a) <= Level(leaf)
    ensures a < leaf ==> Level(a) < Level(leaf)
  {
    if a < leaf {
      PathLevel(a, Parent(leaf));
    }
  }

  lemma {:induction false} PathParent(a: nat, leaf: nat)
    requires a > 0 && OnPath(a, leaf)
    ensures OnPath(Parent(a), leaf)
  {
    if a < leaf {
      PathParent(a, Parent(leaf));
    }
  }

  lemma {:induction false} RootOnPath(leaf: nat)
    ensures OnPath(0, leaf)
  {
    if leaf > 0 {
      RootOnPath(Parent(leaf));
    }
  }

  /** i hangs off the path: its parent is on it and i is not. */
  ghost predicate Hangs(i: nat, leaf: nat) {
    i > 0 && !OnPath(i, leaf) && OnPath(Parent(i), leaf)
  }

  /** On each level the one node hanging off the path is the sibling of the path node. */
  lemma HangingIsSibling(i: nat, a: nat, leaf: nat)
    requires a > 0 && OnPath(a, leaf) && Hangs(i, leaf) && Level(i) == Level(a)
    ensures i == Sibling(a)
  {
    PathParent(a, leaf);
    PathUnique(Parent(i), Parent(a), leaf);
  }

  lemma SiblingParent(a: nat)
    requires a > 0
    ensures Sibling(a) > 0 && Sibling(a) != a && Parent(Sibling(a)) == Parent(a)
    ensures Level(Sibling(a)) == Level(a) > 0
  {
  }

  lemma SiblingHangs(a: nat, leaf: nat)
    requires a > 0 && OnPath(a, leaf)
    ensures Hangs(Sibling(a), leaf) && Level(Sibling(a)) == Level(a)
  {
    hide OnPath;
    PathParent(a, leaf);
    SiblingParent(a);
    if OnPath(Sibling(a), leaf) {
      PathUnique(Sibling(a), a, leaf);
    }
  }

  // ------------------------------------------------------- releasing and refilling

  /** out holds, for each level below top, the seed hanging off the path to leaf there. */
  ghost predicate Released(tree: seq<Seed>, leaf: nat, out: seq<Seed>, top: int) {
    forall i :: 0 <= i < |tree| && Hangs(i, leaf) && top < Level(i) <= |out| ==> out[Level(i) - 1] == tree[i]
  }

  lemma ReleaseStep(tree: seq<Seed>, leaf: nat, out: seq<Seed>, index: nat)
    requires 0 < index && OnPath(index, leaf) && Sibling(index) < |tree| && Level(index) <= |out|
    requires Released(tree, leaf, out, Level(index))
    ensures Level(index) > 0
    ensures Released(tree, leaf, out[Level(index) - 1 := tree[Sibling(index)]], Level(index) - 1)
  {
    hide OnPath, Level;
    ParentLevel(index);
    forall i | 0 <= i < |tree| && Hangs(i, leaf) && Level(i) == Level(index)
      ensures i == Sibling(index)
    {
      HangingIsSibling(i, index, leaf);
    }
  }

  /** release_seeds: writes the siblings along the path, deepest last. */
  method ReleaseSeeds(tree: seq<Seed>, unopened: nat, depth: nat) returns (out: seq<Seed>)
    requires |tree| == 2 * Exp2(depth) - 1 && unopened < Exp2(depth)
    ensures |out| == depth && Released(tree, Exp2(depth) - 1 + unopened, out, 0)
  {
    var index: nat := unopened + Exp2(depth) - 1;
    ghost var leaf := index;
    LeafLevel(leaf, depth);
    var toReveal := depth - 1;
    out := seq(depth, i => ZERO);
    hide Exp2, Level, Released;
    NothingReleased(tree, leaf, out);
    while toReveal >= 0
      invariant -1 <= toReveal < depth == |out|
      invariant OnPath(index, leaf) && Level(index) == toReveal + 1
      invariant Released(tree, leaf, out, toReveal + 1)
    {
      hide OnPath;
      ParentLevel(index);
      SiblingInTree(index, depth);
      ReleaseStep(tree, leaf, out, index);
      PathParent(index, leaf);
      out := out[toReveal := tree[Sibling(index)]];
      index := Parent(index);
      toReveal := toReveal - 1;
    }
  }

  lemma NothingReleased(tree: seq<Seed>, leaf: nat, out: seq<Seed>)
    ensures Released(tree, leaf, out, |out|)
  {
  }

  lemma ParentLevel(a: nat)
    ensures Level(a) == if a == 0 then 0 else Level(Parent(a)) + 1
  {
  }

  lemma SiblingInTree(a: nat, depth: nat)
    requires 0 < a && Level(a) <= depth
    ensures Sibling(a) < 2 * Exp2(depth) - 1
  {
    hide Exp2;
    LevelRange(Sibling(a));
    SiblingParent(a);
    if Level(a) < depth {
      Exp2Less(Level(a), depth);
    }
  }

  /** The tree fill_down rebuilds from revealed seeds: zero along the path, the revealed seed
      where a subtree hangs off it, and below that expanded from the parent unless that is zero. */
  ghost function Filled(xof: Xof, seeds: seq<Seed>, leaf: nat, i: nat): Seed {
    if i == 0 || OnPath(i, leaf) then ZERO
    else if OnPath(Parent(i), leaf) then (if 1 <= Level(i) <= |seeds| then seeds[Level(i) - 1] else ZERO)
    else if Filled(xof, seeds, leaf, Parent(i)) == ZERO then ZERO
    else Child(xof, Filled(xof, seeds, leaf, Parent(i)), i)
  }

  /** The tree after only the revealed seeds were written. */
  ghost function Inserted(seeds: seq<Seed>, leaf: nat, i: nat): Seed {
    if Hangs(i, leaf) && 1 <= Level(i) <= |seeds| then seeds[Level(i) - 1] else ZERO
  }

  /** Levels below top hold the revealed seeds, everything else is zero. */
  ghost predicate InsertedBelow(tree: seq<Seed>, leaf: nat, seeds: seq<Seed>, top: int) {
    forall i :: 0 <= i < |tree| ==> tree[i] == if Level(i) > top then Inserted(seeds, leaf, i) else ZERO
  }

  lemma InsertStep(tree: seq<Seed>, leaf: nat, seeds: seq<Seed>, index: nat)
    requires 0 < index && OnPath(index, leaf) && Sibling(index) < |tree| && Level(index) <= |seeds|
    requires InsertedBelow(tree, leaf, seeds, Level(index))
    ensures Level(index) > 0
    ensures InsertedBelow(tree[Sibling(index) := seeds[Level(index) - 1]], leaf, seeds, Level(index) - 1)
  {
    hide OnPath, Level;
    ParentLevel(index);
    SiblingHangs(index, leaf);
    var after := tree[Sibling(index) := seeds[Level(index) - 1]];
    forall i | 0 <= i < |after|
      ensures after[i] == if Level(i) > Level(index) - 1 then Inserted(seeds, leaf, i) else ZERO
    {
      if i != Sibling(index) && Hangs(i, leaf) && Level(i) == Level(index) {
        HangingIsSibling(i, index, leaf);
      }
    }
  }

  /** fill_down, first half: clears the tree and writes the revealed seeds beside the path to
      the unopened leaf. */
  method InsertSeeds(tree: array<Seed>, unopened: nat, depth: nat, seeds: seq<Seed>)
    requires tree.Length == 2 * Exp2(depth) - 1 && unopened < Exp2(depth) && |seeds| == depth
    modifies tree
    ensures InsertedBelow(tree[..], Exp2(depth) - 1 + unopened, seeds, 0)
  {
    var index: nat := unopened + Exp2(depth) - 1;
    ghost var leaf := index;
    LeafLevel(leaf, depth);
    ClearTree(tree);
    var toInsert := depth - 1;
    hide Exp2, Level, InsertedBelow;
    NothingInserted(tree[..], leaf, seeds, depth);
    while toInsert >= 0
      invariant -1 <= toInsert < depth
      invariant OnPath(index, leaf) && Level(index) == toInsert + 1
      invariant InsertedBelow(tree[..], leaf, seeds, toInsert + 1)
    {
      hide OnPath;
      ParentLevel(index);
      SiblingInTree(index, depth);
      InsertStep(tree[..], leaf, seeds, index);
      PathParent(index, leaf);
      tree[Sibling(index)] := seeds[toInsert];
      index := Parent(index);
      toInsert := toInsert - 1;
    }
  }

  lemma NothingInserted(tree: seq<Seed>, leaf: nat, seeds: seq<Seed>, depth: nat)
    requires |seeds| == depth && forall i :: 0 <= i < |tree| ==> tree[i] == ZERO
    ensures InsertedBelow(tree, leaf, seeds, depth)
  {
  }

  method ClearTree(tree: array<Seed>)
    modifies tree
    ensures forall i :: 0 <= i < tree.Length ==> tree[i] == ZERO
  {
    for i := 0 to tree.Length
      invariant forall j :: 0 <= j < i ==> tree[j] == ZERO
    {
      tree[i] := ZERO;
    }
  }

  /** The first n nodes are refilled, the others still as inserted. */
  ghost predicate PartlyFilled(xof: Xof, seeds: seq<Seed>, leaf: nat, tree: seq<Seed>, n: nat) {
    forall i :: 0 <= i < |tree| ==>
      tree[i] == if i < n then Filled(xof, seeds, leaf, i) else Inserted(seeds, leaf, i)
  }

  lemma FillChild(xof: Xof, seeds: seq<Seed>, leaf: nat, i: nat, c: nat)
    requires c > 0 && Parent(c) == i
    ensures Filled(xof, seeds, leaf, c) ==
            if Filled(xof, seeds, leaf, i) == ZERO then Inserted(seeds, leaf, c)
            else Child(xof, Filled(xof, seeds, leaf, i), c)
  {
    if OnPath(c, leaf) {
      PathParent(c, leaf);
    }
  }

  /** Expanding node i unless it is zero refills its two children. */
  lemma FillStep(xof: Xof, seeds: seq<Seed>, leaf: nat, tree: seq<Seed>, i: nat)
    requires 2 * i + 2 < |tree| && PartlyFilled(xof, seeds, leaf, tree, 2 * i + 1)
    ensures tree[0] == ZERO
    ensures PartlyFilled(xof, seeds, leaf, if tree[i] == ZERO then tree else Expanded(xof, tree, i), 2 * i + 3)
  {
    hide Child, OnPath, Inserted;
    FillChild(xof, seeds, leaf, i, 2 * i + 1);
    FillChild(xof, seeds, leaf, i, 2 * i + 2);
  }

  /** fill_down, second half: expands downwards, skipping every node that is all zero. */
  method FillDown(xof: Xof, tree: array<Seed>, unopened: nat, depth: nat, seeds: seq<Seed>)
    requires tree.Length == 2 * Exp2(depth) - 1 && unopened < Exp2(depth) && |seeds| == depth
    modifies tree
    ensures PartlyFilled(xof, seeds, Exp2(depth) - 1 + unopened, tree[..], tree.Length)
  {
    ghost var leaf := Exp2(depth) - 1 + unopened;
    InsertSeeds(tree, unopened, depth, seeds);
    OnlyRootFilled(xof, seeds, leaf, tree[..]);
    hide Child, Exp2, PartlyFilled, Expanded, InsertedBelow;
    for i := 0 to Exp2(depth) - 1
      invariant PartlyFilled(xof, seeds, leaf, tree[..], 2 * i + 1)
    {
      FillStep(xof, seeds, leaf, tree[..], i);
      if tree[0] != tree[i] {
        ExpandNode(xof, tree, i);
      }
    }
  }

  lemma OnlyRootFilled(xof: Xof, seeds: seq<Seed>, leaf: nat, tree: seq<Seed>)
    requires InsertedBelow(tree, leaf, seeds, 0)
    ensures PartlyFilled(xof, seeds, leaf, tree, 1)
  {
    RootOnPath(leaf);
  }

  // ------------------------------------------------------------------ puncturing

  /** seeds are what release_seeds reveals of the tree grown from root. */
  ghost predicate SeedsOf(xof: Xof, root: Seed, leaf: nat, depth: nat, seeds: seq<Seed>) {
    |seeds| == depth &&
    forall i :: 0 <= i < 2 * Exp2(depth) - 1 && Hangs(i, leaf) && Level(i) <= depth ==>
      seeds[Level(i) - 1] == Node(xof, root, i)
  }

  /** fill_down mistakes an all-zero seed for an unknown one; this is harmless only when such
      a seed off the path has zero children anyway. */
  ghost predicate NoZeroLost(xof: Xof, root: Seed, leaf: nat, n: nat) {
    forall i :: 0 < i < n && !OnPath(i, leaf) && !OnPath(Parent(i), leaf) && Node(xof, root, Parent(i)) == ZERO ==>
      Node(xof, root, i) == ZERO
  }

  /** Off the path, the refilled tree is the original tree. */
  ghost predicate Rebuilt(xof: Xof, root: Seed, leaf: nat, seeds: seq<Seed>, n: nat) {
    forall i :: 0 <= i < n && !OnPath(i, leaf) ==> Filled(xof, seeds, leaf, i) == Node(xof, root, i)
  }

  lemma {:induction false} RebuiltAt(xof: Xof, root: Seed, leaf: nat, depth: nat, seeds: seq<Seed>, i: nat)
    requires SeedsOf(xof, root, leaf, depth, seeds)
    requires NoZeroLost(xof, root, leaf, 2 * Exp2(depth) - 1)
    requires i < 2 * Exp2(depth) - 1 && !OnPath(i, leaf)
    ensures Filled(xof, seeds, leaf, i) == Node(xof, root, i)
  {
    hide Child, Exp2;
    LeafLevel(i, depth);
    if i == 0 {
      RootOnPath(leaf);
    } else if !OnPath(Parent(i), leaf) {
      RebuiltAt(xof, root, leaf, depth, seeds, Parent(i));
    }
  }

  /** Puncturing, exactly: the revealed seeds rebuild every node off the path to the unopened
      leaf if and only if no zero seed is mistaken for an unknown one; the path stays zero. */
  lemma Puncturing(xof: Xof, root: Seed, leaf: nat, depth: nat, seeds: seq<Seed>)
    requires SeedsOf(xof, root, leaf, depth, seeds)
    ensures forall i :: 0 <= i < 2 * Exp2(depth) - 1 && OnPath(i, leaf) ==> Filled(xof, seeds, leaf, i) == ZERO
    ensures Rebuilt(xof, root, leaf, seeds, 2 * Exp2(depth) - 1) <==> NoZeroLost(xof, root, leaf, 2 * Exp2(depth) - 1)
  {
    hide Child, Exp2;
    if NoZeroLost(xof, root, leaf, 2 * Exp2(depth) - 1) {
      forall i | 0 <= i < 2 * Exp2(depth) - 1 && !OnPath(i, leaf)
        ensures Filled(xof, seeds, leaf, i) == Node(xof, root, i)
      {
        RebuiltAt(xof, root, leaf, depth, seeds, i);
      }
    }
  }

  /** No seed between node i and the path is zero, so that fill_down gets down to it. */
  ghost predicate Reached(xof: Xof, root: Seed, leaf: nat, i: nat) {
    i > 0 && (OnPath(Parent(i), leaf) || (Node(xof, root, Parent(i)) != ZERO && Reached(xof, root, leaf, Parent(i))))
  }

  /** Node by node: what is not reached stays zero. */
  lemma {:induction false} FilledExactly(xof: Xof, root: Seed, leaf: nat, depth: nat, seeds: seq<Seed>, i: nat)
    requires SeedsOf(xof, root, leaf, depth, seeds)
    requires i < 2 * Exp2(depth) - 1 && !OnPath(i, leaf)
    ensures Filled(xof, seeds, leaf, i) == if Reached(xof, root, leaf, i) then Node(xof, root, i) else ZERO
  {
    hide Child, Exp2;
    LeafLevel(i, depth);
    if i == 0 {
      RootOnPath(leaf);
    } else if !OnPath(Parent(i), leaf) {
      FilledExactly(xof, root, leaf, depth, seeds, Parent(i));
    }
  }

  lemma {:induction false} NonzeroReached(xof: Xof, root: Seed, leaf: nat, n: nat, i: nat)
    requires forall k :: 0 <= k && !OnPath(k, leaf) && 2 * k + 1 < n ==> Node(xof, root, k) != ZERO
    requires i < n && !OnPath(i, leaf)
    ensures Reached(xof, root, leaf, i)
  {
    hide Node, OnPath;
    if i == 0 {
      RootOnPath(leaf);
    } else if !OnPath(Parent(i), leaf) {
      NonzeroReached(xof, root, leaf, n, Parent(i));
    }
  }

  /** If no seed fill_down has to expand is zero, nothing is lost. */
  lemma NonzeroSeedsSuffice(xof: Xof, root: Seed, leaf: nat, n: nat)
    requires forall i :: 0 <= i < n && !OnPath(i, leaf) && 2 * i + 1 < n ==> Node(xof, root, i) != ZERO
    ensures NoZeroLost(xof, root, leaf, n)
  {
    forall i | 0 < i < n && !OnPath(Parent(i), leaf)
      ensures Node(xof, root, Parent(i)) != ZERO
    {
      assert 2 * Parent(i) + 1 < n;
    }
  }

  /** The leaf itself and the leaf level: an opened leaf is rebuilt, the unopened one is not. */
  lemma LeavesOffPath(i: nat, leaf: nat, depth: nat)
    requires Exp2(depth) - 1 <= i < 2 * Exp2(depth) - 1
    requires Exp2(depth) - 1 <= leaf < 2 * Exp2(depth) - 1
    ensures OnPath(i, leaf) <==> i == leaf
  {
    LeafLevel(i, depth);
    LeafLevel(leaf, depth);
    if OnPath(i, leaf) {
      PathLevel(i, leaf);
    }
  }

  function Repeat(b: Byte, n: nat): (r: Bytes)
    ensures |r| == n && forall i :: 0 <= i < n ==> r[i] == b
  {
    if n == 0 then [] else Repeat(b, n - 1) + [b]
  }

  /** An expansion under which a zero seed is lost: zero expands to ones, anything else to zeroes. */
  ghost function LossyXof(): Xof {
    Xof((data: Bytes, n: nat) => Repeat(if data == ZERO.bytes then 1 else 0, n))
  }

  lemma {:induction false} LossyExpand(data: Bytes, n: nat)
    ensures LossyXof().Expand(data, n) == Repeat(if data == ZERO.bytes then 1 else 0, n)
  {
    hide Repeat;
  }

  lemma {:induction false} LossyChild(s: Seed, i: nat)
    ensures |Child(LossyXof(), s, i).bytes| == SEED_BYTES
    ensures Child(LossyXof(), s, i).bytes[0] == if s == ZERO then 1 else 0
    ensures s != ZERO ==> Child(LossyXof(), s, i) == ZERO
  {
    LossyExpand(s.bytes, 2 * SEED_BYTES);
    hide LossyXof, Repeat;
  }

  /** Puncturing can fail: when the last of four parties stays unopened and the root is not zero,
      node 1 is a revealed zero seed whose child 3 is not rebuilt. */
  lemma {:induction false} PuncturingCanFail(root: Seed)
    requires root != ZERO
    ensures !NoZeroLost(LossyXof(), root, 6, 7)
  {
    var x := LossyXof();
    LossyChild(root, 1);
    LossyChild(ZERO, 3);
    hide Child, LossyXof;
    NodeChildren(x, root, 0);
    NodeChildren(x, root, 1);
    hide Node;
    assert Node(x, root, 1) == ZERO && Node(x, root, 3) != ZERO;
    assert Parent(6) == 2 && Parent(2) == 0 && Parent(3) == 1;
    assert !OnPath(1, 6) && !OnPath(3, 6);
  }
}
