/** Unspent transaction outputs, and what the entries of one write-back cache mean over the view
    below it. */
module CoinsLayer {
  import opened VarIntCodec

  /** A 256-bit transaction id. */
  datatype TxId = TxId(hash: nat)

  /** A shielded nullifier. */
  datatype Nullifier = Sprout(hash: nat) | Sapling(hash: nat)

  datatype TxOut = TxOut(value: int, script: seq<Byte>) {
    predicate IsNull() {
      value == -1
    }
  }

  const NULL_OUT := TxOut(-1, [])

  datatype Coins = Coins(coinBase: bool, vout: seq<TxOut>, height: int, version: int) {
    predicate IsPruned() {
      forall i :: 0 <= i < |vout| ==> vout[i].IsNull()
    }

    predicate IsAvailable(n: nat) {
      n < |vout| && !vout[n].IsNull()
    }

    /** No spent output at the end. */
    predicate Clean() {
      vout == [] || !vout[|vout| - 1].IsNull()
    }
  }

  const NO_COINS := Coins(false, [], 0, 0)

  // ----------------------------------------------------------- spending one output

  /** vout without the spent outputs at its end. */
  function Trim(vout: seq<TxOut>): (r: seq<TxOut>)
    ensures |r| <= |vout| && r == vout[..|r|]
    ensures forall i :: |r| <= i < |vout| ==> vout[i].IsNull()
    ensures r == [] || !r[|r| - 1].IsNull()
  {
    if vout != [] && vout[|vout| - 1].IsNull() then Trim(vout[..|vout| - 1]) else vout
  }

  /** CCoins::Cleanup */
  method Cleanup(c: Coins) returns (r: Coins)
    ensures r == c.(vout := Trim(c.vout))
  {
    var vout := c.vout;
    while |vout| > 0 && vout[|vout| - 1].IsNull()
      invariant Trim(vout) == Trim(c.vout)
      decreases |vout|
    {
      vout := vout[..|vout| - 1];
    }
    r := c.(vout := vout);
  }

  /** The coins with output n spent. */
  ghost function Without(c: Coins, n: nat): Coins
    requires n < |c.vout|
  {
    c.(vout := Trim(c.vout[n := NULL_OUT]))
  }

  /** CCoins::Spend */
  method Spend(c: Coins, n: nat) returns (ok: bool, r: Coins)
    ensures ok <==> c.IsAvailable(n)
    ensures r == if ok then Without(c, n) else c
  {
    if n >= |c.vout| || c.vout[n].IsNull() {
      return false, c;
    }
    r := c.(vout := c.vout[n := NULL_OUT]);
    r := Cleanup(r);
    ok := true;
  }

  lemma {:induction false} CleanPruned(c: Coins)
    requires c.Clean()
    ensures c.IsPruned() <==> c.vout == []
  {
    if c.vout != [] {
      assert !c.vout[|c.vout| - 1].IsNull();
    }
  }

  /** Cleaning up changes neither availability nor pruning. */
  lemma {:induction false} TrimKeeps(c: Coins)
    ensures c.(vout := Trim(c.vout)).Clean()
    ensures c.(vout := Trim(c.vout)).IsPruned() <==> c.IsPruned()
    ensures forall n: nat :: c.(vout := Trim(c.vout)).IsAvailable(n) <==> c.IsAvailable(n)
  {
    var t := Trim(c.vout);
    CleanPruned(c.(vout := t));
  }

  /** Spending makes exactly that output unavailable and keeps every other output. */
  lemma {:induction false} SpendEffect(c: Coins, n: nat)
    requires c.IsAvailable(n)
    ensures Without(c, n).Clean()
    ensures forall m: nat :: Without(c, n).IsAvailable(m) <==> c.IsAvailable(m) && m != n
    ensures forall m: nat :: Without(c, n).IsAvailable(m) ==> Without(c, n).vout[m] == c.vout[m]
  {
    var t := c.(vout := c.vout[n := NULL_OUT]);
    TrimKeeps(t);
    forall m: nat
      ensures Without(c, n).IsAvailable(m) <==> c.IsAvailable(m) && m != n
      ensures Without(c, n).IsAvailable(m) ==> Without(c, n).vout[m] == c.vout[m]
    {
      assert t.IsAvailable(m) <==> c.IsAvailable(m) && m != n;
    }
  }

  // ---------------------------------------------------------------- cache entries

  /** A cached CCoins; isDirty: may differ from the view below; isFresh: the view below has none. */
  datatype Entry = Entry(coins: Coins, isDirty: bool, isFresh: bool)

  datatype NullEntry = NullEntry(entered: bool, isDirty: bool)

  type View = map<TxId, Coins>

  /** What a view shows for k; pruned coins count as absent. */
  ghost predicate Shows(v: View, k: TxId, c: Coins) {
    if c.IsPruned() then k !in v else k in v && v[k] == c
  }

  ghost predicate SameAt(v: View, w: View, k: TxId) {
    (k in v <==> k in w) && (k in v ==> v[k] == w[k])
  }

  /** Entry e for k fits between the view below and the view shown. */
  ghost predicate EntryOk(e: Entry, k: TxId, below: View, v: View) {
    Shows(v, k, e.coins) && (e.isFresh ==> k !in below) && (!e.isDirty ==> SameAt(v, below, k))
  }

  /** A cache of these entries over the view below shows the view v. */
  ghost predicate LayerOk(cache: map<TxId, Entry>, below: View, v: View) {
    (forall k :: k in cache ==> EntryOk(cache[k], k, below, v)) &&
    (forall k :: k !in cache ==> SameAt(v, below, k))
  }

  /** Entries that are not fresh stand for one in the cache below. */
  ghost predicate LinkOk(cache: map<TxId, Entry>, parent: map<TxId, Entry>) {
    forall k :: k in cache && !cache[k].isFresh ==> k in parent
  }

  ghost predicate NullLayerOk(cache: map<Nullifier, NullEntry>, below: set<Nullifier>, spent: set<Nullifier>) {
    (forall n :: n in cache ==>
      (cache[n].entered <==> n in spent) && (!cache[n].isDirty ==> (n in spent <==> n in below))) &&
    (forall n :: n !in cache ==> (n in spent <==> n in below))
  }

  /** The view after k is set to c. */
  ghost function Put(v: View, k: TxId, c: Coins): View {
    if c.IsPruned() then v - {k} else v[k := c]
  }

  lemma {:induction false} PutShows(v: View, k: TxId, c: Coins)
    ensures Shows(Put(v, k, c), k, c)
    ensures forall j :: j != k ==> SameAt(Put(v, k, c), v, j)
  {
  }

  /** Overwriting an entry, marked dirty, changes the view at its key only. */
  lemma {:induction false} WriteEntry(cache: map<TxId, Entry>, below: View, v: View, k: TxId, e: Entry)
    requires LayerOk(cache, below, v) && e.isDirty && (e.isFresh ==> k !in below)
    ensures LayerOk(cache[k := e], below, Put(v, k, e.coins))
  {
    PutShows(v, k, e.coins);
  }

  /** Erasing a fresh pruned entry changes nothing. */
  lemma {:induction false} EraseEntry(cache: map<TxId, Entry>, below: View, v: View, k: TxId)
    requires LayerOk(cache, below, v) && k in cache && cache[k].isFresh && cache[k].coins.IsPruned()
    ensures LayerOk(cache - {k}, below, v)
  {
  }

  /** Caching what the view below shows changes nothing. */
  lemma {:induction false} CacheEntry(cache: map<TxId, Entry>, below: View, v: View, k: TxId, c: Coins, isDirty: bool)
    requires LayerOk(cache, below, v) && k !in cache && Shows(below, k, c)
    ensures LayerOk(cache[k := Entry(c, isDirty, c.IsPruned())], below, v)
  {
  }

  /** ModifyNewCoins marks its entry fresh without looking below. The layer still shows the view
      with k cleared if and only if the view below has no coins at k: that the view itself shows
      none is not enough. */
  lemma {:induction false} NewEntryExact(cache: map<TxId, Entry>, below: View, v: View, k: TxId)
    requires LayerOk(cache, below, v)
    ensures LayerOk(cache[k := Entry(NO_COINS, true, true)], below, Put(v, k, NO_COINS)) <==> k !in below
  {
    if k !in below {
      WriteEntry(cache, below, v, k, Entry(NO_COINS, true, true));
    } else {
      assert cache[k := Entry(NO_COINS, true, true)][k].isFresh;
    }
  }

  /** The failing case: the parent still has coins the child spent; recreating and spending them
      in the child erases the child's entry, and the parent's coins reappear. */
  lemma {:induction false} ReappearingCoins(k: TxId, c: Coins)
    requires !c.IsPruned()
    ensures
      var below: View := map[k := c];
      var spent := map[k := Entry(NO_COINS, true, false)];
      && LayerOk(spent, below, map[])
      && !LayerOk(spent[k := Entry(NO_COINS, true, true)] - {k}, below, map[])
  {
    var after := map[k := Entry(NO_COINS, true, false)][k := Entry(NO_COINS, true, true)] - {k};
    assert k !in after;
  }

  // ------------------------------------------------- writing a child's entries back

  /** The parent's entries after it takes over the child's entry e for k. */
  function Merged(cache: map<TxId, Entry>, k: TxId, e: Entry): map<TxId, Entry> {
    if !e.isDirty then cache
    else if k !in cache then
      if e.coins.IsPruned() then cache else cache[k := Entry(e.coins, true, true)]
    else if cache[k].isFresh && e.coins.IsPruned() then cache - {k}
    else cache[k := Entry(e.coins, true, cache[k].isFresh)]
  }

  /** The parent's view after that. */
  ghost function MergedView(v: View, k: TxId, e: Entry): View {
    if e.isDirty then Put(v, k, e.coins) else v
  }

  /** The child's other entries still fit over the parent's new view. */
  lemma {:induction false} MergeRest(rest: map<TxId, Entry>, v: View, w: View, k: TxId)
    requires LayerOk(rest, v, w) && k in rest
    ensures LayerOk(rest - {k}, MergedView(v, k, rest[k]), w)
  {
    var e := rest[k];
    PutShows(v, k, e.coins);
    hide Put;
    var u := MergedView(v, k, e);
    assert EntryOk(e, k, v, w);
    forall j | j !in rest - {k}
      ensures SameAt(w, u, j)
    {
    }
    forall j | j in rest - {k}
      ensures EntryOk((rest - {k})[j], j, u, w)
    {
      assert EntryOk(rest[j], j, v, w);
      assert SameAt(u, v, j);
    }
  }

  /** The parent shows its new view. Without a parent entry the child's must be fresh: the
      assertion in the code holds, and dropping a pruned entry loses nothing. */
  lemma {:induction false} MergeShows(cache: map<TxId, Entry>, below: View, v: View, k: TxId, e: Entry, w: View)
    requires LayerOk(cache, below, v) && EntryOk(e, k, v, w) && (!e.isFresh ==> k in cache)
    ensures LayerOk(Merged(cache, k, e), below, MergedView(v, k, e))
  {
    hide LayerOk, Shows, SameAt;
    if e.isDirty {
      if k !in cache {
        assert k !in below by { UncachedAbsent(cache, below, v, k); }
        if e.coins.IsPruned() {
          PutAbsent(v, k, e.coins);
        } else {
          WriteEntry(cache, below, v, k, Entry(e.coins, true, true));
        }
      } else {
        FreshAbsent(cache, below, v, k);
        WriteEntry(cache, below, v, k, Entry(e.coins, true, cache[k].isFresh));
        if cache[k].isFresh && e.coins.IsPruned() {
          EraseEntry(cache[k := Entry(e.coins, true, true)], below, Put(v, k, e.coins), k);
          assert cache[k := Entry(e.coins, true, true)] - {k} == cache - {k};
        }
      }
    }
  }

  lemma {:induction false} UncachedAbsent(cache: map<TxId, Entry>, below: View, v: View, k: TxId)
    requires LayerOk(cache, below, v) && k !in cache && k !in v
    ensures k !in below
  {
    assert SameAt(v, below, k);
  }

  lemma {:induction false} FreshAbsent(cache: map<TxId, Entry>, below: View, v: View, k: TxId)
    requires LayerOk(cache, below, v) && k in cache
    ensures cache[k].isFresh ==> k !in below
  {
    assert EntryOk(cache[k], k, below, v);
  }

  lemma {:induction false} PutAbsent(v: View, k: TxId, c: Coins)
    requires k !in v && c.IsPruned()
    ensures Put(v, k, c) == v
  {
  }

  /** Merging neither breaks the links of the child's other entries nor the parent's own. */
  lemma {:induction false} MergeLinks(rest: map<TxId, Entry>, cache: map<TxId, Entry>, grand: map<TxId, Entry>, k: TxId)
    requires LinkOk(rest, cache) && k in rest && LinkOk(cache, grand)
    ensures LinkOk(rest - {k}, Merged(cache, k, rest[k])) && LinkOk(Merged(cache, k, rest[k]), grand)
  {
  }

  /** With no entries left, the parent shows the child's view. */
  lemma {:induction false} EmptyLayer(v: View, w: View)
    requires LayerOk(map[], v, w)
    ensures v == w
  {
    forall k
      ensures (k in v <==> k in w) && (k in v ==> v[k] == w[k])
    {
      assert SameAt(w, v, k);
    }
    assert v.Keys == w.Keys;
  }

  /** A cache without entries shows the view below. */
  lemma {:induction false} NoEntries(v: View, spent: set<Nullifier>)
    ensures LayerOk(map[], v, v) && NullLayerOk(map[], spent, spent)
  {
  }

  /** The parent's nullifiers after it takes over the child's entry e for n. */
  function NullMerged(cache: map<Nullifier, NullEntry>, n: Nullifier, e: NullEntry): map<Nullifier, NullEntry> {
    if !e.isDirty then cache
    else if n !in cache then cache[n := NullEntry(e.entered, true)]
    else if cache[n].entered != e.entered then cache[n := NullEntry(e.entered, true)]
    else cache
  }

  /** The spent nullifiers after n is set or cleared. */
  ghost function SetTo(spent: set<Nullifier>, n: Nullifier, entered: bool): set<Nullifier> {
    if entered then spent + {n} else spent - {n}
  }

  ghost function NullMergedView(spent: set<Nullifier>, n: Nullifier, e: NullEntry): set<Nullifier> {
    if e.isDirty then SetTo(spent, n, e.entered) else spent
  }

  lemma {:induction false} NullRest(rest: map<Nullifier, NullEntry>, v: set<Nullifier>, w: set<Nullifier>, n: Nullifier)
    requires NullLayerOk(rest, v, w) && n in rest
    ensures NullLayerOk(rest - {n}, NullMergedView(v, n, rest[n]), w)
  {
  }

  lemma {:induction false} NullShows(cache: map<Nullifier, NullEntry>, below: set<Nullifier>, v: set<Nullifier>,
          n: Nullifier, e: NullEntry)
    requires NullLayerOk(cache, below, v)
    ensures NullLayerOk(NullMerged(cache, n, e), below, NullMergedView(v, n, e))
  {
  }

  lemma {:induction false} NullWrite(cache: map<Nullifier, NullEntry>, below: set<Nullifier>, v: set<Nullifier>,
          n: Nullifier, entered: bool)
    requires NullLayerOk(cache, below, v)
    ensures NullLayerOk(cache[n := NullEntry(entered, true)], below, SetTo(v, n, entered))
  {
  }

  lemma {:induction false} NullCache(cache: map<Nullifier, NullEntry>, below: set<Nullifier>, v: set<Nullifier>,
          n: Nullifier)
    requires NullLayerOk(cache, below, v) && n !in cache
    ensures NullLayerOk(cache[n := NullEntry(n in below, false)], below, v)
  {
  }

  lemma {:induction false} EmptyNullLayer(v: set<Nullifier>, w: set<Nullifier>)
    requires NullLayerOk(map[], v, w)
    ensures v == w
  {
  }
}
