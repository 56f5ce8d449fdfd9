/** The coins database and the write-back caches stacked on it. */
module CoinsCache {
  import opened CoinsLayer

  // ------------------------------------------------------------------ the database

  /** CCoinsViewDB */
  class CoinsViewDB {
    var coins: map<TxId, Coins>
    var nullifiers: set<Nullifier>

    constructor ()
      ensures coins == map[] && nullifiers == {}
    {
      coins, nullifiers := map[], {};
    }

    /** Only unspent coins are kept, without spent outputs at the end. */
    ghost predicate Valid()
      reads this
    {
      AllKept(coins)
    }

    /** BatchWrite: the database then holds what the flushed cache showed. */
    method BatchWrite(mapCoins: map<TxId, Entry>, mapNullifiers: map<Nullifier, NullEntry>, ghost childView: View,
            ghost childSpent: set<Nullifier>)
      requires Valid() && AllClean(mapCoins)
      requires LayerOk(mapCoins, coins, childView) && NullLayerOk(mapNullifiers, nullifiers, childSpent)
      modifies this
      ensures Valid() && coins == childView && nullifiers == childSpent
    {
      hide LayerOk, NullLayerOk, AllClean, AllKept;
      WriteCoins(mapCoins, childView);
      WriteNullifiers(mapNullifiers, childSpent);
    }

    /** A record is written without the spent outputs at its end, as the encoding drops them. */
    method WriteCoins(mapCoins: map<TxId, Entry>, ghost childView: View)
      requires Valid() && AllClean(mapCoins) && LayerOk(mapCoins, coins, childView)
      modifies this`coins
      ensures Valid() && coins == childView
    {
      hide LayerOk;
      var rest := mapCoins;
      while rest != map[]
        invariant LayerOk(rest, coins, childView) && AllClean(rest) && AllKept(coins)
        decreases |rest|
      {
        var k :| k in rest;
        var e := rest[k];
        MergeRest(rest, coins, childView, k);
        if e.isDirty {
          if e.coins.IsPruned() {
            coins := coins - {k};
          } else {
            CleanIsTrimmed(e.coins);
            coins := coins[k := e.coins.(vout := Trim(e.coins.vout))];
          }
        }
        rest := rest - {k};
      }
      EmptyLayer(coins, childView);
    }

    method WriteNullifiers(mapNullifiers: map<Nullifier, NullEntry>, ghost childSpent: set<Nullifier>)
      requires NullLayerOk(mapNullifiers, nullifiers, childSpent)
      modifies this`nullifiers
      ensures nullifiers == childSpent
    {
      hide NullLayerOk;
      var nulls := mapNullifiers;
      while nulls != map[]
        invariant NullLayerOk(nulls, nullifiers, childSpent)
        decreases |nulls|
      {
        var n :| n in nulls;
        var e := nulls[n];
        NullRest(nulls, nullifiers, childSpent, n);
        if e.isDirty {
          nullifiers := if e.entered then nullifiers + {n} else nullifiers - {n};
        }
        nulls := nulls - {n};
      }
      EmptyNullLayer(nullifiers, childSpent);
    }
  }

  ghost predicate AllKept(v: View) {
    forall k :: k in v ==> v[k].Clean() && !v[k].IsPruned()
  }

  ghost predicate AllClean(cache: map<TxId, Entry>) {
    forall k :: k in cache ==> cache[k].coins.Clean()
  }

  lemma {:induction false} CleanIsTrimmed(c: Coins)
    requires c.Clean()
    ensures c.(vout := Trim(c.vout)) == c
  {
  }

  // -------------------------------------------------------------------- the caches

  datatype Backend = Db(db: CoinsViewDB) | Cache(cache: CoinsViewCache)

  /** The record a CCoinsModifier is holding. */
  datatype Modifier = NoModifier | Holds(txid: TxId)

  ghost predicate CleanBut(cache: map<TxId, Entry>, m: Modifier) {
    forall k :: k in cache && m != Holds(k) ==> cache[k].coins.Clean()
  }

  /** Entries only added. */
  ghost predicate Grown(before: map<TxId, Entry>, after: map<TxId, Entry>) {
    forall k :: k in before ==> k in after && after[k] == before[k]
  }

  /** CCoinsViewCache: view and spent are what a reader sees through the whole stack below. */
  class CoinsViewCache {
    const base: Backend
    var cacheCoins: map<TxId, Entry>
    var cacheNullifiers: map<Nullifier, NullEntry>
    var modifier: Modifier
    ghost var view: View
    ghost var spent: set<Nullifier>
    ghost const Repr: set<object>

    ghost predicate Linked()
      decreases Repr
    {
      this in Repr &&
      match base
      case Db(d) => d in Repr
      case Cache(p) => p in Repr && p.Repr <= Repr && this !in p.Repr && p.Linked()
    }

    ghost function Below(): View
      requires Linked()
      reads Repr
    {
      match base
      case Db(d) => d.coins
      case Cache(p) => p.view
    }

    ghost function BelowSpent(): set<Nullifier>
      requires Linked()
      reads Repr
    {
      match base
      case Db(d) => d.nullifiers
      case Cache(p) => p.spent
    }

    /** What readers of the view below see. */
    ghost function Beneath(): (View, set<Nullifier>)
      requires Linked()
      reads Repr
    {
      (Below(), BelowSpent())
    }

    /** This cache's own entries fit over the view below. */
    ghost predicate Fits()
      requires Linked()
      reads Repr
    {
      LayerOk(cacheCoins, Below(), view) && NullLayerOk(cacheNullifiers, BelowSpent(), spent) &&
      CleanBut(cacheCoins, modifier) &&
      (modifier.Holds? ==> modifier.txid in cacheCoins && cacheCoins[modifier.txid].isDirty)
    }

    ghost predicate Valid()
      reads this, Repr
      ensures Valid() ==> Linked() && this in Repr
      decreases Repr
    {
      Linked() && Fits() &&
      match base
      case Db(d) => d.Valid()
      case Cache(p) => p.Valid() && p.modifier == NoModifier && LinkOk(cacheCoins, p.cacheCoins)
    }

    constructor (b: Backend)
      requires b.Db? ==> b.db.Valid()
      requires b.Cache? ==> b.cache.Valid() && b.cache.modifier == NoModifier
      ensures Valid() && base == b && modifier == NoModifier && cacheCoins == map[] && cacheNullifiers == map[]
      ensures Beneath() == (view, spent)
      ensures Repr == {this} + match b case Db(d) => {d} case Cache(p) => p.Repr
    {
      base := b;
      cacheCoins, cacheNullifiers, modifier := map[], map[], NoModifier;
      Repr := {this} + match b case Db(d) => {d} case Cache(p) => p.Repr;
      view := match b case Db(d) => d.coins case Cache(p) => p.view;
      spent := match b case Db(d) => d.nullifiers case Cache(p) => p.spent;
    }

    // ----------------------------------------------------------------------- reading

    /** FetchCoins: the record is in the cache afterwards, or there is none below. */
    method FetchCoins(txid: TxId) returns (found: bool)
      requires Valid()
      modifies Repr
      ensures Valid() && view == old(view) && spent == old(spent) && modifier == old(modifier) &&
        Beneath() == old(Beneath())
      ensures Grown(old(cacheCoins), cacheCoins)
      ensures found <==> txid in cacheCoins
      ensures !found ==> txid !in view
      decreases Repr, 0
    {
      hide LayerOk, NullLayerOk;
      if txid in cacheCoins {
        return true;
      }
      ghost var below := Below();
      var c: Coins;
      match base {
        case Db(d) =>
          if txid !in d.coins {
            UncachedShows(cacheCoins, Below(), view, txid);
            return false;
          }
          c := d.coins[txid];
        case Cache(p) =>
          found, c := p.GetCoins(txid);
          LinkGrown(cacheCoins, old(p.cacheCoins), p.cacheCoins);
          if !found {
            UncachedShows(cacheCoins, Below(), view, txid);
            return false;
          }
      }
      assert Below() == below;
      CacheEntry(cacheCoins, Below(), view, txid, c, false);
      cacheCoins := cacheCoins[txid := Entry(c, false, c.IsPruned())];
      found := true;
    }

    /** GetCoins: what a reader gets is what the view shows. */
    method GetCoins(txid: TxId) returns (found: bool, c: Coins)
      requires Valid()
      modifies Repr
      ensures Valid() && view == old(view) && spent == old(spent) && modifier == old(modifier) &&
        Beneath() == old(Beneath())
      ensures Grown(old(cacheCoins), cacheCoins)
      ensures found ==> txid in cacheCoins && Shows(view, txid, c)
      ensures found && modifier != Holds(txid) ==> c.Clean()
      ensures !found ==> txid !in view
      decreases Repr, 1
    {
      hide LayerOk, NullLayerOk;
      found := FetchCoins(txid);
      if found {
        c := cacheCoins[txid].coins;
        CachedShows(cacheCoins, Below(), view, txid);
      } else {
        c := NO_COINS;
      }
    }

    /** HaveCoins looks at vout only; on records no modifier is holding that is exactly "unspent". */
    method HaveCoins(txid: TxId) returns (have: bool)
      requires Valid()
      modifies Repr
      ensures Valid() && view == old(view) && spent == old(spent) && modifier == old(modifier) &&
        Beneath() == old(Beneath())
      ensures modifier != Holds(txid) ==> (have <==> txid in view)
    {
      hide LayerOk, NullLayerOk;
      var found := FetchCoins(txid);
      if !found {
        return false;
      }
      have := |cacheCoins[txid].coins.vout| != 0;
      CachedShows(cacheCoins, Below(), view, txid);
      if modifier != Holds(txid) {
        CleanPruned(cacheCoins[txid].coins);
      }
    }

    /** GetNullifier */
    method GetNullifier(n: Nullifier) returns (entered: bool)
      requires Valid()
      modifies Repr
      ensures Valid() && view == old(view) && spent == old(spent) && modifier == old(modifier) &&
        cacheCoins == old(cacheCoins)
      ensures Beneath() == old(Beneath())
      ensures entered <==> n in spent
      decreases Repr
    {
      hide LayerOk;
      if n in cacheNullifiers {
        return cacheNullifiers[n].entered;
      }
      match base {
        case Db(d) => entered := n in d.nullifiers;
        case Cache(p) => entered := p.GetNullifier(n);
      }
      NullCache(cacheNullifiers, BelowSpent(), spent, n);
      cacheNullifiers := cacheNullifiers[n := NullEntry(entered, false)];
    }

    // --------------------------------------------------------------------- modifying

    /** ModifyCoins: the modifier starts on what the view shows. */
    method ModifyCoins(txid: TxId)
      requires Valid() && modifier == NoModifier
      modifies Repr
      ensures Valid() && view == old(view) && spent == old(spent) && modifier == Holds(txid)
      ensures txid in cacheCoins && Shows(view, txid, cacheCoins[txid].coins) && cacheCoins[txid].coins.Clean()
      ensures Beneath() == old(Beneath())
    {
      hide LayerOk, NullLayerOk, CleanBut, LinkOk;
      ghost var below := Below();
      var e: Entry;
      if txid in cacheCoins {
        e := cacheCoins[txid];
        CachedShows(cacheCoins, Below(), view, txid);
        CleanEntry(cacheCoins, txid);
      } else {
        e := FreshEntry(txid);
      }
      assert Below() == below;
      MarkDirty(cacheCoins, Below(), view, txid, e);
      CleanHeld(cacheCoins, NoModifier, txid, Entry(e.coins, true, e.isFresh));
      if base.Cache? {
        LinkPut(cacheCoins, base.cache.cacheCoins, txid, Entry(e.coins, true, e.isFresh));
      }
      cacheCoins := cacheCoins[txid := Entry(e.coins, true, e.isFresh)];
      modifier := Holds(txid);
    }

    /** The entry ModifyCoins inserts for a record not cached yet. */
    method FreshEntry(txid: TxId) returns (e: Entry)
      requires Valid() && modifier == NoModifier && txid !in cacheCoins
      modifies Repr - {this}
      ensures Valid() && Beneath() == old(Beneath())
      ensures EntryOk(e, txid, Below(), view) && e.coins.Clean() && e.isFresh == e.coins.IsPruned() && !e.isDirty
      ensures base.Cache? && !e.isFresh ==> txid in base.cache.cacheCoins
    {
      hide LayerOk, NullLayerOk;
      UncachedShows(cacheCoins, Below(), view, txid);
      match base {
        case Db(d) =>
          var c := if txid in d.coins then d.coins[txid] else NO_COINS;
          e := Entry(c, false, c.IsPruned());
        case Cache(p) =>
          var found, c := p.GetCoins(txid);
          LinkGrown(cacheCoins, old(p.cacheCoins), p.cacheCoins);
          if !found {
            c := NO_COINS;
          }
          e := Entry(c, false, c.IsPruned());
      }
    }

    /** ModifyNewCoins: an empty record, marked fresh without looking below. */
    method ModifyNewCoins(txid: TxId)
      requires Valid() && modifier == NoModifier
      requires txid !in Beneath().0
      modifies this
      ensures Valid() && view == old(view) - {txid} && spent == old(spent) && modifier == Holds(txid)
      ensures txid in cacheCoins && cacheCoins[txid].coins == NO_COINS
      ensures Beneath() == old(Beneath())
    {
      hide LayerOk, NullLayerOk, CleanBut, LinkOk;
      CleanHeld(cacheCoins, NoModifier, txid, Entry(NO_COINS, true, true));
      if base.Cache? {
        LinkPut(cacheCoins, base.cache.cacheCoins, txid, Entry(NO_COINS, true, true));
      }
      WriteEntry(cacheCoins, Below(), view, txid, Entry(NO_COINS, true, true));
      cacheCoins := cacheCoins[txid := Entry(NO_COINS, true, true)];
      view := Put(view, txid, NO_COINS);
      modifier := Holds(txid);
    }

    /** An assignment through the modifier. */
    method Assign(c: Coins)
      requires Valid() && modifier.Holds?
      modifies this
      ensures Valid() && spent == old(spent) && modifier == old(modifier)
      ensures view == Put(old(view), modifier.txid, c)
      ensures modifier.txid in cacheCoins && cacheCoins[modifier.txid].coins == c
      ensures Beneath() == old(Beneath())
    {
      hide LayerOk, NullLayerOk, CleanBut, LinkOk, Put;
      var k := modifier.txid;
      CleanHeld(cacheCoins, modifier, k, cacheCoins[k].(coins := c));
      if base.Cache? {
        LinkPut(cacheCoins, base.cache.cacheCoins, k, cacheCoins[k].(coins := c));
      }
      FreshAbsent(cacheCoins, Below(), view, k);
      WriteEntry(cacheCoins, Below(), view, k, cacheCoins[k].(coins := c));
      cacheCoins := cacheCoins[k := cacheCoins[k].(coins := c)];
      view := Put(view, k, c);
    }

    /** The modifier's destructor: trailing spent outputs go, and so does a fresh pruned record. */
    method Release()
      requires Valid() && modifier.Holds?
      requires modifier.txid in cacheCoins
      modifies this
      ensures Valid() && spent == old(spent) && modifier == NoModifier
      ensures view == Put(old(view), old(modifier.txid),
        old(var c := cacheCoins[modifier.txid].coins; c.(vout := Trim(c.vout))))
      ensures Beneath() == old(Beneath())
    {
      hide LayerOk, NullLayerOk, CleanBut, LinkOk, Put;
      var k := modifier.txid;
      var c := Cleanup(cacheCoins[k].coins);
      TrimKeeps(cacheCoins[k].coins);
      Assign(c);
      CleanReleased(cacheCoins, k);
      if base.Cache? {
        LinkLess(cacheCoins, base.cache.cacheCoins, k);
      }
      if cacheCoins[k].isFresh && c.IsPruned() {
        EraseEntry(cacheCoins, Below(), view, k);
        cacheCoins := cacheCoins - {k};
      }
      modifier := NoModifier;
    }

    /** SetNullifiers */
    method SetNullifiers(ns: seq<Nullifier>, enter: bool)
      requires Valid()
      modifies this
      ensures Valid() && view == old(view) && modifier == old(modifier) && cacheCoins == old(cacheCoins)
      ensures spent == if enter then old(spent) + Range(ns) else old(spent) - Range(ns)
      ensures Beneath() == old(Beneath())
    {
      hide LayerOk, NullLayerOk, CleanBut, LinkOk;
      for i := 0 to |ns|
        invariant Valid() && view == old(view) && modifier == old(modifier) && cacheCoins == old(cacheCoins)
        invariant spent == if enter then old(spent) + Range(ns[..i]) else old(spent) - Range(ns[..i])
      {
        NullWrite(cacheNullifiers, BelowSpent(), spent, ns[i], enter);
        cacheNullifiers := cacheNullifiers[ns[i] := NullEntry(enter, true)];
        spent := SetTo(spent, ns[i], enter);
        assert ns[..i + 1] == ns[..i] + [ns[i]];
      }
      assert ns[..|ns|] == ns;
    }

    // ------------------------------------------------------------------ writing back

    /** BatchWrite: this cache then shows what the flushed child showed. */
    method BatchWrite(mapCoins: map<TxId, Entry>, mapNullifiers: map<Nullifier, NullEntry>, ghost childView: View,
            ghost childSpent: set<Nullifier>)
      requires Valid() && modifier == NoModifier && AllClean(mapCoins)
      requires LayerOk(mapCoins, view, childView) && LinkOk(mapCoins, cacheCoins)
      requires NullLayerOk(mapNullifiers, spent, childSpent)
      modifies this
      ensures Valid() && modifier == NoModifier && view == childView && spent == childSpent
    {
      hide LayerOk, NullLayerOk, LinkOk, AllClean, CleanBut;
      WriteCoins(mapCoins, childView);
      WriteNullifiers(mapNullifiers, childSpent);
    }

    /** The loop over the child's coins. */
    method WriteCoins(mapCoins: map<TxId, Entry>, ghost childView: View)
      requires Valid() && modifier == NoModifier && AllClean(mapCoins)
      requires LayerOk(mapCoins, view, childView) && LinkOk(mapCoins, cacheCoins)
      modifies this
      ensures Valid() && modifier == NoModifier && view == childView && spent == old(spent)
    {
      hide LayerOk, NullLayerOk, LinkOk, CleanBut, Linked, Fits, Below, BelowSpent;
      var rest := mapCoins;
      while rest != map[]
        invariant Valid() && modifier == NoModifier && AllClean(rest)
        invariant LayerOk(rest, view, childView) && LinkOk(rest, cacheCoins) && spent == old(spent)
        decreases |rest|
      {
        var k :| k in rest;
        MergeEntry(k, rest[k], rest, childView);
        rest := rest - {k};
      }
      EmptyLayer(view, childView);
    }

    /** BatchWriteNullifiers */
    method WriteNullifiers(mapNullifiers: map<Nullifier, NullEntry>, ghost childSpent: set<Nullifier>)
      requires Valid() && NullLayerOk(mapNullifiers, spent, childSpent)
      modifies this`cacheNullifiers, this`spent
      ensures Valid() && spent == childSpent
    {
      hide LayerOk, NullLayerOk, LinkOk, CleanBut, NullMergedView;
      var nulls := mapNullifiers;
      while nulls != map[]
        invariant Valid() && NullLayerOk(nulls, spent, childSpent)
        decreases |nulls|
      {
        var n :| n in nulls;
        var e := nulls[n];
        NullRest(nulls, spent, childSpent, n);
        NullShows(cacheNullifiers, BelowSpent(), spent, n, e);
        var merged := cacheNullifiers;
        if e.isDirty {
          if n !in cacheNullifiers {
            merged := cacheNullifiers[n := NullEntry(e.entered, true)];
          } else if cacheNullifiers[n].entered != e.entered {
            merged := cacheNullifiers[n := NullEntry(e.entered, true)];
          }
        }
        cacheNullifiers := merged;
        spent := NullMergedView(spent, n, e);
        nulls := nulls - {n};
      }
      EmptyNullLayer(spent, childSpent);
    }

    /** One step of BatchWrite's loop. */
    method MergeEntry(k: TxId, e: Entry, ghost rest: map<TxId, Entry>, ghost childView: View)
      requires Valid() && modifier == NoModifier && k in rest && rest[k] == e && AllClean(rest)
      requires LayerOk(rest, view, childView) && LinkOk(rest, cacheCoins)
      modifies this
      ensures Valid() && modifier == NoModifier && spent == old(spent)
      ensures LayerOk(rest - {k}, view, childView) && LinkOk(rest - {k}, cacheCoins)
    {
      hide LayerOk, NullLayerOk, LinkOk, CleanBut, MergedView;
      MergeRest(rest, view, childView, k);
      CachedShows(rest, view, childView, k);
      LinkedEntry(rest, cacheCoins, k);
      MergeShows(cacheCoins, Below(), view, k, e, childView);
      MergeLinks(rest, cacheCoins, if base.Cache? then base.cache.cacheCoins else cacheCoins, k);
      CleanMerged(cacheCoins, k, e);
      var merged := cacheCoins;
      if e.isDirty {
        if k !in cacheCoins {
          if !e.coins.IsPruned() {
            assert e.isFresh;
            merged := cacheCoins[k := Entry(e.coins, true, true)];
          }
        } else if cacheCoins[k].isFresh && e.coins.IsPruned() {
          merged := cacheCoins - {k};
        } else {
          merged := cacheCoins[k := Entry(e.coins, true, cacheCoins[k].isFresh)];
        }
      }
      cacheCoins := merged;
      view := MergedView(view, k, e);
    }

    /** Flush: the view below becomes this view; nothing a reader of this cache sees changes. */
    method Flush()
      requires Valid() && modifier == NoModifier
      modifies Repr
      ensures Valid() && modifier == NoModifier && cacheCoins == map[] && cacheNullifiers == map[]
      ensures view == old(view) && spent == old(spent)
      ensures Below() == old(view) && BelowSpent() == old(spent)
    {
      hide LayerOk, NullLayerOk;
      match base {
        case Db(d) => d.BatchWrite(cacheCoins, cacheNullifiers, view, spent);
        case Cache(p) => p.BatchWrite(cacheCoins, cacheNullifiers, view, spent);
      }
      cacheCoins, cacheNullifiers := map[], map[];
      NoEntries(view, spent);
    }
  }

  /** The cache below a cache. */
  lemma {:induction false} BaseValid(c: CoinsViewCache)
    requires c.Valid() && c.base.Cache?
    ensures c.base.cache.Valid() && c.base.cache.modifier == NoModifier
    ensures c.Beneath() == (c.base.cache.view, c.base.cache.spent)
  {
  }

  lemma {:induction false} UncachedShows(cache: map<TxId, Entry>, below: View, v: View, k: TxId)
    requires LayerOk(cache, below, v) && k !in cache
    ensures SameAt(v, below, k)
  {
  }

  lemma {:induction false} CachedShows(cache: map<TxId, Entry>, below: View, v: View, k: TxId)
    requires LayerOk(cache, below, v) && k in cache
    ensures EntryOk(cache[k], k, below, v)
  {
  }

  lemma {:induction false} LinkGrown(cache: map<TxId, Entry>, before: map<TxId, Entry>, after: map<TxId, Entry>)
    requires LinkOk(cache, before) && Grown(before, after)
    ensures LinkOk(cache, after)
  {
  }

  ghost function Range(ns: seq<Nullifier>): set<Nullifier> {
    set n | n in ns
  }

  /** Setting the dirty flag of an entry changes nothing a reader sees. */
  lemma {:induction false} MarkDirty(cache: map<TxId, Entry>, below: View, v: View, k: TxId, e: Entry)
    requires LayerOk(cache, below, v) && EntryOk(e, k, below, v)
    ensures LayerOk(cache[k := Entry(e.coins, true, e.isFresh)], below, v)
  {
  }

  lemma {:induction false} LinkedEntry(rest: map<TxId, Entry>, cache: map<TxId, Entry>, k: TxId)
    requires LinkOk(rest, cache) && k in rest
    ensures !rest[k].isFresh ==> k in cache
  {
  }

  lemma {:induction false} LinkPut(cache: map<TxId, Entry>, parent: map<TxId, Entry>, k: TxId, e: Entry)
    requires LinkOk(cache, parent) && (e.isFresh || k in parent || (k in cache && cache[k].isFresh == e.isFresh))
    ensures LinkOk(cache[k := e], parent)
  {
  }

  lemma {:induction false} LinkLess(cache: map<TxId, Entry>, parent: map<TxId, Entry>, k: TxId)
    requires LinkOk(cache, parent)
    ensures LinkOk(cache - {k}, parent)
  {
  }

  lemma {:induction false} CleanEntry(cache: map<TxId, Entry>, k: TxId)
    requires CleanBut(cache, NoModifier) && k in cache
    ensures cache[k].coins.Clean()
  {
  }

  /** A modifier may leave its own record unclean. */
  lemma {:induction false} CleanHeld(cache: map<TxId, Entry>, m: Modifier, k: TxId, e: Entry)
    requires CleanBut(cache, m) && (m == NoModifier || m == Holds(k))
    ensures CleanBut(cache[k := e], Holds(k))
  {
  }

  lemma {:induction false} CleanReleased(cache: map<TxId, Entry>, k: TxId)
    requires CleanBut(cache, Holds(k)) && k in cache && cache[k].coins.Clean()
    ensures CleanBut(cache, NoModifier) && CleanBut(cache - {k}, NoModifier)
  {
  }

  lemma {:induction false} CleanMerged(cache: map<TxId, Entry>, k: TxId, e: Entry)
    requires CleanBut(cache, NoModifier) && e.coins.Clean()
    ensures CleanBut(Merged(cache, k, e), NoModifier)
  {
  }
}
