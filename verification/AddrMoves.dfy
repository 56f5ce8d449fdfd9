/** Entries moving between the tables of the address manager. */
module AddrMoves {
  import opened AddrBook

  lemma {:induction false} SlotsLeft(h: Hashes, b: Book, limbo: set<int>, infos: map<int, Info>)
    requires Consistent(h, b, limbo) && SameIndex(b.infos, infos)
    ensures Indexed(infos, b.addrs, b.random) && Numbered(infos, b.idCount) && NewPlaced(h, infos, b.news)
    ensures limbo <= infos.Keys
  {
    hide Indexed, Numbered, NewPlaced, TriedPlaced, Counted, Sized;
    IndexedSame(b.infos, infos, b.addrs, b.random);
    NumberedSame(b.infos, infos, b.idCount);
    NewPlacedSame(h, b.infos, infos, b.news);
  }

  // ------------------------------------------------------------------ leaving a new slot

  /** Slot k of the new table emptied. */
  function Emptied(b: Book, k: nat): Book
    requires k < |b.news| && b.news[k] in b.infos
  {
    var id := b.news[k];
    b.(infos := b.infos[id := b.infos[id].(refCount := b.infos[id].refCount - 1)], news := b.news[k := -1])
  }

  /** The occupant of a slot of the new table: known, not tried, with a reference left. */
  lemma {:induction false} Occupant(h: Hashes, b: Book, limbo: set<int>, k: nat)
    requires Consistent(h, b, limbo) && k < |b.news| && b.news[k] != -1
    ensures b.news[k] in b.infos && b.news[k] !in limbo && !b.infos[b.news[k]].inTried &&
      b.infos[b.news[k]].refCount >= 1
  {
    var id := b.news[k];
    assert id in multiset(b.news);
    assert RefsOk(b.infos[id], multiset(b.news)[id], id in limbo);
  }

  lemma {:induction false} EmptiedSame(b: Book, k: nat)
    requires k < |b.news| && b.news[k] in b.infos
    ensures SameIndex(b.infos, Emptied(b, k).infos)
    ensures forall id :: id in b.infos ==> Emptied(b, k).infos[id].inTried == b.infos[id].inTried
  {
  }

  lemma {:induction false} EmptiedCounted(b: Book, limbo: set<int>, k: nat)
    requires k < |b.news| && b.news[k] in b.infos && b.news[k] != -1 && Counted(b.infos, b.news, limbo) &&
      b.news[k] !in limbo
    requires b.infos[b.news[k]].refCount >= 1 && !b.infos[b.news[k]].inTried && -1 !in b.infos
    ensures var c := Emptied(b, k);
            Counted(c.infos, c.news, if c.infos[b.news[k]].refCount == 0 then limbo + {b.news[k]} else limbo)
  {
    var c := Emptied(b, k);
    var id := b.news[k];
    var after := if c.infos[id].refCount == 0 then limbo + {id} else limbo;
    assert multiset(c.news) == multiset(b.news) - multiset{id} + multiset{-1};
    forall j | j in c.infos
      ensures RefsOk(c.infos[j], multiset(c.news)[j], j in after)
    {
      assert RefsOk(b.infos[j], multiset(b.news)[j], j in limbo);
    }
  }

  lemma {:induction false} SlotEmptied(h: Hashes, infos: map<int, Info>, news: seq<int>, k: nat)
    requires NewPlaced(h, infos, news) && k < |news|
    ensures NewPlaced(h, infos, news[k := -1])
  {
    hide NewSlot;
  }

  /** An entry moved into limbo is no longer counted as new. */
  lemma {:induction false} IntoLimbo(b: Book, infos: map<int, Info>, limbo: set<int>, id: int)
    requires Sized(b, limbo) && SameIndex(b.infos, infos) && id in infos && id !in limbo && !infos[id].inTried
    requires forall j :: j in infos ==> b.infos[j].inTried == infos[j].inTried
    ensures Sized(b.(infos := infos, nNew := b.nNew - 1), limbo + {id})
  {
    SizedSame(b, infos, limbo);
    assert NewIds(infos) - (limbo + {id}) == (NewIds(infos) - limbo) - {id};
    assert id in NewIds(infos) - limbo;
    assert |limbo + {id}| == |limbo| + 1;
  }

  /** Emptying a slot keeps the book consistent; at the last reference the entry is in limbo. */
  lemma {:induction false} EmptiedKeeps(h: Hashes, b: Book, limbo: set<int>, k: nat)
    requires Consistent(h, b, limbo) && k < |b.news| && b.news[k] != -1
    ensures b.news[k] in b.infos && b.news[k] !in limbo
    ensures var c := Emptied(b, k); var id := b.news[k];
            if c.infos[id].refCount == 0
              then Consistent(h, c.(nNew := c.nNew - 1), limbo + {id}) else Consistent(h, c, limbo)
  {
    hide Indexed, NewPlaced, TriedPlaced, Counted, Sized, Numbered, SameIndex;
    IdsAndSizes(h, b, limbo);
    Occupant(h, b, limbo, k);
    var c := Emptied(b, k);
    EmptiedSame(b, k);
    SlotsLeft(h, b, limbo, c.infos);
    SlotEmptied(h, c.infos, b.news, k);
    TriedPlacedSame(h, b.infos, c.infos, b.tried);
    EmptiedCounted(b, limbo, k);
    if c.infos[b.news[k]].refCount == 0 {
      IntoLimbo(b, c.infos, limbo, b.news[k]);
      SizedNews(b.(infos := c.infos, nNew := b.nNew - 1), c.news, limbo + {b.news[k]});
    } else {
      SizedSame(b, c.infos, limbo);
      SizedNews(b.(infos := c.infos), c.news, limbo);
    }
  }

  lemma {:induction false} SizedNews(b: Book, news: seq<int>, limbo: set<int>)
    requires Sized(b, limbo)
    ensures Sized(b.(news := news), limbo)
  {
  }

  // ----------------------------------------------------------------- entering a new slot

  /** Entry id put into the empty slot k of the new table. */
  function Filled(b: Book, id: int, k: nat): Book
    requires k < |b.news| && id in b.infos
  {
    b.(infos := b.infos[id := b.infos[id].(refCount := b.infos[id].refCount + 1)], news := b.news[k := id])
  }

  lemma {:induction false} FilledSame(b: Book, id: int, k: nat)
    requires k < |b.news| && id in b.infos
    ensures SameIndex(b.infos, Filled(b, id, k).infos)
    ensures forall j :: j in b.infos ==> Filled(b, id, k).infos[j].inTried == b.infos[j].inTried
  {
  }

  lemma {:induction false} FilledCounted(b: Book, limbo: set<int>, id: int, k: nat)
    requires k < |b.news| && id in b.infos && b.news[k] == -1 && -1 !in b.infos && Counted(b.infos, b.news, limbo)
    requires !b.infos[id].inTried && b.infos[id].refCount < NEW_BUCKETS_PER_ADDRESS
    ensures Counted(Filled(b, id, k).infos, Filled(b, id, k).news, limbo - {id})
  {
    var c := Filled(b, id, k);
    assert multiset(c.news) == multiset(b.news) - multiset{-1} + multiset{id};
    forall j | j in c.infos
      ensures RefsOk(c.infos[j], multiset(c.news)[j], j in limbo - {id})
    {
      assert RefsOk(b.infos[j], multiset(b.news)[j], j in limbo);
    }
  }

  lemma {:induction false} SlotFilled(h: Hashes, infos: map<int, Info>, news: seq<int>, id: int, k: nat)
    requires NewPlaced(h, infos, news) && k < |news| && id in infos &&
      k == NewSlot(h, infos[id].service, k / BUCKET_SIZE)
    ensures NewPlaced(h, infos, news[k := id])
  {
    hide NewSlot;
  }

  /** Taking an entry out of limbo counts it again. */
  lemma {:induction false} OutOfLimbo(b: Book, infos: map<int, Info>, limbo: set<int>, id: int)
    requires Sized(b, limbo) && SameIndex(b.infos, infos) && id in infos && id in limbo && !infos[id].inTried
    requires forall j :: j in infos ==> b.infos[j].inTried == infos[j].inTried
    ensures Sized(b.(infos := infos, nNew := b.nNew + 1), limbo - {id})
  {
    SizedSame(b, infos, limbo);
    assert NewIds(infos) - (limbo - {id}) == (NewIds(infos) - limbo) + {id};
    assert |limbo - {id}| == |limbo| - 1;
  }

  /** Filling an empty slot of the entry's own keeps the book consistent, and takes it out of limbo. */
  lemma {:induction false} FilledKeeps(h: Hashes, b: Book, limbo: set<int>, id: int, k: nat)
    requires Consistent(h, b, limbo) && id in b.infos && !b.infos[id].inTried &&
      b.infos[id].refCount < NEW_BUCKETS_PER_ADDRESS
    requires k < |b.news| && b.news[k] == -1 && k == NewSlot(h, b.infos[id].service, k / BUCKET_SIZE)
    ensures var c := Filled(b, id, k);
            Consistent(h, if id in limbo then c.(nNew := c.nNew + 1) else c, limbo - {id})
  {
    hide Indexed, NewPlaced, TriedPlaced, Counted, Sized, Numbered, SameIndex, NewSlot;
    IdsAndSizes(h, b, limbo);
    var c := Filled(b, id, k);
    FilledSame(b, id, k);
    SlotsLeft(h, b, limbo, c.infos);
    SlotFilled(h, c.infos, b.news, id, k);
    TriedPlacedSame(h, b.infos, c.infos, b.tried);
    FilledCounted(b, limbo, id, k);
    if id in limbo {
      OutOfLimbo(b, c.infos, limbo, id);
      SizedNews(b.(infos := c.infos, nNew := b.nNew + 1), c.news, limbo - {id});
    } else {
      assert limbo - {id} == limbo;
      SizedSame(b, c.infos, limbo);
      SizedNews(b.(infos := c.infos), c.news, limbo);
    }
  }

  // --------------------------------------------------------- leaving all new slots at once

  /** The new table without entry id, up to bucket n. */
  function Purged(news: seq<int>, id: int, n: nat): seq<int> {
    seq(|news|, k requires 0 <= k < |news| => if news[k] == id && k / BUCKET_SIZE < n then -1 else news[k])
  }

  /** Entry id out of every slot of the new table, and in limbo. */
  function Withdrawn(b: Book, id: int): Book
    requires id in b.infos
  {
    b.(infos := b.infos[id := b.infos[id].(refCount := 0)], news := Purged(b.news, id, NEW_BUCKETS), nNew := b.nNew - 1)
  }

  /** Replacing every id by -1 changes no other count. */
  lemma {:induction false} PurgedCounts(news: seq<int>, id: int, n: nat)
    requires id != -1
    ensures forall j :: j != -1 && j != id ==> multiset(Purged(news, id, n))[j] == multiset(news)[j]
  {
    if news != [] {
      var m := |news| - 1;
      PurgedCounts(news[..m], id, n);
      assert news == news[..m] + [news[m]];
      assert Purged(news, id, n) == Purged(news[..m], id, n) + [Purged(news, id, n)[m]];
    }
  }

  lemma {:induction false} WithdrawnCounted(b: Book, limbo: set<int>, id: int)
    requires id in b.infos && -1 !in b.infos && Counted(b.infos, b.news, limbo) && !b.infos[id].inTried
    requires |b.news| == NEW_BUCKETS * BUCKET_SIZE
    ensures Counted(Withdrawn(b, id).infos, Withdrawn(b, id).news, limbo + {id})
  {
    var c := Withdrawn(b, id);
    PurgedCounts(b.news, id, NEW_BUCKETS);
    assert id !in c.news;
    assert multiset(c.news)[id] == 0;
    forall j | j in c.infos
      ensures RefsOk(c.infos[j], multiset(c.news)[j], j in limbo + {id})
    {
      assert RefsOk(b.infos[j], multiset(b.news)[j], j in limbo);
    }
  }

  lemma {:induction false} WithdrawnSame(b: Book, id: int)
    requires id in b.infos
    ensures SameIndex(b.infos, Withdrawn(b, id).infos)
    ensures forall j :: j in b.infos ==> Withdrawn(b, id).infos[j].inTried == b.infos[j].inTried
  {
    hide Purged;
  }

  lemma {:induction false} PurgedPlaced(h: Hashes, infos: map<int, Info>, news: seq<int>, id: int)
    requires NewPlaced(h, infos, news)
    ensures NewPlaced(h, infos, Purged(news, id, NEW_BUCKETS))
  {
    hide NewSlot;
  }

  lemma {:induction false} WithdrawnKeeps(h: Hashes, b: Book, limbo: set<int>, id: int)
    requires Consistent(h, b, limbo) && id in b.infos && id !in limbo && !b.infos[id].inTried
    ensures Consistent(h, Withdrawn(b, id), limbo + {id})
  {
    hide Indexed, NewPlaced, TriedPlaced, Counted, Sized, Numbered, SameIndex, Purged;
    IdsAndSizes(h, b, limbo);
    var c := Withdrawn(b, id);
    WithdrawnSame(b, id);
    SlotsLeft(h, b, limbo, c.infos);
    PurgedPlaced(h, c.infos, b.news, id);
    TriedPlacedSame(h, b.infos, c.infos, b.tried);
    WithdrawnCounted(b, limbo, id);
    IntoLimbo(b, c.infos, limbo, id);
    SizedNews(b.(infos := c.infos, nNew := b.nNew - 1), c.news, limbo + {id});
  }

  // ------------------------------------------------------------------ the tried table

  /** Slot k of the tried table emptied, its entry in limbo. */
  function Evicted(b: Book, k: nat): Book
    requires k < |b.tried| && b.tried[k] in b.infos
  {
    var id := b.tried[k];
    b.(infos := b.infos[id := b.infos[id].(inTried := false)], tried := b.tried[k := -1], nTried := b.nTried - 1)
  }

  /** Entry id, from limbo, put into its empty slot of the tried table. */
  function Promoted(h: Hashes, b: Book, id: int): Book
    requires id in b.infos && TriedSlot(h, b.infos[id].service) < |b.tried|
  {
    b.(infos := b.infos[id := b.infos[id].(inTried := true)],
       tried := b.tried[TriedSlot(h, b.infos[id].service) := id], nTried := b.nTried + 1)
  }

  lemma {:induction false} EvictedPlaced(h: Hashes, b: Book, k: nat)
    requires TriedPlaced(h, b.infos, b.tried) && k < |b.tried| && b.tried[k] != -1
    ensures b.tried[k] in b.infos && b.infos[b.tried[k]].inTried
    ensures TriedPlaced(h, Evicted(b, k).infos, Evicted(b, k).tried)
  {
    hide TriedSlot;
    var c := Evicted(b, k);
    var id := b.tried[k];
    assert InSlot(h, b.infos[id], id, b.tried);
    forall j | j in c.infos && c.infos[j].inTried
      ensures InSlot(h, c.infos[j], j, c.tried)
    {
      assert InSlot(h, b.infos[j], j, b.tried);
    }
  }

  lemma {:induction false} EvictedCounted(b: Book, limbo: set<int>, k: nat)
    requires Counted(b.infos, b.news, limbo) && k < |b.tried| && b.tried[k] in b.infos && b.infos[b.tried[k]].inTried
    ensures Counted(Evicted(b, k).infos, b.news, limbo + {b.tried[k]}) && b.tried[k] !in limbo
  {
    var id := b.tried[k];
    var c := Evicted(b, k);
    assert RefsOk(b.infos[id], multiset(b.news)[id], id in limbo);
    forall j | j in c.infos
      ensures RefsOk(c.infos[j], multiset(b.news)[j], j in limbo + {id})
    {
      assert RefsOk(b.infos[j], multiset(b.news)[j], j in limbo);
    }
  }

  lemma {:induction false} EvictedSized(b: Book, limbo: set<int>, k: nat)
    requires Sized(b, limbo) && k < |b.tried| && b.tried[k] in b.infos && b.infos[b.tried[k]].inTried &&
      b.tried[k] !in limbo
    ensures Sized(Evicted(b, k), limbo + {b.tried[k]})
  {
    var id := b.tried[k];
    var c := Evicted(b, k);
    assert TriedIds(c.infos) == TriedIds(b.infos) - {id};
    assert NewIds(c.infos) - (limbo + {id}) == NewIds(b.infos) - limbo;
    assert |limbo + {id}| == |limbo| + 1;
  }

  lemma {:induction false} InTriedSame(infos: map<int, Info>, id: int, tried: bool)
    requires id in infos
    ensures SameIndex(infos, infos[id := infos[id].(inTried := tried)])
  {
  }

  lemma {:induction false} EvictedKeeps(h: Hashes, b: Book, limbo: set<int>, k: nat)
    requires Consistent(h, b, limbo) && k < |b.tried| && b.tried[k] != -1
    ensures b.tried[k] in b.infos && b.tried[k] !in limbo && b.infos[b.tried[k]].inTried
    ensures Consistent(h, Evicted(b, k), limbo + {b.tried[k]})
  {
    hide Indexed, NewPlaced, TriedPlaced, Counted, Sized, Numbered, SameIndex;
    EvictedPlaced(h, b, k);
    var c := Evicted(b, k);
    InTriedSame(b.infos, b.tried[k], false);
    SlotsLeft(h, b, limbo, c.infos);
    EvictedCounted(b, limbo, k);
    EvictedSized(b, limbo, k);
  }

  lemma {:induction false} PromotedPlaced(h: Hashes, b: Book, id: int)
    requires TriedPlaced(h, b.infos, b.tried) && id in b.infos && !b.infos[id].inTried &&
      b.tried[TriedSlot(h, b.infos[id].service)] == -1 && -1 !in b.infos
    ensures TriedPlaced(h, Promoted(h, b, id).infos, Promoted(h, b, id).tried)
  {
    hide TriedSlot;
    var c := Promoted(h, b, id);
    forall j | j in c.infos && c.infos[j].inTried
      ensures InSlot(h, c.infos[j], j, c.tried)
    {
      if j != id {
        assert InSlot(h, b.infos[j], j, b.tried);
      }
    }
  }

  lemma {:induction false} PromotedCounted(b: Book, limbo: set<int>, id: int)
    requires Counted(b.infos, b.news, limbo) && id in b.infos && id in limbo
    ensures Counted(b.infos[id := b.infos[id].(inTried := true)], b.news, limbo - {id})
  {
    var infos := b.infos[id := b.infos[id].(inTried := true)];
    forall j | j in infos
      ensures RefsOk(infos[j], multiset(b.news)[j], j in limbo - {id})
    {
      assert RefsOk(b.infos[j], multiset(b.news)[j], j in limbo);
    }
  }

  lemma {:induction false} PromotedSized(h: Hashes, b: Book, limbo: set<int>, id: int)
    requires Sized(b, limbo) && id in b.infos && id in limbo && !b.infos[id].inTried &&
      TriedSlot(h, b.infos[id].service) < |b.tried|
    ensures Sized(Promoted(h, b, id), limbo - {id})
  {
    var c := Promoted(h, b, id);
    assert TriedIds(c.infos) == TriedIds(b.infos) + {id};
    assert NewIds(c.infos) - (limbo - {id}) == NewIds(b.infos) - limbo;
    assert |limbo - {id}| == |limbo| - 1;
  }

  lemma {:induction false} PromotedKeeps(h: Hashes, b: Book, limbo: set<int>, id: int)
    requires Consistent(h, b, limbo) && id in b.infos && id in limbo && !b.infos[id].inTried &&
      b.tried[TriedSlot(h, b.infos[id].service)] == -1
    ensures Consistent(h, Promoted(h, b, id), limbo - {id})
  {
    hide Indexed, NewPlaced, TriedPlaced, Counted, Sized, Numbered, SameIndex, TriedSlot;
    IdsAndSizes(h, b, limbo);
    var c := Promoted(h, b, id);
    InTriedSame(b.infos, id, true);
    SlotsLeft(h, b, limbo, c.infos);
    PromotedPlaced(h, b, id);
    PromotedCounted(b, limbo, id);
    PromotedSized(h, b, limbo, id);
  }
}
