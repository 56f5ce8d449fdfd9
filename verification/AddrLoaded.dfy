/** Whatever peers.dat says, as long as it names no address twice, the address manager read from it
    satisfies the conditions Check_ tests: also if its new table is unusable, entries share slots or
    indices are wrong. */
module AddrLoaded {
  import opened Numbers
  import opened AddrBook
  import opened AddrMoves
  import opened AddrMan
  import opened AddrSaved
  import opened AddrFile

  /** The nets of the first n entries of the file, new ones first. */
  function NetAt(image: Image, k: nat): Net
    requires k < |image.news| + |image.tried|
  {
    if k < |image.news| then image.news[k].service.net else image.tried[k - |image.news|].service.net
  }

  /** No address is in the file twice. */
  ghost predicate NoNetTwice(image: Image) {
    forall i, j :: 0 <= i < j < |image.news| + |image.tried| ==> NetAt(image, i) != NetAt(image, j)
  }

  /** Addresses come from the first n entries of the file. */
  ghost predicate NetsTo(image: Image, addrs: map<Net, int>, n: nat)
    requires n <= |image.news| + |image.tried|
  {
    forall net :: net in addrs ==> exists k :: 0 <= k < n && NetAt(image, k) == net
  }

  lemma {:induction false} NewNet(image: Image, addrs: map<Net, int>, n: nat, id: int)
    requires NoNetTwice(image) && n < |image.news| + |image.tried| && NetsTo(image, addrs, n)
    ensures NetAt(image, n) !in addrs
    ensures NetsTo(image, addrs[NetAt(image, n) := id], n + 1)
    ensures NetsTo(image, addrs, n + 1)
  {
  }

  /** The book with its counters set right. */
  function Recounted(b: Book, news: int, tried: int): Book {
    b.(nNew := news, nTried := tried)
  }

  // ----------------------------------------------------------------- the new entries

  /** An entry created and, if its slot is free and it may have it, placed. */
  lemma {:induction false} NewKept(h: Hashes, b: Book, limbo: set<int>, news: int, tried: int, e: Saved, usable: bool)
    returns (limbo1: set<int>, news1: int)
    requires Shaped(b) && Consistent(h, Recounted(b, news, tried), limbo) && e.service.net !in b.addrs
    ensures var c := AddNew(h, b, b.idCount, e, usable).(idCount := b.idCount + 1);
            Consistent(h, Recounted(c, news1, tried), limbo1)
    ensures news1 + |limbo1| == news + |limbo| + 1
  {
    hide Consistent, NewSlot, NewBucket;
    var r, x, id := Recounted(b, news, tried), Fresh(e, |b.random|), b.idCount;
    CreatedKeeps(h, r, limbo, x);
    FreshInLimbo(h, r, limbo);
    var c := Created(r, x);
    limbo1, news1 := limbo + {id}, news;
    var k := OwnSlot(h, x);
    SlotRange(h, r, limbo, x.service, x.source);
    if !usable && b.news[k] == -1 {
      FilledKeeps(h, c, limbo1, id, k);
      limbo1, news1 := limbo1 - {id}, news + 1;
      assert limbo1 == limbo;
    }
  }

  lemma {:induction false} FreshInLimbo(h: Hashes, b: Book, limbo: set<int>)
    requires Consistent(h, b, limbo)
    ensures b.idCount !in b.infos && b.idCount !in limbo && |limbo + {b.idCount}| == |limbo| + 1
  {
    hide Indexed, NewPlaced, TriedPlaced, Counted, Sized;
  }

  lemma {:induction false} BlankKept(h: Hashes, nNew: int, nTried: int)
    ensures Consistent(h, Recounted(Blank(nNew, nTried), 0, 0), {})
  {
    EmptyBook(h, Recounted(Blank(nNew, nTried), 0, 0));
  }

  lemma {:induction false} NewsKept(h: Hashes, image: Image, n: nat, usable: bool)
    returns (limbo: set<int>, news: int)
    requires n <= |image.news| && NoNetTwice(image)
    ensures var b := NewsLoaded(h, image, n, usable).(idCount := n);
            Consistent(h, Recounted(b, news, 0), limbo) && NetsTo(image, b.addrs, n) && b.nNew == image.nNew &&
            b.nTried == image.nTried && forall id :: id in b.infos ==> !b.infos[id].inTried
    ensures news + |limbo| == n
  {
    hide Consistent, AddNew, NoNetTwice, NetsTo;
    if n == 0 {
      limbo, news := {}, 0;
      BlankKept(h, image.nNew, image.nTried);
      NoNetsYet(image);
    } else {
      limbo, news := NewsKept(h, image, n - 1, usable);
      var p := NewsLoaded(h, image, n - 1, usable);
      var b := p.(idCount := n - 1);
      NewNet(image, b.addrs, n - 1, n - 1);
      limbo, news := NewKept(h, b, limbo, news, 0, image.news[n - 1], usable);
      AddedNew(h, p, n - 1, image.news[n - 1], usable, n - 1);
    }
  }

  lemma {:induction false} NoNetsYet(image: Image)
    ensures NetsTo(image, map[], 0)
  {
  }

  /** The counters take no part in adding an entry, and only its fields change. */
  lemma {:induction false} AddedNew(h: Hashes, b: Book, id: int, e: Saved, usable: bool, count: int)
    requires Shaped(b)
    ensures var c := AddNew(h, b, id, e, usable);
            c.nNew == b.nNew && c.nTried == b.nTried && c.addrs == b.addrs[e.service.net := id] &&
            (forall k :: k in c.infos ==> k == id || k in b.infos) &&
            (forall k :: k in c.infos ==> c.infos[k].inTried == (k != id && b.infos[k].inTried))
    ensures AddNew(h, b.(idCount := count), id, e, usable) == AddNew(h, b, id, e, usable).(idCount := count)
  {
    hide NewSlot, NewBucket, OwnSlot;
    SlotInTable(h, e.service, NewBucket(h, e.service, e.source));
    SlotOf(h, Fresh(e, |b.random|));
  }

  /** The slot the source of entry k gives it. */
  function SourceSlot(h: Hashes, image: Image, k: nat): (r: nat)
    requires k < |image.news|
    ensures r < NEW_BUCKETS * BUCKET_SIZE
  {
    var e := image.news[k];
    SlotInTable(h, e.service, NewBucket(h, e.service, e.source));
    NewSlot(h, e.service, NewBucket(h, e.service, e.source))
  }

  ghost predicate FirstThere(h: Hashes, image: Image, k: nat)
    requires k < |image.news|
  {
    forall j :: 0 <= j < k ==> SourceSlot(h, image, j) != SourceSlot(h, image, k)
  }

  ghost predicate SourceSlots(h: Hashes, image: Image, b: Book, n: nat)
    requires n <= |image.news| && Shaped(b)
  {
    (forall s :: 0 <= s < |b.news| ==>
      (b.news[s] == -1 <==> forall k :: 0 <= k < n ==> SourceSlot(h, image, k) != s)) &&
    (forall k :: k in b.infos ==> 0 <= k < n) &&
    forall k :: 0 <= k < n ==>
      k in b.infos && b.infos[k].refCount == if FirstThere(h, image, k) then 1 else 0
  }

  lemma {:induction false} OneSource(h: Hashes, image: Image, b: Book, n: nat)
    requires n < |image.news| && Shaped(b) && SourceSlots(h, image, b, n)
    ensures SourceSlots(h, image, AddNew(h, b, n, image.news[n], false), n + 1)
  {
    hide NewSlot, NewBucket, SourceSlot;
    SourceAt(h, image, n, |b.random|);
    var c, s := AddNew(h, b, n, image.news[n], false), SourceSlot(h, image, n);
    forall t | 0 <= t < |c.news|
      ensures c.news[t] == -1 <==> forall k :: 0 <= k < n + 1 ==> SourceSlot(h, image, k) != t
    {
      assert b.news[t] == -1 <==> forall k :: 0 <= k < n ==> SourceSlot(h, image, k) != t;
    }
    assert b.news[s] == -1 <==> FirstThere(h, image, n);
  }

  lemma {:induction false} SourceAt(h: Hashes, image: Image, n: nat, pos: int)
    requires n < |image.news|
    ensures OwnSlot(h, Fresh(image.news[n], pos)) == SourceSlot(h, image, n)
  {
    hide NewSlot, NewBucket;
  }

  /** If the new table of the file cannot be used, an entry is kept, in the slot its source gives it,
      exactly if no entry before it has that slot. */
  lemma {:induction false} KeptBySource(h: Hashes, image: Image, n: nat)
    requires n <= |image.news|
    ensures SourceSlots(h, image, NewsLoaded(h, image, n, false), n)
  {
    hide AddNew, SourceSlot;
    if n > 0 {
      hide SourceSlots;
      KeptBySource(h, image, n - 1);
      OneSource(h, image, NewsLoaded(h, image, n - 1, false), n - 1);
    }
  }

  // --------------------------------------------------------------- the tried entries

  /** 1 if the slot of the entry is free. */
  function Taken(h: Hashes, b: Book, e: Saved): nat
    requires Shaped(b)
  {
    if b.tried[TriedSlot(h, e.service)] != -1 then 0 else 1
  }

  lemma {:induction false} OneTriedKept(h: Hashes, b: Book, limbo: set<int>, news: int, tried: int, e: Saved)
    requires Shaped(b) && Consistent(h, Recounted(b, news, tried), limbo) && e.service.net !in b.addrs
    ensures Consistent(h, Recounted(AddTried(h, b, e), news, tried + Taken(h, b, e)), limbo)
    ensures AddTried(h, b, e).nTried == b.nTried + Taken(h, b, e) - 1 && AddTried(h, b, e).nNew == b.nNew
  {
    hide Consistent, TriedSlot;
    if b.tried[TriedSlot(h, e.service)] == -1 {
      var r, x, id := Recounted(b, news, tried), Fresh(e, |b.random|), b.idCount;
      CreatedKeeps(h, r, limbo, x);
      FreshInLimbo(h, r, limbo);
      PromotedKeeps(h, Created(r, x), limbo + {id}, id);
      assert limbo + {id} - {id} == limbo;
      assert b.infos[id := x][id := x.(inTried := true)] == b.infos[id := x.(inTried := true)];
    }
  }

  lemma {:induction false} TriedKept(h: Hashes, image: Image, b: Book, limbo: set<int>, news: int, n: nat)
    returns (tried: int)
    requires Shaped(b) && n <= |image.tried| && NoNetTwice(image) && NetsTo(image, b.addrs, |image.news|)
    requires Consistent(h, Recounted(b, news, 0), limbo)
    ensures var c := TriedLoaded(h, b, image.tried, n);
            Consistent(h, Recounted(c, news, tried), limbo) && NetsTo(image, c.addrs, |image.news| + n) &&
            c.nNew == b.nNew && c.nTried == b.nTried - n + tried && c.idCount >= b.idCount &&
            forall id :: id in c.infos && id < b.idCount ==> id in b.infos && c.infos[id] == b.infos[id]
  {
    hide Consistent, AddTried, NoNetTwice, NetsTo;
    if n == 0 {
      tried := 0;
    } else {
      tried := TriedKept(h, image, b, limbo, news, n - 1);
      var c, e := TriedLoaded(h, b, image.tried, n - 1), image.tried[n - 1];
      NewNet(image, c.addrs, |image.news| + n - 1, c.idCount);
      OneTriedKept(h, c, limbo, news, tried, e);
      tried := tried + Taken(h, c, e);
      AddedTried(h, c, e);
    }
  }

  lemma {:induction false} AddedTried(h: Hashes, b: Book, e: Saved)
    requires Shaped(b)
    ensures var c := AddTried(h, b, e);
            (c.addrs == b.addrs || c.addrs == b.addrs[e.service.net := b.idCount]) && c.idCount >= b.idCount &&
            forall id :: id in c.infos && id != b.idCount ==> id in b.infos && c.infos[id] == b.infos[id]
  {
    hide TriedSlot;
  }

  // ------------------------------------------------------------------------ the rows

  lemma {:induction false} PlaceKept(h: Hashes, b: Book, limbo: set<int>, news: int, tried: int, bucket: nat,
          index: int)
    returns (limbo1: set<int>, news1: int)
    requires Shaped(b) && bucket < NEW_BUCKETS && Consistent(h, Recounted(b, news, tried), limbo)
    requires forall id :: id in b.infos && id < b.nNew ==> !b.infos[id].inTried
    ensures var c := Place(h, b, bucket, index);
            Consistent(h, Recounted(c, news1, tried), limbo1) && c.nNew == b.nNew && c.nTried == b.nTried &&
            c.idCount == b.idCount && forall id :: id in c.infos && id < c.nNew ==> !c.infos[id].inTried
    ensures news1 + |limbo1| == news + |limbo|
  {
    hide Consistent, NewSlot;
    limbo1, news1 := limbo, news;
    if 0 <= index < b.nNew && index in b.infos {
      SlotInTable(h, b.infos[index].service, bucket);
      var k := NewSlot(h, b.infos[index].service, bucket);
      BucketOf(h, b.infos[index].service, bucket);
      if b.news[k] == -1 && b.infos[index].refCount < NEW_BUCKETS_PER_ADDRESS {
        FilledKeeps(h, Recounted(b, news, tried), limbo, index, k);
        if index in limbo {
          limbo1, news1 := limbo - {index}, news + 1;
        } else {
          assert limbo - {index} == limbo;
        }
      }
    }
  }

  lemma {:induction false} BucketOf(h: Hashes, s: Service, bucket: nat)
    requires bucket < NEW_BUCKETS
    ensures NewSlot(h, s, bucket) / BUCKET_SIZE == bucket
  {
  }

  lemma {:induction false} RowKept(h: Hashes, b: Book, limbo: set<int>, news: int, tried: int, bucket: nat,
          row: seq<int>, n: nat)
    returns (limbo1: set<int>, news1: int)
    requires Shaped(b) && bucket < NEW_BUCKETS && n <= |row| && Consistent(h, Recounted(b, news, tried), limbo)
    requires forall id :: id in b.infos && id < b.nNew ==> !b.infos[id].inTried
    ensures var c := RowLoaded(h, b, bucket, row, n);
            Consistent(h, Recounted(c, news1, tried), limbo1) && c.nNew == b.nNew && c.nTried == b.nTried &&
            c.idCount == b.idCount && forall id :: id in c.infos && id < c.nNew ==> !c.infos[id].inTried
    ensures news1 + |limbo1| == news + |limbo|
  {
    hide Consistent, Place;
    limbo1, news1 := limbo, news;
    if n > 0 {
      limbo1, news1 := RowKept(h, b, limbo, news, tried, bucket, row, n - 1);
      var c := RowLoaded(h, b, bucket, row, n - 1);
      limbo1, news1 := PlaceKept(h, c, limbo1, news1, tried, bucket, row[n - 1]);
    }
  }

  lemma {:induction false} RowsKept(h: Hashes, b: Book, limbo: set<int>, news: int, tried: int, rows: seq<seq<int>>,
          m: nat)
    returns (limbo1: set<int>, news1: int)
    requires Shaped(b) && m <= |rows| && m <= NEW_BUCKETS && Consistent(h, Recounted(b, news, tried), limbo)
    requires forall id :: id in b.infos && id < b.nNew ==> !b.infos[id].inTried
    ensures var c := RowsLoaded(h, b, rows, m);
            Consistent(h, Recounted(c, news1, tried), limbo1) && c.nNew == b.nNew && c.nTried == b.nTried &&
            c.idCount == b.idCount && forall id :: id in c.infos && id < c.nNew ==> !c.infos[id].inTried
    ensures news1 + |limbo1| == news + |limbo|
  {
    hide Consistent, RowLoaded;
    limbo1, news1 := limbo, news;
    if m > 0 {
      limbo1, news1 := RowsKept(h, b, limbo, news, tried, rows, m - 1);
      var c := RowsLoaded(h, b, rows, m - 1);
      limbo1, news1 := RowKept(h, c, limbo1, news1, tried, m - 1, rows[m - 1], |rows[m - 1]|);
    }
  }

  // ------------------------------------------------------------------------ pruning

  /** In a book whose counter of new entries counts those in limbo, too. */
  ghost predicate Settled(h: Hashes, b: Book, limbo: set<int>) {
    Consistent(h, b.(nNew := b.nNew - |limbo|), limbo)
  }

  lemma {:induction false} InLimbo(h: Hashes, b: Book, limbo: set<int>, id: int)
    requires Settled(h, b, limbo)
    ensures id in limbo <==> id in b.infos && !b.infos[id].inTried && b.infos[id].refCount == 0
  {
    if id in b.infos {
      assert RefsOk(b.infos[id], multiset(b.news)[id], id in limbo);
    }
  }

  lemma {:induction false} DeletedCount(b: Book, id: int, n: int)
    requires Removable(b, id)
    ensures Removable(b.(nNew := n), id)
    ensures Deleted(b.(nNew := n), id) == Deleted(b, id).(nNew := n - 1) && Deleted(b, id).nNew == b.nNew - 1
    ensures Deleted(b, id).idCount == b.idCount
  {
  }

  lemma {:induction false} PruneKept(h: Hashes, b: Book, limbo: set<int>, id: int)
    requires Settled(h, b, limbo) && RandomIndexed(b.infos, b.random)
    ensures Settled(h, PruneOne(b, id), limbo - {id}) && PruneOne(b, id).idCount == b.idCount
  {
    hide Consistent, RandomIndexed, Deleted;
    InLimbo(h, b, limbo, id);
    if id in limbo {
      var c, rest := b.(nNew := b.nNew - |limbo| + 1), limbo - {id};
      assert rest + {id} == limbo;
      assert c.(nNew := c.nNew - 1) == b.(nNew := b.nNew - |limbo|);
      DeletedKeeps(h, c, rest, id);
      DeletedRandom(b, id);
      DeletedCount(b, id, c.nNew);
    } else {
      assert limbo - {id} == limbo;
    }
  }

  lemma {:induction false} PrunedKept(h: Hashes, b: Book, limbo: set<int>, n: nat) returns (rest: set<int>)
    requires Settled(h, b, limbo) && RandomIndexed(b.infos, b.random)
    ensures Settled(h, Pruned(b, n), rest) && Pruned(b, n).idCount == b.idCount
    ensures forall id :: id in rest ==> id in limbo && (id < 0 || id >= n)
  {
    hide Settled, RandomIndexed, PruneOne;
    rest := limbo;
    if n > 0 {
      rest := PrunedKept(h, b, limbo, n - 1);
      PruneKept(h, Pruned(b, n - 1), rest, n - 1);
      rest := rest - {n - 1};
    }
  }

  // ----------------------------------------------------------------------- the whole file

  lemma {:induction false} RebuiltKept(h: Hashes, image: Image, usable: bool) returns (limbo: set<int>)
    requires |image.news| == image.nNew && |image.tried| == image.nTried && NoNetTwice(image)
    requires usable ==> |image.rows| == NEW_BUCKETS
    ensures Settled(h, Rebuilt(h, image, usable), limbo)
  {
    hide Consistent, NewsLoaded, TriedLoaded, RowsLoaded, NoNetTwice, NetsTo;
    var news, tried;
    limbo, news := NewsKept(h, image, |image.news|, usable);
    var b := NewsLoaded(h, image, |image.news|, usable).(idCount := image.nNew);
    tried := TriedKept(h, image, b, limbo, news, |image.tried|);
    var c := TriedLoaded(h, b, image.tried, |image.tried|);
    assert c == Recounted(c, c.nNew, tried);
    if usable {
      limbo, news := RowsKept(h, c, limbo, news, tried, image.rows, NEW_BUCKETS);
    }
    var d := Rebuilt(h, image, usable);
    assert d.(nNew := d.nNew - |limbo|) == Recounted(d, news, tried);
  }

  /** A file without double addresses gives a consistent manager. */
  lemma {:induction false} LoadedConsistent(h: Hashes, image: Image)
    requires Readable(image) && 0 <= image.nNew && 0 <= image.nTried && NoNetTwice(image)
    ensures var b := Rebuilt(h, image, Usable(image));
            RandomIndexed(b.infos, b.random) && b.idCount >= 0 && Consistent(h, Pruned(b, b.idCount), {})
  {
    hide Consistent, Rebuilt, RandomIndexed, NoNetTwice, Pruned;
    var b := Rebuilt(h, image, Usable(image));
    RebuiltRandom(h, image);
    var limbo := RebuiltKept(h, image, Usable(image));
    var rest := PrunedKept(h, b, limbo, b.idCount);
    var c := Pruned(b, b.idCount);
    LimboNumbered(h, c.(nNew := c.nNew - |rest|), rest);
    NothingIn(rest, b.idCount);
    assert c.(nNew := c.nNew - |rest|) == c;
  }

  lemma {:induction false} NothingIn(s: set<int>, n: int)
    requires forall id :: id in s ==> 0 <= id < n
    requires forall id :: id in s ==> id < 0 || id >= n
    ensures s == {}
  {
    forall id
      ensures id in s <==> id in {}
    {
    }
  }

  lemma {:induction false} LimboNumbered(h: Hashes, b: Book, limbo: set<int>)
    requires Consistent(h, b, limbo)
    ensures forall id :: id in limbo ==> 0 <= id < b.idCount
  {
  }

  /** With an address twice it need not be: the second of two equal entries finds its slot taken, is
      pruned, and takes the address of the first one along. */
  lemma {:induction false} DoubleAddress(h: Hashes, image: Image, e: Saved)
    requires Readable(image) && !Usable(image) && image.news == [e, e] && image.tried == []
    ensures var b := Rebuilt(h, image, false);
            RandomIndexed(b.infos, b.random) && b.idCount == 2 && !Consistent(h, Pruned(b, 2), {})
  {
    hide NewSlot, NewBucket, Consistent, Readable, Pruned, PruneOne;
    TwoEqual(h, image, e);
    RebuiltRandom(h, image);
    var b := Rebuilt(h, image, false);
    var c := Pruned(b, 2);
    PrunedTwo(b);
    PrunedSecond(b, e);
    AddressGone(h, c, e);
  }

  lemma {:induction false} TwoEqual(h: Hashes, image: Image, e: Saved)
    requires Readable(image) && !Usable(image) && image.news == [e, e] && image.tried == []
    ensures image.nNew == 2
    ensures var b := Rebuilt(h, image, false);
            b.infos == map[0 := Fresh(e, 0).(refCount := 1), 1 := Fresh(e, 1)] && b.addrs == map[e.service.net := 1] &&
            b.random == [0, 1] && b.idCount == 2
  {
    hide NewSlot, NewBucket;
    SlotInTable(h, e.service, NewBucket(h, e.service, e.source));
    SlotOf(h, Fresh(e, 0));
    SlotOf(h, Fresh(e, 1));
    var a := Blank(image.nNew, image.nTried);
    var b := AddNew(h, a, 0, e, false);
    var c := AddNew(h, b, 1, e, false);
    assert NewsLoaded(h, image, 0, false) == a;
    assert NewsLoaded(h, image, 1, false) == b;
    assert NewsLoaded(h, image, 2, false) == c;
    assert b.news[OwnSlot(h, Fresh(e, 0))] == 0;
    assert TriedLoaded(h, c.(idCount := image.nNew), image.tried, 0) == c.(idCount := image.nNew);
  }

  lemma {:induction false} PrunedTwo(b: Book)
    requires RandomIndexed(b.infos, b.random)
    ensures Pruned(b, 2) == PruneOne(PruneOne(b, 0), 1)
  {
    hide PruneOne;
    assert Pruned(b, 0) == b;
    assert Pruned(b, 1) == PruneOne(b, 0);
  }

  lemma {:induction false} PrunedSecond(b: Book, e: Saved)
    requires b.infos == map[0 := Fresh(e, 0).(refCount := 1), 1 := Fresh(e, 1)] && b.addrs == map[e.service.net := 1]
    requires b.random == [0, 1] && RandomIndexed(b.infos, b.random)
    ensures var c := PruneOne(PruneOne(b, 0), 1);
            0 in c.infos && c.infos[0].service.net == e.service.net && e.service.net !in c.addrs
  {
    assert PruneOne(b, 0) == b;
    DeletedRandom(b, 1);
    assert Swapped(b, 1, 1) == b;
  }

  lemma {:induction false} AddressGone(h: Hashes, b: Book, e: Saved)
    requires 0 in b.infos && b.infos[0].service.net == e.service.net && e.service.net !in b.addrs
    ensures !Consistent(h, b, {})
  {
    hide Consistent;
    if Consistent(h, b, {}) {
      HasAddress(h, b, 0);
      assert false;
    }
  }

  lemma {:induction false} HasAddress(h: Hashes, b: Book, id: int)
    requires Consistent(h, b, {}) && id in b.infos
    ensures b.infos[id].service.net in b.addrs
  {
    hide NewPlaced, TriedPlaced, Counted, Sized, Numbered;
    assert AtHome(b.infos[id], id, b.addrs, b.random);
  }

  /** Unserialize on such a file: it succeeds exactly within the limits, and leaves a valid manager. */
  method Load(m: AddrMan, image: Image) returns (ok: bool)
    requires m.vvNew != m.vvTried && Shaped(m.Tables()) && m.mapInfo == map[] && m.mapAddr == map[]
    requires Readable(image) && NoNetTwice(image)
    modifies m, m.vvNew, m.vvTried
    ensures ok <==> image.keySize == 32 && 0 <= image.nNew <= 65_536 && 0 <= image.nTried <= 16_384
    ensures ok ==> m.Valid() && m.nKey == image.key
  {
    hide Consistent, Rebuilt, RandomIndexed, NoNetTwice, Pruned, Readable;
    ok := Unserialize(m, image);
    if ok {
      LoadedConsistent(m.H(), image);
    }
  }
}
