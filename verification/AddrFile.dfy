/** Serialize and Unserialize of the address manager, src/addrman.h. */
module AddrFile {
  import opened Numbers
  import opened AddrBook
  import opened AddrMoves
  import opened AddrMan
  import opened AddrSaved
  import opened AddrReloaded
  import Counting

  // ---------------------------------------------------------------------- writing

  /** The numbers given to the ids below n. */
  ghost predicate NumberedTo(infos: map<int, Info>, unkIds: map<int, int>, n: nat) {
    forall id :: 0 <= id < n && id in infos ==> id in unkIds && unkIds[id] == Rank(infos, id, false)
  }

  /** The first loop of Serialize: the new entries and the numbers of the ids. */
  method WriteNews(m: AddrMan) returns (unkIds: map<int, int>, news: seq<Saved>)
    requires m.Valid()
    ensures m.nIdCount >= 0 && NumberedTo(m.mapInfo, unkIds, m.nIdCount)
    ensures AllIn(m.mapInfo, Chosen(m.mapInfo, m.nIdCount, false))
    ensures news == SaveAll(m.mapInfo, Chosen(m.mapInfo, m.nIdCount, false))
  {
    hide Consistent, SaveAll, Chosen, AllIn;
    Basics(m.H(), m.Tables());
    ChosenAll(m.H(), m.Tables());
    unkIds, news := map[], [];
    var nIds := 0;
    var id := 0;
    ChosenKnown(m.mapInfo, 0, false);
    SaveNone(m.mapInfo, false);
    while id < m.nIdCount
      invariant 0 <= id <= m.nIdCount && nIds == |news| == |Chosen(m.mapInfo, id, false)| &&
        NumberedTo(m.mapInfo, unkIds, id)
      invariant AllIn(m.mapInfo, Chosen(m.mapInfo, id, false))
      invariant news == SaveAll(m.mapInfo, Chosen(m.mapInfo, id, false))
    {
      ChosenKnown(m.mapInfo, id + 1, false);
      ChosenPrefix(m.mapInfo, id + 1, m.nIdCount, false);
      SaveStep(m.mapInfo, id, false);
      if id in m.mapInfo {
        RefsTell(m.H(), m.Tables(), id);
        unkIds := unkIds[id := nIds];
        if m.mapInfo[id].refCount != 0 {
          assert nIds != m.nNew;
          news := news + [Save(m.mapInfo[id])];
          nIds := nIds + 1;
        }
      }
      id := id + 1;
    }
  }

  /** The second loop: the tried entries. */
  method WriteTried(m: AddrMan) returns (tried: seq<Saved>)
    requires m.Valid()
    ensures m.nIdCount >= 0
    ensures AllIn(m.mapInfo, Chosen(m.mapInfo, m.nIdCount, true))
    ensures tried == SaveAll(m.mapInfo, Chosen(m.mapInfo, m.nIdCount, true))
  {
    hide Consistent, SaveAll, Chosen, AllIn;
    Basics(m.H(), m.Tables());
    ChosenAll(m.H(), m.Tables());
    tried := [];
    var nIds := 0;
    var id := 0;
    ChosenKnown(m.mapInfo, 0, true);
    SaveNone(m.mapInfo, true);
    while id < m.nIdCount
      invariant 0 <= id <= m.nIdCount && nIds == |tried| == |Chosen(m.mapInfo, id, true)|
      invariant AllIn(m.mapInfo, Chosen(m.mapInfo, id, true))
      invariant tried == SaveAll(m.mapInfo, Chosen(m.mapInfo, id, true))
    {
      ChosenKnown(m.mapInfo, id + 1, true);
      ChosenPrefix(m.mapInfo, id + 1, m.nIdCount, true);
      SaveStep(m.mapInfo, id, true);
      if id in m.mapInfo && m.mapInfo[id].inTried {
        assert nIds != m.nTried;
        tried := tried + [Save(m.mapInfo[id])];
        nIds := nIds + 1;
      }
      id := id + 1;
    }
  }

  lemma {:induction false} SaveNone(infos: map<int, Info>, tried: bool)
    ensures Chosen(infos, 0, tried) == [] && SaveAll(infos, []) == []
  {
  }

  lemma {:induction false} SaveStep(infos: map<int, Info>, id: nat, tried: bool)
    requires AllIn(infos, Chosen(infos, id, tried)) && AllIn(infos, Chosen(infos, id + 1, tried))
    ensures var chosen := id in infos && infos[id].inTried == tried;
            |Chosen(infos, id + 1, tried)| == |Chosen(infos, id, tried)| + (if chosen then 1 else 0) &&
            SaveAll(infos, Chosen(infos, id + 1, tried)) ==
              SaveAll(infos, Chosen(infos, id, tried)) + if chosen then [Save(infos[id])] else []
  {
  }

  /** Entries with references are the new ones. */
  lemma {:induction false} RefsTell(h: Hashes, b: Book, id: int)
    requires Consistent(h, b, {}) && id in b.infos
    ensures b.infos[id].refCount != 0 <==> !b.infos[id].inTried
  {
    assert RefsOk(b.infos[id], multiset(b.news)[id], false);
  }

  /** A bucket of the new table: the number of its entries, and their numbers. */
  method WriteBucket(m: AddrMan, unkIds: map<int, int>, bucket: nat) returns (nSize: nat, row: seq<int>)
    requires m.Valid() && bucket < NEW_BUCKETS && m.vvNew.Length == NEW_BUCKETS * BUCKET_SIZE
    requires m.nIdCount >= 0 && NumberedTo(m.mapInfo, unkIds, m.nIdCount)
    requires forall k :: 0 <= k < |m.vvNew[..]| ==> m.vvNew[..][k] >= -1
    ensures row == Row(m.mapInfo, m.vvNew[..], bucket, BUCKET_SIZE) && nSize == |row|
  {
    hide Consistent, Rank;
    nSize := 0;
    var i := 0;
    row := [];
    RowNone(m.mapInfo, m.vvNew[..], bucket);
    while i < BUCKET_SIZE
      invariant 0 <= i <= BUCKET_SIZE && row == Row(m.mapInfo, m.vvNew[..], bucket, i) && nSize == |row|
    {
      var id := m.vvNew[bucket * BUCKET_SIZE + i];
      if id != -1 {
        KnownSlot(m.H(), m.Tables(), bucket * BUCKET_SIZE + i);
        nSize := nSize + 1;
        row := row + [unkIds[id]];
      }
      i := i + 1;
    }
  }

  lemma {:induction false} RowNone(infos: map<int, Info>, news: seq<int>, bucket: nat)
    requires (bucket + 1) * BUCKET_SIZE <= |news| && forall k :: 0 <= k < |news| ==> news[k] >= -1
    ensures Row(infos, news, bucket, 0) == []
  {
  }

  lemma {:induction false} KnownSlot(h: Hashes, b: Book, k: nat)
    requires Consistent(h, b, {}) && k < |b.news| && b.news[k] != -1
    ensures b.news[k] in b.infos && 0 <= b.news[k] < b.idCount
  {
  }

  /** Serialize; neither of its assertions fails. */
  method Serialize(m: AddrMan) returns (image: Image)
    requires m.Valid()
    ensures image == ImageOf(m.H(), m.Tables(), m.nKey)
  {
    hide Consistent, SaveAll, Chosen, Row, NumberedTo;
    Basics(m.H(), m.Tables());
    SlotsKnown(m.H(), m.Tables());
    var unkIds, news := WriteNews(m);
    var tried := WriteTried(m);
    var rows: seq<seq<int>> := [];
    var bucket := 0;
    RowsNone(m.mapInfo, m.vvNew[..]);
    while bucket < NEW_BUCKETS
      invariant 0 <= bucket <= NEW_BUCKETS && rows == Rows(m.mapInfo, m.vvNew[..], bucket)
    {
      var nSize, row := WriteBucket(m, unkIds, bucket);
      rows := rows + [row];
      bucket := bucket + 1;
    }
    image := Image(1, 32, m.nKey, m.nNew, m.nTried, NEW_BUCKETS + BIT30, news, tried, rows);
  }

  lemma {:induction false} RowsNone(infos: map<int, Info>, news: seq<int>)
    requires forall k :: 0 <= k < |news| ==> news[k] >= -1
    ensures Rows(infos, news, 0) == []
  {
  }

  // ---------------------------------------------------------------------- reading

  const MAX_NEW := NEW_BUCKETS * BUCKET_SIZE
  const MAX_TRIED := TRIED_BUCKETS * BUCKET_SIZE

  /** The number of buckets the file announces. */
  function Buckets(image: Image): int {
    if image.version != 0 then Flip30(image.buckets) else image.buckets
  }

  /** The file can be read to its end: its counts are 32-bit integers, and it has as many entries
      and buckets as it announces. */
  predicate Readable(image: Image) {
    -0x8000_0000 <= image.nNew < 0x8000_0000 && -0x8000_0000 <= image.nTried < 0x8000_0000 &&
    |image.news| == Max(0, image.nNew) && |image.tried| == Max(0, image.nTried) &&
      |image.rows| == Max(0, Buckets(image))
  }

  /** The new table in the file fits this program's. */
  predicate Usable(image: Image) {
    image.version == 1 && Buckets(image) == NEW_BUCKETS
  }

  lemma {:induction false} AddRandom(infos: map<int, Info>, random: seq<int>, id: int, i: Info)
    requires RandomIndexed(infos, random) && id !in infos && i.randomPos == |random|
    ensures RandomIndexed(infos[id := i], random + [id])
  {
  }

  lemma {:induction false} AddNewRandom(h: Hashes, b: Book, id: int, e: Saved, usable: bool)
    requires Shaped(b) && RandomIndexed(b.infos, b.random) && id !in b.infos
    ensures var c := AddNew(h, b, id, e, usable);
      RandomIndexed(c.infos, c.random) && c.infos.Keys == b.infos.Keys + {id}
  {
    hide OwnSlot, NewBucket, RandomIndexed;
    var i := Fresh(e, |b.random|);
    AddRandom(b.infos, b.random, id, i);
    AddRandom(b.infos, b.random, id, i.(refCount := 1));
    assert b.infos[id := i][id := i.(refCount := 1)] == b.infos[id := i.(refCount := 1)];
  }

  ghost predicate IdsTo(infos: map<int, Info>, n: int) {
    forall k :: k in infos <==> 0 <= k < n
  }

  lemma {:induction false} IdsMore(infos: map<int, Info>, more: map<int, Info>, n: nat)
    requires IdsTo(infos, n) && more.Keys == infos.Keys + {n}
    ensures IdsTo(more, n + 1)
  {
    forall k
      ensures k in more <==> 0 <= k < n + 1
    {
      assert k in more.Keys <==> k in infos.Keys + {n};
    }
  }

  lemma {:induction false} NewsRandom(h: Hashes, image: Image, n: nat, usable: bool)
    requires n <= |image.news|
    ensures var b := NewsLoaded(h, image, n, usable); RandomIndexed(b.infos, b.random) && IdsTo(b.infos, n)
  {
    hide AddNew;
    if n > 0 {
      hide RandomIndexed;
      NewsRandom(h, image, n - 1, usable);
      var b := NewsLoaded(h, image, n - 1, usable);
      AddNewRandom(h, b, n - 1, image.news[n - 1], usable);
      hide IdsTo;
      IdsMore(b.infos, NewsLoaded(h, image, n, usable).infos, n - 1);
    }
  }

  lemma {:induction false} TriedRandom(h: Hashes, b: Book, tried: seq<Saved>, n: nat)
    requires Shaped(b) && n <= |tried| && RandomIndexed(b.infos, b.random) && IdsTo(b.infos, b.idCount) &&
      b.idCount >= 0
    ensures var c := TriedLoaded(h, b, tried, n);
      RandomIndexed(c.infos, c.random) && c.idCount >= 0 && IdsTo(c.infos, c.idCount)
  {
    hide TriedSlot, RandomIndexed;
    if n > 0 {
      TriedRandom(h, b, tried, n - 1);
      var c := TriedLoaded(h, b, tried, n - 1);
      AddRandom(c.infos, c.random, c.idCount, Fresh(tried[n - 1], |c.random|).(inTried := true));
    }
  }

  lemma {:induction false} PlaceRandom(h: Hashes, b: Book, bucket: nat, index: int)
    requires Shaped(b) && bucket < NEW_BUCKETS && RandomIndexed(b.infos, b.random)
    ensures var c := Place(h, b, bucket, index); RandomIndexed(c.infos, c.random) && c.infos.Keys == b.infos.Keys
  {
    hide NewSlot;
  }

  lemma {:induction false} RowRandom(h: Hashes, b: Book, bucket: nat, row: seq<int>, n: nat)
    requires Shaped(b) && bucket < NEW_BUCKETS && n <= |row| && RandomIndexed(b.infos, b.random)
    ensures var c := RowLoaded(h, b, bucket, row, n); RandomIndexed(c.infos, c.random) && c.infos.Keys == b.infos.Keys
  {
    hide Place, RandomIndexed;
    if n > 0 {
      RowRandom(h, b, bucket, row, n - 1);
      PlaceRandom(h, RowLoaded(h, b, bucket, row, n - 1), bucket, row[n - 1]);
    }
  }

  lemma {:induction false} RowsRandom(h: Hashes, b: Book, rows: seq<seq<int>>, m: nat)
    requires Shaped(b) && m <= |rows| && m <= NEW_BUCKETS && RandomIndexed(b.infos, b.random)
    ensures var c := RowsLoaded(h, b, rows, m); RandomIndexed(c.infos, c.random) && c.infos.Keys == b.infos.Keys
  {
    hide RowLoaded, RandomIndexed;
    if m > 0 {
      RowsRandom(h, b, rows, m - 1);
      RowRandom(h, RowsLoaded(h, b, rows, m - 1), m - 1, rows[m - 1], |rows[m - 1]|);
    }
  }

  /** Whatever the file says, the random order lists the entries, numbered from 0. */
  lemma {:induction false} RebuiltRandom(h: Hashes, image: Image)
    requires Readable(image) && image.nNew >= 0
    ensures var b := Rebuilt(h, image, Usable(image));
            RandomIndexed(b.infos, b.random) && b.idCount >= 0 && IdsTo(b.infos, b.idCount)
  {
    hide NewsLoaded, TriedLoaded, RowsLoaded, RandomIndexed;
    var b := NewsLoaded(h, image, |image.news|, Usable(image)).(idCount := image.nNew);
    NewsRandom(h, image, |image.news|, Usable(image));
    TriedRandom(h, b, image.tried, |image.tried|);
    if Usable(image) {
      var c := TriedLoaded(h, b, image.tried, |image.tried|);
      RowsRandom(h, c, image.rows, NEW_BUCKETS);
      RowsFrame(h, c, image.rows, NEW_BUCKETS);
      var d := RowsLoaded(h, c, image.rows, NEW_BUCKETS);
      assert forall k :: k in d.infos.Keys <==> k in c.infos.Keys;
    }
  }

  lemma {:induction false} DeletedRandom(b: Book, id: int)
    requires RandomIndexed(b.infos, b.random) && id in b.infos
    ensures Removable(b, id) && RandomIndexed(Deleted(b, id).infos, Deleted(b, id).random)
  {
    hide Swapped, RandomIndexed, Rest, Dropped;
    CanRemove(b, id);
    SwappedRandom(b, b.infos[id].randomPos, |b.random| - 1);
    SwappedLast(b, b.infos[id].randomPos);
    SwappedSame(b, b.infos[id].randomPos, |b.random| - 1);
    DroppedRandom(Swapped(b, b.infos[id].randomPos, |b.random| - 1), id);
  }

  /** The entry with this id goes if it is new and has no reference. */
  ghost function PruneOne(b: Book, id: int): (r: Book)
    requires RandomIndexed(b.infos, b.random)
    ensures RandomIndexed(r.infos, r.random)
  {
    if id in b.infos && !b.infos[id].inTried && b.infos[id].refCount == 0
    then DeletedRandom(b, id); Deleted(b, id)
    else b
  }

  /** The new entries without a reference below n deleted. */
  ghost function Pruned(b: Book, n: nat): (r: Book)
    requires RandomIndexed(b.infos, b.random)
    ensures RandomIndexed(r.infos, r.random)
  {
    if n == 0 then b else PruneOne(Pruned(b, n - 1), n - 1)
  }

  lemma {:induction false} NotPruned(b: Book, n: nat)
    requires RandomIndexed(b.infos, b.random) && NothingToPrune(b)
    ensures Pruned(b, n) == b
  {
    hide RandomIndexed;
    if n > 0 {
      NotPruned(b, n - 1);
    }
  }

  /** The tables emptied. */
  method Clear(m: AddrMan)
    requires m.vvNew != m.vvTried
    modifies m, m.vvNew, m.vvTried
    ensures m.mapInfo == old(m.mapInfo) && m.mapAddr == old(m.mapAddr) && m.vRandom == []
    ensures m.nIdCount == 0 && m.nNew == 0 && m.nTried == 0
    ensures (forall k :: 0 <= k < m.vvNew.Length ==> m.vvNew[k] == -1) &&
      (forall k :: 0 <= k < m.vvTried.Length ==> m.vvTried[k] == -1)
  {
    m.vRandom := [];
    var k := 0;
    while k < m.vvNew.Length
      invariant 0 <= k <= m.vvNew.Length && forall j :: 0 <= j < k ==> m.vvNew[j] == -1
      modifies m.vvNew
    {
      m.vvNew[k] := -1;
      k := k + 1;
    }
    k := 0;
    while k < m.vvTried.Length
      invariant 0 <= k <= m.vvTried.Length && forall j :: 0 <= j < k ==> m.vvTried[j] == -1
      modifies m.vvTried
    {
      m.vvTried[k] := -1;
      k := k + 1;
    }
    m.nIdCount, m.nTried, m.nNew := 0, 0, 0;
  }

  /** One new entry read. */
  method TakeNew(m: AddrMan, n: int, e: Saved, usable: bool)
    requires m.vvNew != m.vvTried && Shaped(m.Tables())
    modifies m`mapInfo, m`mapAddr, m`vRandom, m.vvNew
    ensures Shaped(m.Tables()) && m.Tables() == AddNew(m.H(), old(m.Tables()), n, e, usable)
  {
    hide OwnSlot, NewBucket;
    var i := Fresh(e, |m.vRandom|);
    SlotInTable(m.H(), i.service, NewBucket(m.H(), i.service, i.source));
    SlotOf(m.H(), i);
    m.mapInfo := m.mapInfo[n := i];
    m.mapAddr := m.mapAddr[e.service.net := n];
    m.vRandom := m.vRandom + [n];
    if !usable {
      var k := OwnSlot(m.H(), i);
      if m.vvNew[k] == -1 {
        m.vvNew[k] := n;
        m.mapInfo := m.mapInfo[n := i.(refCount := i.refCount + 1)];
      }
    }
  }

  /** The new entries read. */
  method ReadNews(m: AddrMan, image: Image)
    requires m.vvNew != m.vvTried && Shaped(m.Tables()) && m.Tables() == Blank(image.nNew, image.nTried)
    requires Readable(image) && image.nNew >= 0
    modifies m`mapInfo, m`mapAddr, m`vRandom, m.vvNew
    ensures m.Tables() == NewsLoaded(m.H(), image, |image.news|, Usable(image))
  {
    hide AddNew, Blank, Shaped;
    var n := 0;
    while n < image.nNew
      invariant 0 <= n <= image.nNew && Shaped(m.Tables()) && m.Tables() == NewsLoaded(m.H(), image, n, Usable(image))
    {
      TakeNew(m, n, image.news[n], Usable(image));
      n := n + 1;
    }
  }

  lemma {:induction false} SlotOf(h: Hashes, i: Info)
    ensures OwnSlot(h, i) == NewSlot(h, i.service, NewBucket(h, i.service, i.source))
  {
  }

  /** One tried entry read; it is lost if its slot is taken. */
  method TakeTried(m: AddrMan, e: Saved) returns (lost: bool)
    requires m.vvNew != m.vvTried && Shaped(m.Tables())
    modifies m, m.vvTried
    ensures m.nKey == old(m.nKey) && m.nTried == old(m.nTried) && Shaped(m.Tables())
    ensures m.Tables().(nTried := m.nTried - if lost then 1 else 0) == AddTried(m.H(), old(m.Tables()), e)
    ensures lost <==> old(m.vvTried[..])[TriedSlot(m.H(), e.service)] != -1
  {
    hide TriedSlot;
    ghost var b := m.Tables();
    var k := TriedSlot(m.H(), e.service);
    lost := m.vvTried[k] != -1;
    if !lost {
      m.mapInfo := m.mapInfo[m.nIdCount := Fresh(e, |m.vRandom|).(inTried := true)];
      m.vRandom := m.vRandom + [m.nIdCount];
      m.mapAddr := m.mapAddr[e.service.net := m.nIdCount];
      m.vvTried[k] := m.nIdCount;
      m.nIdCount := m.nIdCount + 1;
    }
  }

  /** The tried entries read. */
  method ReadTried(m: AddrMan, image: Image)
    requires m.vvNew != m.vvTried && Shaped(m.Tables()) && Readable(image) && image.nTried >= 0
    modifies m, m.vvTried
    ensures m.nKey == old(m.nKey) && m.Tables() == TriedLoaded(m.H(), old(m.Tables()), image.tried, |image.tried|)
  {
    hide TriedSlot, AddTried;
    ghost var h := m.H();
    ghost var b := m.Tables();
    var nLost := 0;
    var n := 0;
    while n < image.nTried
      invariant 0 <= n <= image.nTried && m.nKey == old(m.nKey) && m.nTried == old(m.nTried) && Shaped(m.Tables())
      invariant m.Tables().(nTried := m.nTried - nLost) == TriedLoaded(h, b, image.tried, n)
    {
      TriedShift(h, m.Tables(), image.tried[n], nLost);
      var lost := TakeTried(m, image.tried[n]);
      if lost {
        nLost := nLost + 1;
      }
      n := n + 1;
    }
    m.nTried := m.nTried - nLost;
  }

  lemma {:induction false} TriedShift(h: Hashes, b: Book, e: Saved, n: int)
    requires Shaped(b)
    ensures AddTried(h, b.(nTried := b.nTried - n), e) == AddTried(h, b, e).(nTried := AddTried(h, b, e).nTried - n)
  {
    hide TriedSlot;
  }

  /** One index read: the entry gets the slot if it is free and the entry has references left. */
  method PlaceIndex(m: AddrMan, bucket: nat, index: int)
    requires m.vvNew != m.vvTried && Shaped(m.Tables()) && bucket < NEW_BUCKETS && IdsTo(m.mapInfo, m.nIdCount) &&
      m.nNew <= m.nIdCount
    modifies m`mapInfo, m.vvNew
    ensures Shaped(m.Tables()) && IdsTo(m.mapInfo, m.nIdCount) &&
      m.Tables() == Place(m.H(), old(m.Tables()), bucket, index)
  {
    hide NewSlot, IdsTo;
    if 0 <= index < m.nNew {
      IdKnown(m.mapInfo, m.nIdCount, index);
      SlotInTable(m.H(), m.mapInfo[index].service, bucket);
      var k := NewSlot(m.H(), m.mapInfo[index].service, bucket);
      if m.vvNew[k] == -1 && m.mapInfo[index].refCount < NEW_BUCKETS_PER_ADDRESS {
        IdKept(m.mapInfo, m.nIdCount, index, m.mapInfo[index].(refCount := m.mapInfo[index].refCount + 1));
        m.mapInfo := m.mapInfo[index := m.mapInfo[index].(refCount := m.mapInfo[index].refCount + 1)];
        m.vvNew[k] := index;
      }
    }
  }

  /** The indices of one bucket read. */
  method ReadRow(m: AddrMan, bucket: nat, row: seq<int>)
    requires m.vvNew != m.vvTried && Shaped(m.Tables()) && bucket < NEW_BUCKETS && IdsTo(m.mapInfo, m.nIdCount) &&
      m.nNew <= m.nIdCount
    modifies m`mapInfo, m.vvNew
    ensures Shaped(m.Tables()) && IdsTo(m.mapInfo, m.nIdCount) &&
      m.Tables() == RowLoaded(m.H(), old(m.Tables()), bucket, row, |row|)
  {
    hide IdsTo, Place, Shaped;
    ghost var b := m.Tables();
    for n := 0 to |row|
      invariant Shaped(m.Tables()) && IdsTo(m.mapInfo, m.nIdCount) && m.Tables() == RowLoaded(m.H(), b, bucket, row, n)
    {
      PlaceIndex(m, bucket, row[n]);
    }
  }

  lemma {:induction false} IdKnown(infos: map<int, Info>, n: int, k: int)
    requires IdsTo(infos, n) && 0 <= k < n
    ensures k in infos
  {
  }

  lemma {:induction false} IdKept(infos: map<int, Info>, n: int, k: int, i: Info)
    requires IdsTo(infos, n) && k in infos
    ensures IdsTo(infos[k := i], n)
  {
  }

  /** The buckets read. */
  method ReadRows(m: AddrMan, image: Image)
    requires m.vvNew != m.vvTried && Shaped(m.Tables()) && IdsTo(m.mapInfo, m.nIdCount) && m.nNew <= m.nIdCount
    requires Readable(image)
    modifies m, m.vvNew
    ensures m.nKey == old(m.nKey) && Shaped(m.Tables())
    ensures m.Tables() == if Usable(image)
      then RowsLoaded(m.H(), old(m.Tables()), image.rows, NEW_BUCKETS) else old(m.Tables())
  {
    hide RowLoaded, IdsTo;
    ghost var h := m.H();
    ghost var b := m.Tables();
    var bucket := 0;
    while bucket < Buckets(image)
      invariant 0 <= bucket <= |image.rows| && m.nKey == old(m.nKey) && m.nNew <= m.nIdCount && Shaped(m.Tables()) &&
        IdsTo(m.mapInfo, m.nIdCount)
      invariant m.Tables() == if Usable(image) then RowsLoaded(h, b, image.rows, bucket) else b
    {
      if Usable(image) {
        ReadRow(m, bucket, image.rows[bucket]);
      }
      bucket := bucket + 1;
    }
  }

  /** The new entries without a reference deleted. */
  method Prune(m: AddrMan)
    requires m.vvNew != m.vvTried && RandomIndexed(m.mapInfo, m.vRandom) && m.nIdCount >= 0
    modifies m
    ensures m.nKey == old(m.nKey) && m.Tables() == Pruned(old(m.Tables()), old(m.nIdCount))
  {
    hide RandomIndexed, Deleted;
    ghost var b := m.Tables();
    for id := 0 to m.nIdCount
      invariant m.nKey == old(m.nKey) && RandomIndexed(m.mapInfo, m.vRandom) && m.Tables() == Pruned(b, id)
    {
      if id in m.mapInfo && !m.mapInfo[id].inTried && m.mapInfo[id].refCount == 0 {
        m.Delete(id);
      }
    }
  }

  /** Unserialize, into a fresh object. It throws if the key has the wrong size or a count is out
      of range, a negative one included. */
  method Unserialize(m: AddrMan, image: Image) returns (ok: bool)
    requires m.vvNew != m.vvTried && Shaped(m.Tables()) && m.mapInfo == map[] && m.mapAddr == map[]
    requires Readable(image)
    modifies m, m.vvNew, m.vvTried
    ensures ok <==> image.keySize == 32 && 0 <= image.nNew <= MAX_NEW && 0 <= image.nTried <= MAX_TRIED
    ensures ok ==> m.nKey == image.key && var b := Rebuilt(m.H(), image, Usable(image));
                   RandomIndexed(b.infos, b.random) && b.idCount >= 0 && m.Tables() == Pruned(b, b.idCount)
  {
    hide Rebuilt, Pruned, RandomIndexed, Blank, Usable;
    Clear(m);
    if image.keySize != 32 {
      return false;
    }
    m.nKey := image.key;
    m.nNew := image.nNew;
    m.nTried := image.nTried;
    if Unsigned(m.nNew) > MAX_NEW {
      return false;
    }
    if Unsigned(m.nTried) > MAX_TRIED {
      return false;
    }
    BlankTables(m.Tables(), image.nNew, image.nTried);
    ReadTables(m, image);
    Prune(m);
    ok := true;
  }

  /** The entries and the new table. */
  method ReadTables(m: AddrMan, image: Image)
    requires m.vvNew != m.vvTried && Shaped(m.Tables()) && m.Tables() == Blank(image.nNew, image.nTried)
    requires Readable(image) && image.nNew >= 0 && image.nTried >= 0
    modifies m, m.vvNew, m.vvTried
    ensures m.nKey == old(m.nKey) && m.Tables() == Rebuilt(m.H(), image, Usable(image))
    ensures RandomIndexed(m.mapInfo, m.vRandom) && m.nIdCount >= 0
  {
    hide NewsLoaded, TriedLoaded, RowsLoaded, RandomIndexed, IdsTo, Blank, Usable;
    ghost var h := m.H();
    ReadNews(m, image);
    m.nIdCount := m.nNew;
    NewsCounts(h, image, |image.news|, Usable(image));
    NewsRandom(h, image, |image.news|, Usable(image));
    ghost var b := m.Tables();
    ReadTried(m, image);
    TriedRandom(h, b, image.tried, |image.tried|);
    TriedCounts(h, b, image.tried, |image.tried|);
    ReadRows(m, image);
    RebuiltRandom(h, image);
  }

  lemma {:induction false} BlankTables(b: Book, nNew: int, nTried: int)
    requires Shaped(b) && b.infos == map[] && b.addrs == map[] && b.random == [] && b.nNew == nNew &&
      b.nTried == nTried && b.idCount == 0
    requires (forall k :: 0 <= k < |b.news| ==> b.news[k] == -1) &&
      (forall k :: 0 <= k < |b.tried| ==> b.tried[k] == -1)
    ensures b == Blank(nNew, nTried)
  {
    var c := Blank(nNew, nTried);
    assert b.news == c.news && b.tried == c.tried;
  }

  lemma {:induction false} NewsCounts(h: Hashes, image: Image, n: nat, usable: bool)
    requires n <= |image.news|
    ensures var b := NewsLoaded(h, image, n, usable); b.nNew == image.nNew && b.nTried == image.nTried && b.idCount == 0
  {
    hide OwnSlot, NewBucket;
    if n > 0 {
      NewsCounts(h, image, n - 1, usable);
    }
  }

  lemma {:induction false} TriedCounts(h: Hashes, b: Book, tried: seq<Saved>, n: nat)
    requires Shaped(b) && n <= |tried|
    ensures var c := TriedLoaded(h, b, tried, n); c.nNew == b.nNew && c.idCount >= b.idCount
  {
    hide TriedSlot;
    if n > 0 {
      TriedCounts(h, b, tried, n - 1);
    }
  }

  // ------------------------------------------------------------------- the round trip

  lemma {:induction false} FlipBack()
    ensures Flip30(NEW_BUCKETS + BIT30) == NEW_BUCKETS
  {
  }

  lemma {:induction false} ImageReadable(h: Hashes, a: Book, key: nat)
    requires Consistent(h, a, {})
    ensures var image := ImageOf(h, a, key);
            Readable(image) && Usable(image) && image.keySize == 32 && image.key == key && 0 <= image.nNew <= MAX_NEW &&
              0 <= image.nTried <= MAX_TRIED
  {
    ChosenAll(h, a);
    ImageSizes(h, a, key);
    FlipBack();
    SlotLimits(h, a);
    hide Consistent, Chosen, Rows;
  }

  lemma {:induction false} SlotSet(slots: seq<int>)
    ensures |set x | x in slots| <= |slots|
  {
    if slots == [] {
      assert (set x | x in slots) == {};
    } else {
      var n := |slots| - 1;
      SlotSet(slots[..n]);
      var init := set x | x in slots[..n];
      assert (set x | x in slots) == init + {slots[n]};
      Counting.SubsetSize(init, init + {slots[n]});
    }
  }

  /** Different ids that all occur in a table are no more than its slots. */
  lemma {:induction false} Pigeons(slots: seq<int>, ids: set<int>)
    requires forall id :: id in ids ==> id in slots
    ensures |ids| <= |slots|
  {
    SlotSet(slots);
    var all := set x | x in slots;
    forall id | id in ids
      ensures id in all
    {
      assert id in slots;
    }
    Counting.SubsetSize(ids, all);
  }

  /** There are no more new or tried entries than slots. */
  lemma {:induction false} SlotLimits(h: Hashes, a: Book)
    requires Consistent(h, a, {})
    ensures a.nNew <= MAX_NEW && a.nTried <= MAX_TRIED
  {
    hide Indexed, NewPlaced, TriedPlaced, Counted, Numbered;
    IdsAndSizes(h, a, {});
    TriedLimit(h, a.infos, a.tried);
    NewLimit(h, a);
    assert NewIds(a.infos) - {} == NewIds(a.infos);
  }

  lemma {:induction false} TriedLimit(h: Hashes, infos: map<int, Info>, tried: seq<int>)
    requires TriedPlaced(h, infos, tried)
    ensures |TriedIds(infos)| <= |tried|
  {
    hide TriedSlot;
    forall id | id in TriedIds(infos)
      ensures id in tried
    {
      assert InSlot(h, infos[id], id, tried);
    }
    Pigeons(tried, TriedIds(infos));
  }

  lemma {:induction false} NewLimit(h: Hashes, a: Book)
    requires Consistent(h, a, {})
    ensures |NewIds(a.infos)| <= |a.news|
  {
    hide Consistent;
    forall id | id in NewIds(a.infos)
      ensures id in a.news
    {
      RefBound(h, a, id);
      CountOf(h, a, {}, id);
      assert id in multiset(a.news);
    }
    Pigeons(a.news, NewIds(a.infos));
  }

  /** A saved and reloaded address manager holds the same tables under new ids: the same entries in
      the same slots, the last tries forgotten, none lost and none pruned. */
  method SaveAndLoad(m: AddrMan, loaded: AddrMan) returns (ok: bool)
    requires m.Valid() && m.hashes == loaded.hashes
    requires loaded.vvNew != loaded.vvTried && Shaped(loaded.Tables()) && loaded.mapInfo == map[] &&
      loaded.mapAddr == map[]
    modifies loaded, loaded.vvNew, loaded.vvTried
    ensures ok && loaded.nKey == old(m.nKey) && loaded.Valid()
    ensures old(Numbered(m.mapInfo, m.nIdCount) && m.nIdCount >= 0) && Renamed(old(m.Tables()), loaded.Tables())
  {
    hide Consistent, ImageOf, Rebuilt, Pruned, Renamed, Readable, Usable, RandomIndexed, NothingToPrune, Numbered;
    ghost var a, h, key := m.Tables(), m.H(), m.nKey;
    ImageReadable(h, a, key);
    BookRoundTrip(h, a, key);
    Basics(h, a);
    var image := Serialize(m);
    ok := Unserialize(loaded, image);
    NotPruned(Rebuilt(h, image, true), Rebuilt(h, image, true).idCount);
    ReloadedConsistent(h, a, loaded.Tables());
  }
}
