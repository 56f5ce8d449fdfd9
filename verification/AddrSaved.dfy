/** The address manager's tables as they are written to peers.dat and read back, src/addrman.h. */
module AddrSaved {
  import opened AddrBook
  import opened AddrMoves
  import opened AddrMan

  // ---------------------------------------------------------------- what is written

  /** What is stored of an entry. */
  datatype Saved = Saved(service: Service, services: bv64, time: int, source: Net, lastSuccess: int, attempts: int)

  function Save(i: Info): Saved {
    Saved(i.service, i.services, i.time, i.source, i.lastSuccess, i.attempts)
  }

  /** The fields of the file, in their order. */
  datatype Image = Image(version: nat, keySize: nat, key: nat, nNew: int, nTried: int, buckets: int,
                         news: seq<Saved>, tried: seq<Saved>, rows: seq<seq<int>>)

  const BIT30 := 0x4000_0000

  /** x with bit 30 turned over. */
  function Flip30(x: int): int {
    if x / BIT30 % 2 == 1 then x - BIT30 else x + BIT30
  }

  /** The ids below n of tried, or of new, entries, in ascending order. */
  function Chosen(infos: map<int, Info>, n: nat, tried: bool): (r: seq<int>)
    ensures |r| <= n
  {
    if n == 0 then []
    else
      var id := n - 1;
      Chosen(infos, n - 1, tried) + if id in infos && infos[id].inTried == tried then [id] else []
  }

  /** How many such ids come before id: its number in the file. */
  function Rank(infos: map<int, Info>, id: nat, tried: bool): nat {
    |Chosen(infos, id, tried)|
  }

  predicate AllIn(infos: map<int, Info>, ids: seq<int>) {
    forall k :: 0 <= k < |ids| ==> ids[k] in infos
  }

  function SaveAll(infos: map<int, Info>, ids: seq<int>): (r: seq<Saved>)
    requires AllIn(infos, ids)
    ensures |r| == |ids| && forall k :: 0 <= k < |ids| ==> r[k] == Save(infos[ids[k]])
  {
    seq(|ids|, k requires 0 <= k < |ids| => Save(infos[ids[k]]))
  }

  /** The numbers of the entries in the first n slots of a bucket, empty slots left out. */
  function Row(infos: map<int, Info>, news: seq<int>, bucket: nat, n: nat): seq<int>
    requires n <= BUCKET_SIZE && (bucket + 1) * BUCKET_SIZE <= |news| && forall k :: 0 <= k < |news| ==> news[k] >= -1
  {
    if n == 0 then []
    else
      var id := news[bucket * BUCKET_SIZE + n - 1];
      Row(infos, news, bucket, n - 1) + if id == -1 then [] else [Rank(infos, id, false)]
  }

  function Rows(infos: map<int, Info>, news: seq<int>, m: nat): (r: seq<seq<int>>)
    requires m * BUCKET_SIZE <= |news| && forall k :: 0 <= k < |news| ==> news[k] >= -1
    ensures |r| == m
  {
    if m == 0 then [] else Rows(infos, news, m - 1) + [Row(infos, news, m - 1, BUCKET_SIZE)]
  }

  // ------------------------------------------------------------- ids and their numbers

  lemma {:induction false} ChosenSound(infos: map<int, Info>, n: nat, tried: bool)
    ensures forall k :: 0 <= k < |Chosen(infos, n, tried)| ==>
      var id := Chosen(infos, n, tried)[k]; 0 <= id < n && id in infos && infos[id].inTried == tried
  {
    if n > 0 {
      ChosenSound(infos, n - 1, tried);
    }
  }

  lemma {:induction false} ChosenPrefix(infos: map<int, Info>, m: nat, n: nat, tried: bool)
    requires m <= n
    ensures Chosen(infos, m, tried) <= Chosen(infos, n, tried)
  {
    if m < n {
      ChosenPrefix(infos, m, n - 1, tried);
    }
  }

  /** An id is found at its number. */
  lemma {:induction false} RankFinds(infos: map<int, Info>, id: nat, n: nat, tried: bool)
    requires id < n && id in infos && infos[id].inTried == tried
    ensures Rank(infos, id, tried) < |Chosen(infos, n, tried)| && Chosen(infos, n, tried)[Rank(infos, id, tried)] == id
  {
    ChosenPrefix(infos, id + 1, n, tried);
  }

  /** The number of the id found at k is k. */
  lemma {:induction false} RankOf(infos: map<int, Info>, n: nat, tried: bool, k: nat)
    requires k < |Chosen(infos, n, tried)|
    ensures var id := Chosen(infos, n, tried)[k]; 0 <= id < n && Rank(infos, id, tried) == k
  {
    ChosenSound(infos, n, tried);
    if k < |Chosen(infos, n - 1, tried)| {
      RankOf(infos, n - 1, tried, k);
    }
  }

  lemma {:induction false} ChosenCount(infos: map<int, Info>, n: nat, tried: bool)
    ensures |set id | 0 <= id < n && id in infos && infos[id].inTried == tried| == |Chosen(infos, n, tried)|
  {
    var s := set id | 0 <= id < n && id in infos && infos[id].inTried == tried;
    if n > 0 {
      ChosenCount(infos, n - 1, tried);
      var t := set id | 0 <= id < n - 1 && id in infos && infos[id].inTried == tried;
      if n - 1 in infos && infos[n - 1].inTried == tried {
        assert s == t + {n - 1};
      } else {
        assert s == t;
      }
    }
  }

  /** All ids are numbered. */
  lemma {:induction false} ChosenAll(h: Hashes, b: Book)
    requires Consistent(h, b, {})
    ensures |Chosen(b.infos, b.idCount, false)| == b.nNew && |Chosen(b.infos, b.idCount, true)| == b.nTried
  {
    hide Indexed, NewPlaced, TriedPlaced, Counted, Chosen;
    ChosenCount(b.infos, b.idCount, false);
    ChosenCount(b.infos, b.idCount, true);
    SetsOfIds(b.infos, b.idCount);
    assert NewIds(b.infos) - {} == NewIds(b.infos);
  }

  lemma {:induction false} SetsOfIds(infos: map<int, Info>, n: nat)
    requires Numbered(infos, n)
    ensures (set id | 0 <= id < n && id in infos && infos[id].inTried == false) == NewIds(infos)
    ensures (set id | 0 <= id < n && id in infos && infos[id].inTried == true) == TriedIds(infos)
  {
  }

  // ------------------------------------------------------------------ what is read back

  function Fresh(e: Saved, pos: int): Info {
    Info(e.service, e.services, e.time, e.source, 0, e.lastSuccess, e.attempts, 0, false, pos)
  }

  ghost predicate Shaped(b: Book) {
    |b.news| == NEW_BUCKETS * BUCKET_SIZE && |b.tried| == TRIED_BUCKETS * BUCKET_SIZE
  }

  lemma {:induction false} SlotInTable(h: Hashes, s: Service, bucket: nat)
    requires bucket < NEW_BUCKETS
    ensures NewSlot(h, s, bucket) < NEW_BUCKETS * BUCKET_SIZE
  {
  }

  function Blank(nNew: int, nTried: int): (b: Book)
    ensures Shaped(b)
  {
    Book(map[], map[], [], seq(NEW_BUCKETS * BUCKET_SIZE, _ => -1), seq(TRIED_BUCKETS * BUCKET_SIZE, _ => -1), nNew,
      nTried, 0)
  }

  /** A new entry read. If the table in the file cannot be used, it gets the slot its source gives. */
  function AddNew(h: Hashes, b: Book, id: int, e: Saved, usable: bool): (r: Book)
    requires Shaped(b)
    ensures Shaped(r)
  {
    var i := Fresh(e, |b.random|);
    var c := b.(infos := b.infos[id := i], addrs := b.addrs[e.service.net := id], random := b.random + [id]);
    SlotInTable(h, i.service, NewBucket(h, i.service, i.source));
    if !usable && b.news[OwnSlot(h, i)] == -1 then
      c.(news := c.news[OwnSlot(h, i) := id], infos := c.infos[id := i.(refCount := 1)])
    else c
  }

  function NewsLoaded(h: Hashes, image: Image, n: nat, usable: bool): (r: Book)
    requires n <= |image.news|
    ensures Shaped(r)
  {
    if n == 0 then Blank(image.nNew, image.nTried)
      else AddNew(h, NewsLoaded(h, image, n - 1, usable), n - 1, image.news[n - 1], usable)
  }

  /** A tried entry read; it is lost if its slot is taken. */
  function AddTried(h: Hashes, b: Book, e: Saved): (r: Book)
    requires Shaped(b)
    ensures Shaped(r)
  {
    var k := TriedSlot(h, e.service);
    if b.tried[k] != -1 then b.(nTried := b.nTried - 1)
    else
      b.(infos := b.infos[b.idCount := Fresh(e, |b.random|).(inTried := true)],
        addrs := b.addrs[e.service.net := b.idCount],
         random := b.random + [b.idCount], tried := b.tried[k := b.idCount], idCount := b.idCount + 1)
  }

  function TriedLoaded(h: Hashes, b: Book, tried: seq<Saved>, n: nat): (r: Book)
    requires Shaped(b) && n <= |tried|
    ensures Shaped(r)
  {
    if n == 0 then b else AddTried(h, TriedLoaded(h, b, tried, n - 1), tried[n - 1])
  }

  /** One index of a bucket read. */
  function Place(h: Hashes, b: Book, bucket: nat, index: int): (r: Book)
    requires Shaped(b) && bucket < NEW_BUCKETS
    ensures Shaped(r)
  {
    if 0 <= index < b.nNew && index in b.infos then
      SlotInTable(h, b.infos[index].service, bucket);
      var k := NewSlot(h, b.infos[index].service, bucket);
      if b.news[k] == -1 && b.infos[index].refCount < NEW_BUCKETS_PER_ADDRESS then
        b.(infos := b.infos[index := b.infos[index].(refCount := b.infos[index].refCount + 1)],
          news := b.news[k := index])
      else b
    else b
  }

  function RowLoaded(h: Hashes, b: Book, bucket: nat, row: seq<int>, n: nat): (r: Book)
    requires Shaped(b) && bucket < NEW_BUCKETS && n <= |row|
    ensures Shaped(r)
  {
    if n == 0 then b else Place(h, RowLoaded(h, b, bucket, row, n - 1), bucket, row[n - 1])
  }

  function RowsLoaded(h: Hashes, b: Book, rows: seq<seq<int>>, m: nat): (r: Book)
    requires Shaped(b) && m <= |rows| && m <= NEW_BUCKETS
    ensures Shaped(r)
  {
    if m == 0 then b else var row := rows[m - 1]; RowLoaded(h, RowsLoaded(h, b, rows, m - 1), m - 1, row, |row|)
  }

  // ---------------------------------------------------------- the tables under new ids

  /** The id an entry has after being read back: new entries first, then tried ones. */
  function NewId(a: Book, id: int): int
    requires id in a.infos && id >= 0 && a.idCount >= 0
  {
    if a.infos[id].inTried
      then |Chosen(a.infos, a.idCount, false)| + Rank(a.infos, id, true) else Rank(a.infos, id, false)
  }

  /** The entry as it is read back. */
  function Reborn(i: Info, id: int): Info {
    i.(lastTry := 0, randomPos := id)
  }

  /** 0, 1, and so on, below n. */
  function UpTo(n: int): seq<int> {
    if n <= 0 then [] else UpTo(n - 1) + [n - 1]
  }

  /** b holds what a holds, with other ids, another random order and the last tries forgotten. */
  ghost predicate Renamed(a: Book, b: Book)
    requires Numbered(a.infos, a.idCount) && a.idCount >= 0
  {
    (forall k :: k in b.infos <==> 0 <= k < a.nNew + a.nTried) &&
    (forall id :: id in a.infos ==>
      NewId(a, id) in b.infos && b.infos[NewId(a, id)] == Reborn(a.infos[id], NewId(a, id))) &&
    (forall n :: n in b.addrs <==> n in a.addrs) &&
    (forall n :: n in a.addrs ==> a.addrs[n] in a.infos && b.addrs[n] == NewId(a, a.addrs[n])) &&
    b.random == UpTo(a.nNew + a.nTried) &&
    SameSlots(a, a.news, b.news) && SameSlots(a, a.tried, b.tried) &&
    b.nNew == a.nNew && b.nTried == a.nTried && b.idCount == a.nNew + a.nTried
  }

  ghost predicate SameSlots(a: Book, x: seq<int>, y: seq<int>)
    requires Numbered(a.infos, a.idCount) && a.idCount >= 0
  {
    |x| == |y| && forall k :: 0 <= k < |x| ==>
      if x[k] == -1 then y[k] == -1 else x[k] in a.infos && y[k] == NewId(a, x[k])
  }

  // --------------------------------------------------------------------- reading entries

  /** The id in a of the entry with number k in the file, new entries first. */
  function OldId(a: Book, k: nat): (id: int)
    requires a.idCount >= 0 && k < |Chosen(a.infos, a.idCount, false)| + |Chosen(a.infos, a.idCount, true)|
  {
    var n := |Chosen(a.infos, a.idCount, false)|;
    if k < n then Chosen(a.infos, a.idCount, false)[k] else Chosen(a.infos, a.idCount, true)[k - n]
  }

  /** Old and new ids are each other's inverses. */
  lemma {:induction false} IdsMatch(a: Book, k: nat)
    requires Numbered(a.infos, a.idCount) && a.idCount >= 0
    requires k < |Chosen(a.infos, a.idCount, false)| + |Chosen(a.infos, a.idCount, true)|
    ensures var id := OldId(a, k);
            id in a.infos && NewId(a, id) == k && (a.infos[id].inTried <==> k >= |Chosen(a.infos, a.idCount, false)|)
  {
    var n := |Chosen(a.infos, a.idCount, false)|;
    if k < n {
      ChosenSound(a.infos, a.idCount, false);
      RankOf(a.infos, a.idCount, false, k);
    } else {
      ChosenSound(a.infos, a.idCount, true);
      RankOf(a.infos, a.idCount, true, k - n);
    }
  }

  lemma {:induction false} IdsMatchBack(a: Book, id: int)
    requires Numbered(a.infos, a.idCount) && a.idCount >= 0 && id in a.infos
    ensures 0 <= NewId(a, id) < |Chosen(a.infos, a.idCount, false)| + |Chosen(a.infos, a.idCount, true)| &&
      OldId(a, NewId(a, id)) == id
  {
    RankFinds(a.infos, id, a.idCount, a.infos[id].inTried);
  }

  /** The entry as it is right after being read. */
  function Unplaced(i: Info, k: int, refs: int): Info {
    i.(lastTry := 0, randomPos := k, refCount := refs)
  }

  ghost predicate InfosTo(a: Book, infos: map<int, Info>, n: nat)
    requires a.idCount >= 0 && n <= |Chosen(a.infos, a.idCount, false)| + |Chosen(a.infos, a.idCount, true)|
  {
    (forall k :: k in infos <==> 0 <= k < n) &&
    (forall k :: 0 <= k < n ==> OldId(a, k) in a.infos && infos[k] == Unplaced(a.infos[OldId(a, k)], k, 0))
  }

  ghost predicate AddrsTo(a: Book, addrs: map<Net, int>, n: nat)
    requires Numbered(a.infos, a.idCount) && a.idCount >= 0
  {
    forall net :: AddrTo(a, addrs, n, net)
  }

  ghost predicate AddrTo(a: Book, addrs: map<Net, int>, n: nat, net: Net)
    requires Numbered(a.infos, a.idCount) && a.idCount >= 0
  {
    (net in addrs <==> net in a.addrs && a.addrs[net] in a.infos && NewId(a, a.addrs[net]) < n) &&
    (net in addrs ==> addrs[net] == NewId(a, a.addrs[net]))
  }

  ghost predicate TriedTo(a: Book, tried: seq<int>, n: nat)
    requires Numbered(a.infos, a.idCount) && a.idCount >= 0
  {
    |tried| == |a.tried| &&
    forall k :: 0 <= k < |tried| ==>
      tried[k] == if a.tried[k] in a.infos && NewId(a, a.tried[k]) < n then NewId(a, a.tried[k]) else -1
  }

  /** The first n entries of the file have been read. */
  ghost predicate Loaded(a: Book, b: Book, n: nat)
    requires Numbered(a.infos, a.idCount) && a.idCount >= 0 &&
      n <= |Chosen(a.infos, a.idCount, false)| + |Chosen(a.infos, a.idCount, true)|
  {
    InfosTo(a, b.infos, n) && AddrsTo(a, b.addrs, n) && TriedTo(a, b.tried, n) && b.random == UpTo(n)
  }

  lemma {:induction false} InfosStep(a: Book, infos: map<int, Info>, n: nat)
    requires Numbered(a.infos, a.idCount) && a.idCount >= 0 &&
      n < |Chosen(a.infos, a.idCount, false)| + |Chosen(a.infos, a.idCount, true)|
    requires InfosTo(a, infos, n)
    ensures OldId(a, n) in a.infos && InfosTo(a, infos[n := Unplaced(a.infos[OldId(a, n)], n, 0)], n + 1)
  {
    IdsMatch(a, n);
    hide OldId, NewId;
  }

  lemma {:induction false} AddrStep(a: Book, addrs: map<Net, int>, n: nat, net: Net, id: int)
    requires Numbered(a.infos, a.idCount) && a.idCount >= 0 && id in a.infos && NewId(a, id) == n
    requires a.infos[id].service.net in a.addrs && a.addrs[a.infos[id].service.net] == id
    requires net in a.addrs ==> a.addrs[net] in a.infos && a.infos[a.addrs[net]].service.net == net
    requires net in a.addrs && NewId(a, a.addrs[net]) == n ==> a.addrs[net] == id
    requires AddrTo(a, addrs, n, net)
    ensures AddrTo(a, addrs[a.infos[id].service.net := n], n + 1, net)
  {
    hide NewId;
  }

  lemma {:induction false} AddrsStep(h: Hashes, a: Book, addrs: map<Net, int>, n: nat)
    requires Consistent(h, a, {}) && n < |Chosen(a.infos, a.idCount, false)| + |Chosen(a.infos, a.idCount, true)|
    requires AddrsTo(a, addrs, n)
    ensures OldId(a, n) in a.infos && AddrsTo(a, addrs[a.infos[OldId(a, n)].service.net := n], n + 1)
  {
    hide OldId, NewId, NewPlaced, TriedPlaced, Counted, Sized, AddrTo, Chosen;
    IdsMatch(a, n);
    var id := OldId(a, n);
    assert AtHome(a.infos[id], id, a.addrs, a.random);
    var after := addrs[a.infos[id].service.net := n];
    var m := n + 1;
    forall net
      ensures AddrTo(a, after, m, net)
    {
      assert AddrTo(a, addrs, n, net);
      if net in a.addrs {
        IdsMatchBack(a, a.addrs[net]);
      }
      AddrStep(a, addrs, n, net, id);
    }
  }

  lemma {:induction false} TriedStep(h: Hashes, a: Book, tried: seq<int>, n: nat)
    requires Consistent(h, a, {}) && n < |Chosen(a.infos, a.idCount, false)| + |Chosen(a.infos, a.idCount, true)|
    requires TriedTo(a, tried, n) && OldId(a, n) in a.infos
    ensures var i := a.infos[OldId(a, n)];
            |tried| == TRIED_BUCKETS * BUCKET_SIZE &&
            if i.inTried then tried[TriedSlot(h, i.service)] == -1 &&
              TriedTo(a, tried[TriedSlot(h, i.service) := n], n + 1)
            else TriedTo(a, tried, n + 1)
  {
    hide OldId, NewId, Consistent, TriedSlot, Chosen;
    Basics(h, a);
    IdsMatch(a, n);
    var id := OldId(a, n);
    var i := a.infos[id];
    if i.inTried {
      TriedHere(h, a, id);
      var after := tried[TriedSlot(h, i.service) := n];
      forall k | 0 <= k < |after|
        ensures after[k] == if a.tried[k] in a.infos && NewId(a, a.tried[k]) < n + 1 then NewId(a, a.tried[k]) else -1
      {
        SlotUnique(h, a, n, k);
      }
    } else {
      forall k | 0 <= k < |tried|
        ensures tried[k] == if a.tried[k] in a.infos && NewId(a, a.tried[k]) < n + 1 then NewId(a, a.tried[k]) else -1
      {
        SlotUnique(h, a, n, k);
      }
    }
  }

  lemma {:induction false} TriedHere(h: Hashes, a: Book, id: int)
    requires Consistent(h, a, {}) && id in a.infos && a.infos[id].inTried
    ensures |a.tried| == TRIED_BUCKETS * BUCKET_SIZE && a.tried[TriedSlot(h, a.infos[id].service)] == id
  {
    hide Indexed, NewPlaced, Counted, Sized, TriedSlot;
    assert InSlot(h, a.infos[id], id, a.tried);
  }

  /** Only the slot of the entry with number n holds it. */
  lemma {:induction false} SlotUnique(h: Hashes, a: Book, n: nat, k: nat)
    requires Consistent(h, a, {}) && n < |Chosen(a.infos, a.idCount, false)| + |Chosen(a.infos, a.idCount, true)|
    requires OldId(a, n) in a.infos && k < |a.tried|
    ensures a.tried[k] in a.infos && NewId(a, a.tried[k]) == n ==>
      a.tried[k] == OldId(a, n) && a.infos[OldId(a, n)].inTried && k == TriedSlot(h, a.infos[OldId(a, n)].service)
  {
    hide NewPlaced, Indexed, Counted, Sized;
    if a.tried[k] in a.infos && NewId(a, a.tried[k]) == n {
      IdsMatchBack(a, a.tried[k]);
      assert a.tried[k] != -1;
    }
  }

  // ------------------------------------------------------------------- the whole file

  /** Ids in the slots are -1 or known. */
  lemma {:induction false} SlotsKnown(h: Hashes, a: Book)
    requires Consistent(h, a, {})
    ensures |a.news| == NEW_BUCKETS * BUCKET_SIZE && forall k :: 0 <= k < |a.news| ==> a.news[k] >= -1
  {
  }

  lemma {:induction false} ChosenKnown(infos: map<int, Info>, n: nat, tried: bool)
    ensures AllIn(infos, Chosen(infos, n, tried))
  {
    ChosenSound(infos, n, tried);
  }

  /** Serialize */
  ghost function ImageOf(h: Hashes, a: Book, key: nat): Image
    requires Consistent(h, a, {})
  {
    SlotsKnown(h, a);
    ChosenKnown(a.infos, a.idCount, false);
    ChosenKnown(a.infos, a.idCount, true);
    Image(1, 32, key, a.nNew, a.nTried, NEW_BUCKETS + BIT30,
          SaveAll(a.infos, Chosen(a.infos, a.idCount, false)), SaveAll(a.infos, Chosen(a.infos, a.idCount, true)),
          Rows(a.infos, a.news, NEW_BUCKETS))
  }

  lemma {:induction false} LoadedNone(a: Book, nNew: int, nTried: int)
    requires Numbered(a.infos, a.idCount) && a.idCount >= 0 && |a.tried| == TRIED_BUCKETS * BUCKET_SIZE
    ensures Loaded(a, Blank(nNew, nTried), 0)
  {
    var b := Blank(nNew, nTried);
    forall k | 0 <= k < |b.tried|
      ensures b.tried[k] == if a.tried[k] in a.infos && NewId(a, a.tried[k]) < 0 then NewId(a, a.tried[k]) else -1
    {
    }
    assert AddrsTo(a, map[], 0) by {
      var addrs: map<Net, int> := map[];
      forall net
        ensures AddrTo(a, addrs, 0, net)
      {
      }
    }
  }

  /** Reading the entry with number n. */
  lemma {:induction false} LoadStep(h: Hashes, a: Book, b: Book, n: nat)
    requires Consistent(h, a, {}) && n < |Chosen(a.infos, a.idCount, false)| + |Chosen(a.infos, a.idCount, true)|
    requires Shaped(b) && Loaded(a, b, n)
    ensures OldId(a, n) in a.infos
    ensures var i := a.infos[OldId(a, n)];
            |b.random| == n && (i.inTried ==> b.tried[TriedSlot(h, i.service)] == -1) &&
            Loaded(a, b.(infos := b.infos[n := Unplaced(i, n, 0)], addrs := b.addrs[i.service.net := n],
                         random := b.random + [n],
                         tried := if i.inTried then b.tried[TriedSlot(h, i.service) := n] else b.tried), n + 1)
  {
    hide InfosTo, AddrsTo, TriedTo, OldId, NewId, Consistent;
    assert Numbered(a.infos, a.idCount) && a.idCount >= 0 by { Basics(h, a); }
    InfosStep(a, b.infos, n);
    AddrsStep(h, a, b.addrs, n);
    TriedStep(h, a, b.tried, n);
    UpToSize(n);
  }

  lemma {:induction false} Basics(h: Hashes, a: Book)
    requires Consistent(h, a, {})
    ensures Numbered(a.infos, a.idCount) && a.idCount >= 0 && |a.tried| == TRIED_BUCKETS * BUCKET_SIZE &&
      |a.news| == NEW_BUCKETS * BUCKET_SIZE
  {
  }

  lemma {:induction false} UpToSize(n: nat)
    ensures |UpTo(n)| == n
  {
    if n > 0 {
      UpToSize(n - 1);
    }
  }

  /** What the file says of the entry with number k. */
  lemma {:induction false} ImageEntry(h: Hashes, a: Book, key: nat, k: nat)
    requires Consistent(h, a, {}) && k < |Chosen(a.infos, a.idCount, false)| + |Chosen(a.infos, a.idCount, true)|
    ensures var image := ImageOf(h, a, key); var n := |Chosen(a.infos, a.idCount, false)|;
            |image.news| == n && |image.tried| == |Chosen(a.infos, a.idCount, true)| && OldId(a, k) in a.infos &&
            (if k < n then image.news[k] else image.tried[k - n]) == Save(a.infos[OldId(a, k)]) &&
            (a.infos[OldId(a, k)].inTried <==> k >= n)
  {
    hide Consistent, NewId, Chosen, Rows;
    Basics(h, a);
    IdsMatch(a, k);
  }

  lemma {:induction false} ImageSizes(h: Hashes, a: Book, key: nat)
    requires Consistent(h, a, {})
    ensures var image := ImageOf(h, a, key);
            |image.news| == |Chosen(a.infos, a.idCount, false)| &&
              |image.tried| == |Chosen(a.infos, a.idCount, true)| &&
            image.nNew == a.nNew && image.nTried == a.nTried && |image.rows| == NEW_BUCKETS
  {
    hide Chosen, Rows;
  }

  /** The first n new entries read back. */
  lemma {:induction false} NewsBack(h: Hashes, a: Book, key: nat, n: nat)
    requires Consistent(h, a, {}) && n <= |Chosen(a.infos, a.idCount, false)|
    ensures |ImageOf(h, a, key).news| == |Chosen(a.infos, a.idCount, false)|
    ensures var b := NewsLoaded(h, ImageOf(h, a, key), n, true);
            Loaded(a, b, n) && b.news == Blank(0, 0).news && b.nNew == a.nNew && b.nTried == a.nTried
  {
    hide Consistent, Loaded, NewId, OldId, ImageOf, Chosen;
    var image := ImageOf(h, a, key);
    Basics(h, a);
    ImageSizes(h, a, key);
    if n == 0 {
      LoadedNone(a, a.nNew, a.nTried);
    } else {
      NewsBack(h, a, key, n - 1);
      var b := NewsLoaded(h, image, n - 1, true);
      LoadStep(h, a, b, n - 1);
      ImageEntry(h, a, key, n - 1);
      var i := a.infos[OldId(a, n - 1)];
      assert Fresh(Save(i), n - 1) == Unplaced(i, n - 1, 0);
    }
  }

  /** Then the first n tried ones, none of them lost. */
  lemma {:induction false} TriedBack(h: Hashes, a: Book, key: nat, b: Book, n: nat)
    requires Consistent(h, a, {}) && n <= |Chosen(a.infos, a.idCount, true)|
    requires Shaped(b) && Loaded(a, b, |Chosen(a.infos, a.idCount, false)|) &&
      b.idCount == |Chosen(a.infos, a.idCount, false)|
    ensures |ImageOf(h, a, key).tried| == |Chosen(a.infos, a.idCount, true)|
    ensures var m := |Chosen(a.infos, a.idCount, false)| + n;
            var c := TriedLoaded(h, b, ImageOf(h, a, key).tried, n);
            Loaded(a, c, m) && c.idCount == m && c.news == b.news && c.nNew == b.nNew && c.nTried == b.nTried
  {
    hide Consistent, Loaded, NewId, OldId, ImageOf, Chosen, TriedSlot;
    var image := ImageOf(h, a, key);
    Basics(h, a);
    ImageSizes(h, a, key);
    if n > 0 {
      TriedBack(h, a, key, b, n - 1);
      var m := |Chosen(a.infos, a.idCount, false)| + n;
      var c := TriedLoaded(h, b, image.tried, n - 1);
      ImageEntry(h, a, key, m - 1);
      LoadTried(h, a, c, m - 1, image.tried[n - 1]);
    }
  }

  lemma {:induction false} LoadTried(h: Hashes, a: Book, b: Book, n: nat, e: Saved)
    requires Consistent(h, a, {}) && n < |Chosen(a.infos, a.idCount, false)| + |Chosen(a.infos, a.idCount, true)|
    requires Shaped(b) && Loaded(a, b, n) && b.idCount == n
    requires OldId(a, n) in a.infos && e == Save(a.infos[OldId(a, n)]) && a.infos[OldId(a, n)].inTried
    ensures var c := AddTried(h, b, e);
            Loaded(a, c, n + 1) && c.idCount == n + 1 && c.news == b.news && c.nNew == b.nNew && c.nTried == b.nTried
  {
    hide Consistent, Loaded, NewId, OldId, Chosen, TriedSlot;
    Basics(h, a);
    LoadStep(h, a, b, n);
    var i := a.infos[OldId(a, n)];
    CountOf0(h, a, OldId(a, n));
    assert Fresh(e, n).(inTried := true) == Unplaced(i, n, 0);
    var d := b.(infos := b.infos[n := Unplaced(i, n, 0)], addrs := b.addrs[i.service.net := n],
                random := b.random + [n],
                tried := b.tried[TriedSlot(h, i.service) := n]);
    LoadedFields(a, d, AddTried(h, b, e), n + 1);
  }

  lemma {:induction false} LoadedFields(a: Book, b: Book, c: Book, n: nat)
    requires Numbered(a.infos, a.idCount) && a.idCount >= 0 &&
      n <= |Chosen(a.infos, a.idCount, false)| + |Chosen(a.infos, a.idCount, true)|
    requires Loaded(a, b, n) && c.infos == b.infos && c.addrs == b.addrs && c.tried == b.tried && c.random == b.random
    ensures Loaded(a, c, n)
  {
  }

  lemma {:induction false} CountOf0(h: Hashes, a: Book, id: int)
    requires Consistent(h, a, {}) && id in a.infos && a.infos[id].inTried
    ensures a.infos[id].refCount == 0
  {
    assert RefsOk(a.infos[id], multiset(a.news)[id], false);
  }

  // ------------------------------------------------------------------ reading the table

  /** How often the entry with number k is in the first s slots. */
  ghost function RefsTo(a: Book, k: nat, s: nat): int
    requires a.idCount >= 0 && k < |Chosen(a.infos, a.idCount, false)| + |Chosen(a.infos, a.idCount, true)| &&
      s <= |a.news|
  {
    multiset(a.news[..s])[OldId(a, k)]
  }

  ghost predicate InfosAt(a: Book, infos: map<int, Info>, s: nat)
    requires a.idCount >= 0 && s <= |a.news|
  {
    (forall k :: k in infos <==> 0 <= k < |Chosen(a.infos, a.idCount, false)| + |Chosen(a.infos, a.idCount, true)|) &&
    (forall k :: k in infos ==>
      OldId(a, k) in a.infos && infos[k] == Unplaced(a.infos[OldId(a, k)], k, RefsTo(a, k, s)))
  }

  ghost predicate SlotAt(a: Book, news: seq<int>, s: nat, k: nat)
    requires Numbered(a.infos, a.idCount) && a.idCount >= 0 && k < |a.news| == |news|
  {
    news[k] == if k < s && a.news[k] in a.infos then NewId(a, a.news[k]) else -1
  }

  /** The first s slots of the new table have been read. */
  ghost predicate Placed(a: Book, b: Book, s: nat)
    requires Numbered(a.infos, a.idCount) && a.idCount >= 0 && s <= |a.news|
  {
    InfosAt(a, b.infos, s) && |b.news| == |a.news| && (forall k :: 0 <= k < |a.news| ==> SlotAt(a, b.news, s, k)) &&
    b.nNew == |Chosen(a.infos, a.idCount, false)|
  }

  lemma {:induction false} CountNext(news: seq<int>, s: nat, id: int)
    requires s < |news|
    ensures multiset(news[..s + 1])[id] == multiset(news[..s])[id] + if news[s] == id then 1 else 0
  {
    assert news[..s + 1] == news[..s] + [news[s]];
  }

  lemma {:induction false} CountWhole(news: seq<int>, s: nat, id: int)
    requires s <= |news|
    ensures multiset(news[..s])[id] <= multiset(news)[id]
  {
    assert news == news[..s] + news[s..];
  }

  /** An empty slot is passed over. */
  lemma {:induction false} EmptyStep(a: Book, b: Book, s: nat)
    requires Numbered(a.infos, a.idCount) && a.idCount >= 0 && s < |a.news| && a.news[s] == -1 && Placed(a, b, s)
    ensures Placed(a, b, s + 1)
  {
    hide OldId, NewId, Chosen;
    assert -1 !in a.infos;
    forall k | k in b.infos
      ensures RefsTo(a, k, s + 1) == RefsTo(a, k, s)
    {
      CountNext(a.news, s, OldId(a, k));
    }
    var m := s + 1;
    forall k | 0 <= k < |a.news|
      ensures SlotAt(a, b.news, m, k)
    {
      assert SlotAt(a, b.news, s, k);
    }
  }

  /** A filled slot is filled again, with the entry under its new id. */
  lemma {:induction false} FullStep(h: Hashes, a: Book, b: Book, s: nat)
    requires Consistent(h, a, {}) && s < |a.news| && a.news[s] != -1 && Shaped(b) && Placed(a, b, s)
    ensures a.news[s] in a.infos && a.news[s] >= 0 && s / BUCKET_SIZE < NEW_BUCKETS
    ensures Placed(a, Place(h, b, s / BUCKET_SIZE, Rank(a.infos, a.news[s], false)), s + 1)
  {
    hide Consistent, NewSlot, Chosen, Numbered, OldId, NewId, Rank, Placed, Place, Shaped;
    var id := a.news[s];
    Occupant(h, a, {}, s);
    CountOf(h, a, {}, id);
    RefBound(h, a, id);
    OwnPlace(h, a, s);
    Basics(h, a);
    IdsMatchBack(a, id);
    FullRank(a, b, s, id);
    CountNext(a.news, s, id);
    CountWhole(a.news, s + 1, id);
    PlaceFull(h, b, s, NewId(a, id), a.infos[id].service);
    PlacedStep(a, b, s, id, NewId(a, id));
  }

  /** A filled slot is its entry's own. */
  lemma {:induction false} OwnPlace(h: Hashes, a: Book, s: nat)
    requires Consistent(h, a, {}) && s < |a.news| && a.news[s] != -1
    ensures a.news[s] in a.infos && s == NewSlot(h, a.infos[a.news[s]].service, s / BUCKET_SIZE)
    ensures a.news[s] >= 0 && s / BUCKET_SIZE < NEW_BUCKETS
  {
    hide Indexed, TriedPlaced, Counted, Sized, NewSlot;
  }

  /** The entry of the slot, as read so far. */
  lemma {:induction false} FullRank(a: Book, b: Book, s: nat, id: int)
    requires Numbered(a.infos, a.idCount) && a.idCount >= 0 && s < |a.news| && Placed(a, b, s)
    requires id in a.infos && !a.infos[id].inTried && id == a.news[s]
    requires 0 <= NewId(a, id) < |Chosen(a.infos, a.idCount, false)| + |Chosen(a.infos, a.idCount, true)|
    requires OldId(a, NewId(a, id)) == id
    ensures s < |b.news|
    ensures var k := NewId(a, id);
            k == Rank(a.infos, id, false) < b.nNew && k in b.infos && b.infos[k].service == a.infos[id].service &&
            b.infos[k].refCount == multiset(a.news[..s])[id] && b.news[s] == -1
  {
    hide Chosen, OldId, Rank;
    RankFinds(a.infos, id, a.idCount, false);
    assert SlotAt(a, b.news, s, s);
  }

  lemma {:induction false} PlaceFull(h: Hashes, b: Book, s: nat, k: int, service: Service)
    requires Shaped(b) && s < |b.news| && s / BUCKET_SIZE < NEW_BUCKETS && 0 <= k < b.nNew && k in b.infos
    requires b.infos[k].service == service && s == NewSlot(h, service, s / BUCKET_SIZE)
    requires b.news[s] == -1 && b.infos[k].refCount < NEW_BUCKETS_PER_ADDRESS
    ensures Place(h, b, s / BUCKET_SIZE, k) ==
            b.(infos := b.infos[k := b.infos[k].(refCount := b.infos[k].refCount + 1)], news := b.news[s := k])
  {
    hide NewSlot;
  }

  lemma {:induction false} PlacedStep(a: Book, b: Book, s: nat, id: int, k: nat)
    requires Numbered(a.infos, a.idCount) && a.idCount >= 0 && s < |a.news| && a.news[s] == id && id in a.infos &&
      Placed(a, b, s)
    requires k in b.infos && k == NewId(a, id) && OldId(a, k) == id
    ensures Placed(a,
      b.(infos := b.infos[k := b.infos[k].(refCount := b.infos[k].refCount + 1)], news := b.news[s := k]), s + 1)
  {
    hide NewId, Chosen;
    var infos := b.infos[k := b.infos[k].(refCount := b.infos[k].refCount + 1)];
    forall j | j in infos
      ensures OldId(a, j) in a.infos && infos[j] == Unplaced(a.infos[OldId(a, j)], j, RefsTo(a, j, s + 1))
    {
      CountNext(a.news, s, OldId(a, j));
      if OldId(a, j) == id {
        IdsMatch(a, j);
      }
    }
    var news := b.news[s := k];
    var m := s + 1;
    forall j | 0 <= j < |a.news|
      ensures SlotAt(a, news, m, j)
    {
      assert SlotAt(a, b.news, s, j);
    }
  }

  lemma {:induction false} RowPrefix(h: Hashes, b: Book, bucket: nat, row: seq<int>, more: seq<int>, n: nat)
    requires Shaped(b) && bucket < NEW_BUCKETS && n <= |row|
    ensures RowLoaded(h, b, bucket, row + more, n) == RowLoaded(h, b, bucket, row, n)
  {
    if n > 0 {
      RowPrefix(h, b, bucket, row, more, n - 1);
    }
  }

  /** One bucket read back. */
  lemma {:induction false} RowBack(h: Hashes, a: Book, b: Book, bucket: nat, n: nat)
    requires Consistent(h, a, {}) && bucket < NEW_BUCKETS && n <= BUCKET_SIZE && Shaped(b)
    requires |a.news| == NEW_BUCKETS * BUCKET_SIZE && Placed(a, b, bucket * BUCKET_SIZE)
    ensures forall k :: 0 <= k < |a.news| ==> a.news[k] >= -1
    ensures var row := Row(a.infos, a.news, bucket, n);
      Placed(a, RowLoaded(h, b, bucket, row, |row|), bucket * BUCKET_SIZE + n)
  {
    hide Consistent, Placed, Rank, Place, Shaped;
    SlotsKnown(h, a);
    Basics(h, a);
    if n > 0 {
      RowBack(h, a, b, bucket, n - 1);
      var row := Row(a.infos, a.news, bucket, n - 1);
      var c := RowLoaded(h, b, bucket, row, |row|);
      var s := bucket * BUCKET_SIZE + n - 1;
      if a.news[s] == -1 {
        assert row + [] == row;
        EmptyStep(a, c, s);
      } else {
        FullStep(h, a, c, s);
        assert s / BUCKET_SIZE == bucket;
        RowPrefix(h, b, bucket, row, [Rank(a.infos, a.news[s], false)], |row|);
      }
    }
  }

  lemma {:induction false} RowsPrefix(h: Hashes, b: Book, rows: seq<seq<int>>, more: seq<seq<int>>, m: nat)
    requires Shaped(b) && m <= |rows| && m <= NEW_BUCKETS
    ensures RowsLoaded(h, b, rows + more, m) == RowsLoaded(h, b, rows, m)
  {
    if m > 0 {
      RowsPrefix(h, b, rows, more, m - 1);
    }
  }

  /** The first m buckets read back. */
  lemma {:induction false} RowsBack(h: Hashes, a: Book, b: Book, m: nat)
    requires Consistent(h, a, {}) && m <= NEW_BUCKETS && Shaped(b)
    requires |a.news| == NEW_BUCKETS * BUCKET_SIZE && Placed(a, b, 0)
    ensures forall k :: 0 <= k < |a.news| ==> a.news[k] >= -1
    ensures Placed(a, RowsLoaded(h, b, Rows(a.infos, a.news, m), m), m * BUCKET_SIZE)
  {
    hide Consistent, Placed, Row, RowLoaded, Shaped;
    SlotsKnown(h, a);
    Basics(h, a);
    if m > 0 {
      RowsBack(h, a, b, m - 1);
      var rows := Rows(a.infos, a.news, m - 1);
      RowsPrefix(h, b, rows, [Row(a.infos, a.news, m - 1, BUCKET_SIZE)], m - 1);
      RowBack(h, a, RowsLoaded(h, b, rows, m - 1), m - 1, BUCKET_SIZE);
    }
  }

  lemma {:induction false} LoadedPlaced(h: Hashes, a: Book, b: Book)
    requires Consistent(h, a, {}) &&
      Loaded(a, b, |Chosen(a.infos, a.idCount, false)| + |Chosen(a.infos, a.idCount, true)|)
    requires |a.news| == |b.news| && (forall k :: 0 <= k < |b.news| ==> b.news[k] == -1) &&
      b.nNew == |Chosen(a.infos, a.idCount, false)|
    ensures Placed(a, b, 0)
  {
    hide OldId, NewId, Chosen, AddrsTo, TriedTo, Consistent;
    Basics(h, a);
    assert a.news[..0] == [];
    forall k | 0 <= k < |a.news|
      ensures SlotAt(a, b.news, 0, k)
    {
    }
  }

  // ------------------------------------------------------------------------- the result

  /** Placing indices touches nothing but reference counts and the new table. */
  lemma {:induction false} RowFrame(h: Hashes, b: Book, bucket: nat, row: seq<int>, n: nat)
    requires Shaped(b) && bucket < NEW_BUCKETS && n <= |row|
    ensures var c := RowLoaded(h, b, bucket, row, n); c == b.(infos := c.infos, news := c.news)
  {
    if n > 0 {
      RowFrame(h, b, bucket, row, n - 1);
    }
  }

  lemma {:induction false} RowsFrame(h: Hashes, b: Book, rows: seq<seq<int>>, m: nat)
    requires Shaped(b) && m <= |rows| && m <= NEW_BUCKETS
    ensures var c := RowsLoaded(h, b, rows, m); c == b.(infos := c.infos, news := c.news)
  {
    hide RowLoaded, Shaped;
    if m > 0 {
      RowsFrame(h, b, rows, m - 1);
      RowFrame(h, RowsLoaded(h, b, rows, m - 1), m - 1, rows[m - 1], |rows[m - 1]|);
    }
  }

  /** The tables after the whole file, before pruning. */
  function Rebuilt(h: Hashes, image: Image, usable: bool): (r: Book)
    requires usable ==> |image.rows| == NEW_BUCKETS
    ensures Shaped(r)
  {
    var b := NewsLoaded(h, image, |image.news|, usable).(idCount := image.nNew);
    var c := TriedLoaded(h, b, image.tried, |image.tried|);
    if usable then RowsLoaded(h, c, image.rows, NEW_BUCKETS) else c
  }

  /** Every entry is tried or has a reference: nothing is pruned. */
  ghost predicate NothingToPrune(b: Book) {
    forall id :: id in b.infos ==> b.infos[id].inTried || b.infos[id].refCount != 0
  }

  lemma {:induction false} RenamedSlots(h: Hashes, a: Book, b: Book)
    requires Consistent(h, a, {}) && Placed(a, b, |a.news|)
    ensures SameSlots(a, a.news, b.news)
  {
    hide NewId, Chosen, InfosAt, Indexed, TriedPlaced, Counted, Sized, NewSlot;
    assert -1 !in a.infos;
    forall k | 0 <= k < |a.news|
      ensures if a.news[k] == -1 then b.news[k] == -1 else a.news[k] in a.infos && b.news[k] == NewId(a, a.news[k])
    {
      assert SlotAt(a, b.news, |a.news|, k);
    }
  }

  lemma {:induction false} RenamedTried(h: Hashes, a: Book, tried: seq<int>, n: nat)
    requires Consistent(h, a, {}) && n == |Chosen(a.infos, a.idCount, false)| + |Chosen(a.infos, a.idCount, true)| &&
      TriedTo(a, tried, n)
    ensures SameSlots(a, a.tried, tried)
  {
    hide NewId, Chosen, NewPlaced, Indexed, Counted, Sized, TriedSlot;
    assert -1 !in a.infos;
    forall k | 0 <= k < |a.tried|
      ensures if a.tried[k] == -1 then tried[k] == -1 else a.tried[k] in a.infos && tried[k] == NewId(a, a.tried[k])
    {
      if a.tried[k] in a.infos {
        IdsMatchBack(a, a.tried[k]);
      }
    }
  }

  lemma {:induction false} RenamedInfos(h: Hashes, a: Book, b: Book)
    requires Consistent(h, a, {}) && InfosAt(a, b.infos, |a.news|)
    ensures forall id :: id in a.infos ==>
      NewId(a, id) in b.infos && b.infos[NewId(a, id)] == Reborn(a.infos[id], NewId(a, id))
    ensures NothingToPrune(b)
  {
    hide NewId, OldId, Chosen, Consistent;
    assert Numbered(a.infos, a.idCount) && a.idCount >= 0 by { Basics(h, a); }
    assert a.news[..|a.news|] == a.news;
    forall id | id in a.infos
      ensures NewId(a, id) in b.infos && b.infos[NewId(a, id)] == Reborn(a.infos[id], NewId(a, id))
    {
      IdsMatchBack(a, id);
      CountOf(h, a, {}, id);
    }
    forall k | k in b.infos
      ensures b.infos[k].inTried || b.infos[k].refCount != 0
    {
      var id := OldId(a, k);
      CountOf(h, a, {}, id);
      if !a.infos[id].inTried {
        RefBound(h, a, id);
      }
    }
  }

  lemma {:induction false} RenamedAddrs(h: Hashes, a: Book, addrs: map<Net, int>, n: nat)
    requires Consistent(h, a, {}) && n == |Chosen(a.infos, a.idCount, false)| + |Chosen(a.infos, a.idCount, true)| &&
      AddrsTo(a, addrs, n)
    ensures forall net :: net in addrs <==> net in a.addrs
    ensures forall net :: net in a.addrs ==> a.addrs[net] in a.infos && addrs[net] == NewId(a, a.addrs[net])
  {
    hide NewId, Chosen, NewPlaced, TriedPlaced, Counted, Sized;
    forall net
      ensures net in addrs <==> net in a.addrs
      ensures net in a.addrs ==> a.addrs[net] in a.infos && addrs[net] == NewId(a, a.addrs[net])
    {
      assert AddrTo(a, addrs, n, net);
      if net in a.addrs {
        IdsMatchBack(a, a.addrs[net]);
      }
    }
  }

  /** What is written and read back are the same tables under new ids, with nothing lost on the
      way and nothing to prune. */
  lemma {:induction false} BookRoundTrip(h: Hashes, a: Book, key: nat)
    requires Consistent(h, a, {})
    ensures Numbered(a.infos, a.idCount) && a.idCount >= 0 && |ImageOf(h, a, key).rows| == NEW_BUCKETS
    ensures Renamed(a, Rebuilt(h, ImageOf(h, a, key), true)) && NothingToPrune(Rebuilt(h, ImageOf(h, a, key), true))
  {
    hide Consistent, Loaded, ImageOf, Chosen, NewsLoaded, TriedLoaded, RowsLoaded, Placed, NewId, SameSlots, Blank,
         NothingToPrune;
    var image := ImageOf(h, a, key);
    Basics(h, a);
    ChosenAll(h, a);
    ImageSizes(h, a, key);
    NewsBack(h, a, key, a.nNew);
    var b0 := NewsLoaded(h, image, a.nNew, true);
    var b := b0.(idCount := a.nNew);
    LoadedFields(a, b0, b, a.nNew);
    TriedBack(h, a, key, b, a.nTried);
    var c := TriedLoaded(h, b, image.tried, a.nTried);
    BlankNews();
    LoadedPlaced(h, a, c);
    RowsBack(h, a, c, NEW_BUCKETS);
    RowsFrame(h, c, image.rows, NEW_BUCKETS);
    ImageRows(h, a, key);
    var d := RowsLoaded(h, c, image.rows, NEW_BUCKETS);
    AllRenamed(h, a, c, d);
  }

  lemma {:induction false} BlankNews()
    ensures forall k :: 0 <= k < |Blank(0, 0).news| ==> Blank(0, 0).news[k] == -1
  {
  }

  lemma {:induction false} ImageRows(h: Hashes, a: Book, key: nat)
    requires Consistent(h, a, {})
    ensures |a.news| == NEW_BUCKETS * BUCKET_SIZE && (forall k :: 0 <= k < |a.news| ==> a.news[k] >= -1)
    ensures ImageOf(h, a, key).rows == Rows(a.infos, a.news, NEW_BUCKETS)
  {
    hide Rows, Chosen;
    SlotsKnown(h, a);
  }

  lemma {:induction false} InfosKeys(a: Book, infos: map<int, Info>, s: nat)
    requires a.idCount >= 0 && s <= |a.news| && InfosAt(a, infos, s)
    ensures forall k :: k in infos <==>
      0 <= k < |Chosen(a.infos, a.idCount, false)| + |Chosen(a.infos, a.idCount, true)|
  {
  }

  lemma {:induction false} AllRenamed(h: Hashes, a: Book, c: Book, d: Book)
    requires Consistent(h, a, {}) && |a.news| == NEW_BUCKETS * BUCKET_SIZE
    requires a.nNew == |Chosen(a.infos, a.idCount, false)| && a.nTried == |Chosen(a.infos, a.idCount, true)|
    requires Loaded(a, c, a.nNew + a.nTried) && Placed(a, d, NEW_BUCKETS * BUCKET_SIZE) &&
      d == c.(infos := d.infos, news := d.news)
    requires d.nNew == a.nNew && d.nTried == a.nTried && d.idCount == a.nNew + a.nTried
    ensures Numbered(a.infos, a.idCount) && a.idCount >= 0 && Renamed(a, d) && NothingToPrune(d)
  {
    hide Consistent, Chosen, NewId, OldId, SameSlots, NothingToPrune, AddrsTo, TriedTo, InfosTo, InfosAt, SlotAt,
         Numbered, UpTo;
    Basics(h, a);
    InfosKeys(a, d.infos, |a.news|);
    RenamedSlots(h, a, d);
    RenamedTried(h, a, c.tried, a.nNew + a.nTried);
    RenamedInfos(h, a, d);
    RenamedAddrs(h, a, c.addrs, a.nNew + a.nTried);
  }
}
