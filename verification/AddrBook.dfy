/** The tables of the address manager as one value, the consistency its own check asks for, and
    what the elementary moves do to them. */
module AddrBook {

  const TRIED_BUCKETS := 256
  const NEW_BUCKETS := 1024
  const BUCKET_SIZE := 64
  const TRIED_BUCKETS_PER_GROUP := 8
  const NEW_BUCKETS_PER_SOURCE_GROUP := 64
  const NEW_BUCKETS_PER_ADDRESS := 8

  /** A network address, without the port. */
  datatype Net = Net(bytes: seq<nat>)

  datatype Service = Service(net: Net, port: nat)

  /** CAddrInfo */
  datatype Info = Info(service: Service, services: bv64, time: int, source: Net, lastTry: int, lastSuccess: int,
                       attempts: int, refCount: int, inTried: bool, randomPos: int)

  /** The keyed hashes the buckets are chosen with. */
  datatype Hashes = Hashes(group: Net -> nat, ofKey: Service -> nat, ofGroup: (nat, nat) -> nat,
                           ofPair: (nat, nat) -> nat, ofPlace: (bool, nat, Service) -> nat)

  function TriedBucket(h: Hashes, s: Service): (b: nat)
    ensures b < TRIED_BUCKETS
  {
    h.ofGroup(h.group(s.net), h.ofKey(s) % TRIED_BUCKETS_PER_GROUP) % TRIED_BUCKETS
  }

  function NewBucket(h: Hashes, s: Service, source: Net): (b: nat)
    ensures b < NEW_BUCKETS
  {
    h.ofGroup(h.group(source), h.ofPair(h.group(s.net), h.group(source)) % NEW_BUCKETS_PER_SOURCE_GROUP) % NEW_BUCKETS
  }

  function Position(h: Hashes, s: Service, isNew: bool, bucket: nat): (p: nat)
    ensures p < BUCKET_SIZE
  {
    h.ofPlace(isNew, bucket, s) % BUCKET_SIZE
  }

  /** The index of a bucket's position in a table laid out row by row. */
  function NewSlot(h: Hashes, s: Service, bucket: nat): (k: nat)
    ensures k / BUCKET_SIZE == bucket
  {
    bucket * BUCKET_SIZE + Position(h, s, true, bucket)
  }

  function TriedSlot(h: Hashes, s: Service): (k: nat)
    ensures k < TRIED_BUCKETS * BUCKET_SIZE
  {
    TriedBucket(h, s) * BUCKET_SIZE + Position(h, s, false, TriedBucket(h, s))
  }

  /** The members of CAddrMan; -1 marks an empty slot. */
  datatype Book = Book(infos: map<int, Info>, addrs: map<Net, int>, random: seq<int>,
                       news: seq<int>, tried: seq<int>, nNew: int, nTried: int, idCount: int)

  // ------------------------------------------------------------------- consistency

  /** addrs and random are exact inverses of infos. */
  ghost predicate Indexed(infos: map<int, Info>, addrs: map<Net, int>, random: seq<int>) {
    (forall id :: id in infos ==> AtHome(infos[id], id, addrs, random)) &&
    (forall n :: n in addrs ==> addrs[n] in infos && infos[addrs[n]].service.net == n) &&
    (forall i :: 0 <= i < |random| ==> random[i] in infos && infos[random[i]].randomPos == i)
  }

  /** random lists every entry once, and each knows its place in it. */
  ghost predicate RandomIndexed(infos: map<int, Info>, random: seq<int>) {
    (forall id :: id in infos ==> 0 <= infos[id].randomPos < |random| && random[infos[id].randomPos] == id) &&
    (forall i :: 0 <= i < |random| ==> random[i] in infos && infos[random[i]].randomPos == i)
  }

  lemma {:induction false} IndexedRandom(infos: map<int, Info>, addrs: map<Net, int>, random: seq<int>)
    requires Indexed(infos, addrs, random)
    ensures RandomIndexed(infos, random)
  {
    forall id | id in infos
      ensures 0 <= infos[id].randomPos < |random| && random[infos[id].randomPos] == id
    {
      assert AtHome(infos[id], id, addrs, random);
    }
  }

  ghost predicate AtHome(info: Info, id: int, addrs: map<Net, int>, random: seq<int>) {
    info.service.net in addrs && addrs[info.service.net] == id &&
    0 <= info.randomPos < |random| && random[info.randomPos] == id
  }

  /** A filled slot of the new table is one of its entry's own. */
  ghost predicate NewPlaced(h: Hashes, infos: map<int, Info>, news: seq<int>) {
    |news| == NEW_BUCKETS * BUCKET_SIZE &&
    forall k :: 0 <= k < |news| && news[k] != -1 ==>
      news[k] in infos && k == NewSlot(h, infos[news[k]].service, k / BUCKET_SIZE)
  }

  /** The tried table holds exactly the tried entries, each in its own slot. */
  ghost predicate TriedPlaced(h: Hashes, infos: map<int, Info>, tried: seq<int>) {
    |tried| == TRIED_BUCKETS * BUCKET_SIZE &&
    (forall k :: 0 <= k < |tried| && tried[k] != -1 ==>
      tried[k] in infos && infos[tried[k]].inTried && k == TriedSlot(h, infos[tried[k]].service)) &&
    (forall id :: id in infos && infos[id].inTried ==> InSlot(h, infos[id], id, tried))
  }

  ghost predicate InSlot(h: Hashes, info: Info, id: int, tried: seq<int>)
    requires |tried| == TRIED_BUCKETS * BUCKET_SIZE
  {
    tried[TriedSlot(h, info.service)] == id
  }

  /** refCount is the number of slots of the new table that hold the entry; entries in limbo are
      in neither table. */
  ghost predicate Counted(infos: map<int, Info>, news: seq<int>, limbo: set<int>) {
    forall id :: id in infos ==> RefsOk(infos[id], multiset(news)[id], id in limbo)
  }

  ghost predicate RefsOk(info: Info, refs: int, inLimbo: bool) {
    info.refCount == refs &&
    if inLimbo then refs == 0 && !info.inTried
    else if info.inTried then refs == 0
    else 1 <= refs <= NEW_BUCKETS_PER_ADDRESS
  }

  ghost function TriedIds(infos: map<int, Info>): set<int> {
    set id | id in infos && infos[id].inTried
  }

  ghost function NewIds(infos: map<int, Info>): set<int> {
    set id | id in infos && !infos[id].inTried
  }

  ghost predicate Sized(b: Book, limbo: set<int>) {
    |TriedIds(b.infos)| == b.nTried && |NewIds(b.infos) - limbo| == b.nNew &&
    |b.random| == b.nNew + b.nTried + |limbo|
  }

  ghost predicate Numbered(infos: map<int, Info>, idCount: int) {
    forall id :: id in infos ==> 0 <= id < idCount
  }

  /** Everything Check_ looks at except the times, with the entries in limbo left aside. */
  ghost predicate Consistent(h: Hashes, b: Book, limbo: set<int>) {
    Indexed(b.infos, b.addrs, b.random) && NewPlaced(h, b.infos, b.news) && TriedPlaced(h, b.infos, b.tried) &&
    Counted(b.infos, b.news, limbo) && Sized(b, limbo) && Numbered(b.infos, b.idCount) &&
    limbo <= b.infos.Keys && b.idCount >= 0
  }

  // ------------------------------------------------------- what each structure depends on

  /** The same entries, with the same addresses. */
  ghost predicate SameService(x: map<int, Info>, y: map<int, Info>) {
    x.Keys == y.Keys && forall id :: id in x ==> x[id].service == y[id].service
  }

  /** The same entries, with the same addresses and positions. */
  ghost predicate SameIndex(x: map<int, Info>, y: map<int, Info>) {
    SameService(x, y) && forall id :: id in x ==> x[id].randomPos == y[id].randomPos
  }

  lemma {:induction false} IndexedSame(x: map<int, Info>, y: map<int, Info>, addrs: map<Net, int>, random: seq<int>)
    requires SameIndex(x, y) && Indexed(x, addrs, random)
    ensures Indexed(y, addrs, random)
  {
    forall id | id in y
      ensures AtHome(y[id], id, addrs, random)
    {
      assert AtHome(x[id], id, addrs, random);
    }
  }

  lemma {:induction false} NewPlacedSame(h: Hashes, x: map<int, Info>, y: map<int, Info>, news: seq<int>)
    requires SameService(x, y) && NewPlaced(h, x, news)
    ensures NewPlaced(h, y, news)
  {
    hide NewSlot;
  }

  lemma {:induction false} TriedPlacedSame(h: Hashes, x: map<int, Info>, y: map<int, Info>, tried: seq<int>)
    requires SameService(x, y) && TriedPlaced(h, x, tried)
    requires forall id :: id in x ==> x[id].inTried == y[id].inTried
    ensures TriedPlaced(h, y, tried)
  {
    hide TriedSlot;
    forall id | id in y && y[id].inTried
      ensures InSlot(h, y[id], id, tried)
    {
      assert InSlot(h, x[id], id, tried);
    }
  }

  lemma {:induction false} SizedSame(b: Book, infos: map<int, Info>, limbo: set<int>)
    requires Sized(b, limbo) && infos.Keys == b.infos.Keys
    requires forall id :: id in infos ==> b.infos[id].inTried == infos[id].inTried
    ensures Sized(b.(infos := infos), limbo)
  {
    forall id
      ensures id in TriedIds(infos) <==> id in TriedIds(b.infos)
      ensures id in NewIds(infos) <==> id in NewIds(b.infos)
    {
      assert id in infos.Keys <==> id in b.infos.Keys;
    }
    assert TriedIds(infos) == TriedIds(b.infos);
    assert NewIds(infos) == NewIds(b.infos);
  }

  // --------------------------------------------------------------------- small moves

  /** An update of one entry that keeps its address, tables and position. */
  ghost predicate SamePlace(x: Info, y: Info) {
    x.service == y.service && x.refCount == y.refCount && x.inTried == y.inTried && x.randomPos == y.randomPos
  }

  lemma {:induction false} UpdateKeeps(h: Hashes, b: Book, limbo: set<int>, id: int, y: Info)
    requires Consistent(h, b, limbo) && id in b.infos && SamePlace(b.infos[id], y)
    ensures Consistent(h, b.(infos := b.infos[id := y]), limbo)
  {
    var infos := b.infos[id := y];
    hide Indexed, NewPlaced, TriedPlaced, Counted, Sized, Numbered, SameIndex;
    UpdateSame(b.infos, id, y);
    UpdateCounted(b.infos, b.news, limbo, id, y);
    IndexedSame(b.infos, infos, b.addrs, b.random);
    NewPlacedSame(h, b.infos, infos, b.news);
    TriedPlacedSame(h, b.infos, infos, b.tried);
    SizedSame(b, infos, limbo);
    NumberedSame(b.infos, infos, b.idCount);
  }

  lemma {:induction false} UpdateSame(infos: map<int, Info>, id: int, y: Info)
    requires id in infos && SamePlace(infos[id], y)
    ensures SameIndex(infos, infos[id := y]) && SameService(infos, infos[id := y])
    ensures forall j :: j in infos ==> infos[j].inTried == infos[id := y][j].inTried
  {
  }

  lemma {:induction false} UpdateCounted(infos: map<int, Info>, news: seq<int>, limbo: set<int>, id: int, y: Info)
    requires Counted(infos, news, limbo) && id in infos && SamePlace(infos[id], y)
    ensures Counted(infos[id := y], news, limbo)
  {
  }

  /** What Consistent says about the ids and the sizes of the tables. */
  lemma {:induction false} IdsAndSizes(h: Hashes, b: Book, limbo: set<int>)
    requires Consistent(h, b, limbo)
    ensures -1 !in b.infos && b.idCount !in b.infos && b.idCount >= 0
    ensures |b.news| == NEW_BUCKETS * BUCKET_SIZE && |b.tried| == TRIED_BUCKETS * BUCKET_SIZE
  {
    hide Indexed, Counted, Sized, NewSlot, TriedSlot;
  }

  /** Create: a new entry, in no table yet. */
  function Created(b: Book, x: Info): Book {
    var id := b.idCount;
    b.(infos := b.infos[id := x.(randomPos := |b.random|)], addrs := b.addrs[x.service.net := id],
       random := b.random + [id], idCount := id + 1)
  }

  lemma {:induction false} CreatedKeeps(h: Hashes, b: Book, limbo: set<int>, x: Info)
    requires Consistent(h, b, limbo) && x.service.net !in b.addrs && x.refCount == 0 && !x.inTried
    ensures Consistent(h, Created(b, x), limbo + {b.idCount})
  {
    hide Indexed, NewPlaced, TriedPlaced, Counted, Sized, Numbered;
    IdsAndSizes(h, b, limbo);
    CreatedNumbered(b, x);
    NewInBook(h, b);
    CreatedIndexed(b, x);
    CreatedPlaced(h, b, x);
    CreatedCounted(b, limbo, x);
    CreatedSized(b, limbo, x);
  }

  lemma {:induction false} CreatedNumbered(b: Book, x: Info)
    requires Numbered(b.infos, b.idCount) && b.idCount >= 0
    ensures Numbered(Created(b, x).infos, b.idCount + 1)
  {
  }

  lemma {:induction false} CreatedCounted(b: Book, limbo: set<int>, x: Info)
    requires Counted(b.infos, b.news, limbo) && b.idCount !in b.infos && b.idCount !in b.news && x.refCount == 0 &&
      !x.inTried
    ensures Counted(Created(b, x).infos, b.news, limbo + {b.idCount})
  {
  }

  lemma {:induction false} CreatedSized(b: Book, limbo: set<int>, x: Info)
    requires Sized(b, limbo) && limbo <= b.infos.Keys && b.idCount !in b.infos && !x.inTried
    ensures Sized(Created(b, x), limbo + {b.idCount})
  {
    var c := Created(b, x);
    assert TriedIds(c.infos) == TriedIds(b.infos);
    assert NewIds(c.infos) - (limbo + {b.idCount}) == NewIds(b.infos) - limbo;
  }

  lemma {:induction false} NewInBook(h: Hashes, b: Book)
    requires NewPlaced(h, b.infos, b.news) && Numbered(b.infos, b.idCount)
    ensures b.idCount !in b.news || b.idCount == -1
  {
  }

  lemma {:induction false} CreatedIndexed(b: Book, x: Info)
    requires Indexed(b.infos, b.addrs, b.random) && x.service.net !in b.addrs && b.idCount !in b.infos
    ensures Indexed(Created(b, x).infos, Created(b, x).addrs, Created(b, x).random)
  {
    var c := Created(b, x);
    forall id | id in c.infos
      ensures AtHome(c.infos[id], id, c.addrs, c.random)
    {
      if id != b.idCount {
        assert AtHome(b.infos[id], id, b.addrs, b.random);
      }
    }
  }

  lemma {:induction false} CreatedPlaced(h: Hashes, b: Book, x: Info)
    requires NewPlaced(h, b.infos, b.news) && TriedPlaced(h, b.infos, b.tried) && b.idCount !in b.infos && !x.inTried
    ensures NewPlaced(h, Created(b, x).infos, b.news) && TriedPlaced(h, Created(b, x).infos, b.tried)
  {
    hide NewSlot, TriedSlot;
    var c := Created(b, x);
    forall id | id in c.infos && c.infos[id].inTried
      ensures InSlot(h, c.infos[id], id, b.tried)
    {
      assert InSlot(h, b.infos[id], id, b.tried);
    }
  }

  /** SwapRandom */
  function Swapped(b: Book, i: nat, j: nat): Book
    requires i < |b.random| && j < |b.random| && b.random[i] in b.infos && b.random[j] in b.infos
  {
    if i == j then b
    else
      var x, y := b.random[i], b.random[j];
      var first := b.infos[x := b.infos[x].(randomPos := j)];
      b.(infos := first[y := first[y].(randomPos := i)], random := b.random[i := y][j := x])
  }

  lemma {:induction false} SwappedKeeps(h: Hashes, b: Book, limbo: set<int>, i: nat, j: nat)
    requires Consistent(h, b, limbo) && i < |b.random| && j < |b.random|
    ensures b.random[i] in b.infos && b.random[j] in b.infos && Consistent(h, Swapped(b, i, j), limbo)
  {
    hide Indexed, NewPlaced, TriedPlaced, Counted, Sized, Numbered;
    SwappedIndexed(b, i, j);
    SwappedCounted(b, limbo, i, j);
    SwappedService(b, i, j);
    var c := Swapped(b, i, j);
    hide Swapped;
    NewPlacedSame(h, b.infos, c.infos, b.news);
    TriedPlacedSame(h, b.infos, c.infos, b.tried);
    SizedSame(b, c.infos, limbo);
    SizedRandom(b.(infos := c.infos), c.random, limbo);
    NumberedSame(b.infos, c.infos, b.idCount);
  }

  lemma {:induction false} SwappedService(b: Book, i: nat, j: nat)
    requires i < |b.random| && j < |b.random| && b.random[i] in b.infos && b.random[j] in b.infos
    ensures var c := Swapped(b, i, j);
            SameService(b.infos, c.infos) &&
              (forall id :: id in b.infos ==> b.infos[id].inTried == c.infos[id].inTried) &&
            |c.random| == |b.random| && c == b.(infos := c.infos, random := c.random)
  {
  }

  lemma {:induction false} SwappedCounted(b: Book, limbo: set<int>, i: nat, j: nat)
    requires i < |b.random| && j < |b.random| && b.random[i] in b.infos && b.random[j] in b.infos
    requires Counted(b.infos, b.news, limbo)
    ensures Counted(Swapped(b, i, j).infos, b.news, limbo)
  {
  }

  lemma {:induction false} NumberedSame(x: map<int, Info>, y: map<int, Info>, idCount: int)
    requires Numbered(x, idCount) && y.Keys <= x.Keys
    ensures Numbered(y, idCount)
  {
    forall id | id in y
      ensures 0 <= id < idCount
    {
      assert id in x.Keys;
    }
  }

  lemma {:induction false} SizedRandom(b: Book, random: seq<int>, limbo: set<int>)
    requires Sized(b, limbo) && |random| == |b.random|
    ensures Sized(b.(random := random), limbo)
  {
  }

  lemma {:induction false} SwappedIndexed(b: Book, i: nat, j: nat)
    requires Indexed(b.infos, b.addrs, b.random) && i < |b.random| && j < |b.random|
    ensures b.random[i] in b.infos && b.random[j] in b.infos
    ensures Indexed(Swapped(b, i, j).infos, b.addrs, Swapped(b, i, j).random)
  {
    var c := Swapped(b, i, j);
    forall id | id in c.infos
      ensures AtHome(c.infos[id], id, c.addrs, c.random)
    {
      assert AtHome(b.infos[id], id, b.addrs, b.random);
    }
  }

  lemma {:induction false} SwappedRandom(b: Book, i: nat, j: nat)
    requires RandomIndexed(b.infos, b.random) && i < |b.random| && j < |b.random|
    ensures b.random[i] in b.infos && b.random[j] in b.infos
    ensures RandomIndexed(Swapped(b, i, j).infos, Swapped(b, i, j).random)
  {
  }

  /** The last entry of random taken out of the book. */
  function Dropped(b: Book, id: int): Book
    requires id in b.infos && |b.random| > 0
  {
    b.(infos := b.infos - {id}, addrs := b.addrs - {b.infos[id].service.net}, random := b.random[..|b.random| - 1],
      nNew := b.nNew - 1)
  }

  /** Delete */
  function Deleted(b: Book, id: int): Book
    requires id in b.infos && 0 <= b.infos[id].randomPos < |b.random|
    requires b.random[b.infos[id].randomPos] in b.infos && b.random[|b.random| - 1] in b.infos
  {
    Dropped(Swapped(b, b.infos[id].randomPos, |b.random| - 1), id)
  }

  lemma {:induction false} DroppedRandom(b: Book, id: int)
    requires RandomIndexed(b.infos, b.random) && |b.random| > 0 && id in b.infos && b.random[|b.random| - 1] == id
    ensures RandomIndexed(Dropped(b, id).infos, Dropped(b, id).random)
  {
  }

  lemma {:induction false} DroppedIndexed(b: Book, id: int)
    requires Indexed(b.infos, b.addrs, b.random) && |b.random| > 0 && id in b.infos && b.random[|b.random| - 1] == id
    ensures Indexed(Dropped(b, id).infos, Dropped(b, id).addrs, Dropped(b, id).random)
  {
    var c := Dropped(b, id);
    forall j | j in c.infos
      ensures AtHome(c.infos[j], j, c.addrs, c.random)
    {
      assert AtHome(b.infos[j], j, b.addrs, b.random);
      assert AtHome(b.infos[id], id, b.addrs, b.random);
    }
  }

  lemma {:induction false} DroppedPlaced(h: Hashes, b: Book, id: int)
    requires NewPlaced(h, b.infos, b.news) && TriedPlaced(h, b.infos, b.tried) && |b.random| > 0
    requires id in b.infos && !b.infos[id].inTried && id !in b.news
    ensures NewPlaced(h, Dropped(b, id).infos, b.news) && TriedPlaced(h, Dropped(b, id).infos, b.tried)
  {
    hide NewSlot, TriedSlot;
    var c := Dropped(b, id);
    forall j | j in c.infos && c.infos[j].inTried
      ensures InSlot(h, c.infos[j], j, b.tried)
    {
      assert InSlot(h, b.infos[j], j, b.tried);
    }
  }

  lemma {:induction false} DroppedSized(b: Book, limbo: set<int>, id: int)
    requires Sized(b.(nNew := b.nNew - 1), limbo + {id}) && |b.random| > 0 && id in b.infos && id !in limbo &&
      !b.infos[id].inTried
    ensures Sized(Dropped(b, id), limbo)
  {
    var c := Dropped(b, id);
    assert TriedIds(c.infos) == TriedIds(b.infos);
    assert NewIds(c.infos) - limbo == NewIds(b.infos) - (limbo + {id});
    assert |limbo + {id}| == |limbo| + 1;
  }

  lemma {:induction false} DroppedCounted(b: Book, limbo: set<int>, id: int)
    requires Counted(b.infos, b.news, limbo + {id}) && |b.random| > 0 && id in b.infos
    ensures Counted(Dropped(b, id).infos, b.news, limbo) && id !in b.news && !b.infos[id].inTried
  {
    assert RefsOk(b.infos[id], multiset(b.news)[id], true);
    forall j | j in b.infos - {id}
      ensures RefsOk((b.infos - {id})[j], multiset(b.news)[j], j in limbo)
    {
      assert RefsOk(b.infos[j], multiset(b.news)[j], j in limbo + {id});
    }
  }

  lemma {:induction false} DroppedKeeps(h: Hashes, b: Book, limbo: set<int>, id: int)
    requires Consistent(h, b.(nNew := b.nNew - 1), limbo + {id}) && id in b.infos && id !in limbo
    requires |b.random| > 0 && b.random[|b.random| - 1] == id
    ensures Consistent(h, Dropped(b, id), limbo)
  {
    hide Indexed, NewPlaced, TriedPlaced, Counted, Sized, Numbered;
    DroppedIndexed(b, id);
    DroppedCounted(b, limbo, id);
    DroppedPlaced(h, b, id);
    DroppedSized(b, limbo, id);
    NumberedSame(b.infos, Dropped(b, id).infos, b.idCount);
  }

  lemma {:induction false} Home(h: Hashes, b: Book, limbo: set<int>, id: int)
    requires Consistent(h, b, limbo) && id in b.infos
    ensures AtHome(b.infos[id], id, b.addrs, b.random) && b.random[|b.random| - 1] in b.infos
  {
    assert AtHome(b.infos[id], id, b.addrs, b.random);
  }

  /** An entry without references, still counted as new, is deleted. */
  lemma {:induction false} DeletedKeeps(h: Hashes, b: Book, limbo: set<int>, id: int)
    requires Consistent(h, b.(nNew := b.nNew - 1), limbo + {id}) && id in b.infos && id !in limbo
    ensures 0 <= b.infos[id].randomPos < |b.random| && b.random[b.infos[id].randomPos] == id &&
      b.random[|b.random| - 1] in b.infos
    ensures Consistent(h, Deleted(b, id), limbo)
  {
    hide Consistent;
    var c := b.(nNew := b.nNew - 1);
    Home(h, c, limbo + {id}, id);
    SwappedKeeps(h, c, limbo + {id}, b.infos[id].randomPos, |b.random| - 1);
    var d := Swapped(b, b.infos[id].randomPos, |b.random| - 1);
    assert Swapped(c, b.infos[id].randomPos, |b.random| - 1) == d.(nNew := d.nNew - 1);
    DroppedKeeps(h, d, limbo, id);
  }
}
