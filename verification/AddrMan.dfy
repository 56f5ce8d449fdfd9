/** The address manager, src/addrman.cpp. */
module AddrMan {
  import opened AddrShuffle
  import opened Numbers
  import opened AddrBook
  import opened AddrMoves

  const HORIZON_DAYS := 30
  const RETRIES := 3
  const MAX_FAILURES := 10
  const MIN_FAIL_DAYS := 7
  const GETADDR_MAX_PCT := 23
  const GETADDR_MAX := 2500


  /** A signed value compared with a size_t constant is taken modulo 2^64 first. */
  function Unsigned(x: int): nat {
    x % TWO64
  }

  /** IsTerrible */
  predicate IsTerrible(i: Info, now: int) {
    !(i.lastTry != 0 && i.lastTry >= now - 60) &&
    (i.time > now + 10 * 60 ||
     i.time == 0 || Unsigned(now - i.time) > HORIZON_DAYS * 24 * 60 * 60 ||
     (i.lastSuccess == 0 && Unsigned(i.attempts) >= RETRIES) ||
     (Unsigned(now - i.lastSuccess) > MIN_FAIL_DAYS * 24 * 60 * 60 && Unsigned(i.attempts) >= MAX_FAILURES))
  }

  /** IsTerrible in signed terms: as the differences are compared unsigned, a time in the future is
      terrible however near it is, and the ten minutes allowed for it make no difference. */
  lemma {:induction false} TerribleExact(i: Info, now: int)
    requires 0 <= i.time < TWO32 && 0 <= now < 0x8000_0000_0000_0000 && 0 <= i.lastSuccess < 0x8000_0000_0000_0000
    requires -0x8000_0000 <= i.attempts < 0x8000_0000
    ensures IsTerrible(i, now) <==>
            !(i.lastTry != 0 && i.lastTry >= now - 60) &&
            (i.time == 0 || i.time > now || now - i.time > 30 * 86_400 ||
             (i.lastSuccess == 0 && (i.attempts >= 3 || i.attempts < 0)) ||
             ((i.lastSuccess > now || now - i.lastSuccess > 7 * 86_400) && (i.attempts >= 10 || i.attempts < 0)))
  {
    UnsignedRange(now - i.time);
    UnsignedRange(now - i.lastSuccess);
    UnsignedRange(i.attempts);
  }

  lemma {:induction false} UnsignedRange(x: int)
    requires -TWO64 < x < TWO64
    ensures Unsigned(x) == if x >= 0 then x else x + TWO64
  {
  }

  /** The entries outside ids are the same, apart from their positions in the random order. */
  ghost predicate Rest(x: map<int, Info>, y: map<int, Info>, ids: set<int>) {
    forall id :: id !in ids ==> (id in x <==> id in y) && (id in x ==> y[id] == x[id].(randomPos := y[id].randomPos))
  }

  class AddrMan {
    const hashes: nat -> Hashes
    const routable: Net -> bool
    var nKey: nat
    var nIdCount: int
    var mapInfo: map<int, Info>
    var mapAddr: map<Net, int>
    var vRandom: seq<int>
    var nTried: int
    const vvTried: array<int>
    var nNew: int
    const vvNew: array<int>

    function H(): Hashes
      reads this
    {
      hashes(nKey)
    }

    ghost function Tables(): Book
      reads this, vvNew, vvTried
    {
      Book(mapInfo, mapAddr, vRandom, vvNew[..], vvTried[..], nNew, nTried, nIdCount)
    }

    /** The tables are consistent, entries in limbo aside; nNew counts ahead of them by this much. */
    ghost predicate Ahead(n: int, limbo: set<int>)
      reads this, vvNew, vvTried
    {
      vvNew != vvTried && Consistent(H(), Tables().(nNew := nNew - n), limbo)
    }

    ghost predicate Holds(limbo: set<int>)
      reads this, vvNew, vvTried
    {
      Ahead(0, limbo)
    }

    ghost predicate Times()
      reads this
    {
      GoodTimes(mapInfo)
    }

    ghost predicate Valid()
      reads this, vvNew, vvTried
    {
      Holds({})
    }

    /** The constructor and Clear: empty tables under a fresh key. */
    constructor (h: nat -> Hashes, r: Net -> bool, key: nat)
      ensures Valid() && Times() && mapInfo == map[] && mapAddr == map[] && nKey == key && hashes == h && routable == r
      ensures fresh(vvNew) && fresh(vvTried)
    {
      hashes, routable, nKey := h, r, key;
      nIdCount, nTried, nNew := 0, 0, 0;
      mapInfo, mapAddr, vRandom := map[], map[], [];
      vvNew := new int[NEW_BUCKETS * BUCKET_SIZE](_ => -1);
      vvTried := new int[TRIED_BUCKETS * BUCKET_SIZE](_ => -1);
      new;
      EmptyBook(H(), Tables());
    }

    /** Find */
    method Find(addr: Net) returns (found: bool, id: int)
      requires Valid()
      ensures found <==> addr in mapAddr
      ensures found ==> id == mapAddr[addr] && id in mapInfo && mapInfo[id].service.net == addr
    {
      if addr !in mapAddr {
        return false, -1;
      }
      id := mapAddr[addr];
      found := id in mapInfo;
    }

    /** SwapRandom */
    method SwapRandom(i: nat, j: nat)
      requires RandomIndexed(mapInfo, vRandom) && i < |vRandom| && j < |vRandom|
      modifies this`mapInfo, this`vRandom
      ensures RandomIndexed(mapInfo, vRandom)
      ensures old(vRandom[i] in mapInfo && vRandom[j] in mapInfo) && Tables() == Swapped(old(Tables()), i, j)
    {
      hide RandomIndexed;
      SwappedRandom(Tables(), i, j);
      if i == j {
        return;
      }
      var x := vRandom[i];
      var y := vRandom[j];
      assert x in mapInfo;
      assert y in mapInfo;
      mapInfo := mapInfo[x := mapInfo[x].(randomPos := j)];
      mapInfo := mapInfo[y := mapInfo[y].(randomPos := i)];
      vRandom := vRandom[i := y];
      vRandom := vRandom[j := x];
    }

    /** Delete: the entry is swapped to the end of the random order and taken out. */
    method Delete(id: int)
      requires RandomIndexed(mapInfo, vRandom) && id in mapInfo && !mapInfo[id].inTried && mapInfo[id].refCount == 0
      modifies this`mapInfo, this`mapAddr, this`vRandom, this`nNew
      ensures RandomIndexed(mapInfo, vRandom)
      ensures old(Removable(Tables(), id)) && Tables() == Deleted(old(Tables()), id)
    {
      hide Swapped, Rest, RandomIndexed, Dropped;
      ghost var b := Tables();
      CanRemove(b, id);
      SwappedSame(b, mapInfo[id].randomPos, |vRandom| - 1);
      SwappedLast(b, mapInfo[id].randomPos);
      SwapRandom(mapInfo[id].randomPos, |vRandom| - 1);
      DroppedRandom(Tables(), id);
      PopLast(id);
    }

    method PopLast(id: int)
      requires id in mapInfo && |vRandom| > 0
      modifies this`vRandom, this`mapAddr, this`mapInfo, this`nNew
      ensures Tables() == Dropped(old(Tables()), id)
    {
      vRandom := vRandom[..|vRandom| - 1];
      mapAddr := mapAddr - {mapInfo[id].service.net};
      mapInfo := mapInfo - {id};
      nNew := nNew - 1;
    }

    /** ClearNew: slot k is empty afterwards; its occupant has one reference less, and is gone if
        that was the last. */
    method ClearNew(k: nat, ghost n: int, ghost limbo: set<int>)
      requires Ahead(n, limbo) && k < vvNew.Length
      modifies this, vvNew
      ensures Ahead(n, limbo) && nKey == old(nKey) && nIdCount == old(nIdCount) && nTried == old(nTried)
      ensures vvNew[..] == old(vvNew[..])[k := -1]
      ensures LostRef(old(mapInfo), mapInfo, old(vvNew[k]))
    {
      hide Consistent, Rest, Deleted;
      var id := vvNew[k];
      if id == -1 {
        assert vvNew[..][k := -1] == vvNew[..];
        RestRefl(mapInfo);
        return;
      }
      ghost var b := Tables();
      EmptiedKeeps(H(), b.(nNew := b.nNew - n), limbo, k);
      Occupant(H(), b.(nNew := b.nNew - n), limbo, k);
      assert mapInfo[id].refCount > 0;
      mapInfo := mapInfo[id := mapInfo[id].(refCount := mapInfo[id].refCount - 1)];
      vvNew[k] := -1;
      assert Tables() == Emptied(b, k);
      RestUpdate(b.infos, id, mapInfo[id]);
      if mapInfo[id].refCount == 0 {
        ghost var c := Tables();
        DeletedAhead(H(), c, n, limbo, id);
        Delete(id);
        RestTrans(b.infos, c.infos, mapInfo, {id});
      }
    }

    /** Slot k given up if the entry holds it. */
    method GiveUp(id: int, k: nat)
      requires id in mapInfo && k < vvNew.Length && mapInfo[id].refCount == multiset(vvNew[..])[id] && id != -1
      modifies this`mapInfo, vvNew
      ensures vvNew[..] == if old(vvNew[..])[k] == id then old(vvNew[..])[k := -1] else old(vvNew[..])
      ensures id in old(mapInfo) &&
        mapInfo == old(mapInfo)[id := old(mapInfo)[id].(refCount := multiset(vvNew[..])[id])]
    {
      ghost var news := vvNew[..];
      if vvNew[k] == id {
        CountLess(news, k, id);
        vvNew[k] := -1;
        assert vvNew[..] == news[k := -1];
        mapInfo := mapInfo[id := mapInfo[id].(refCount := mapInfo[id].refCount - 1)];
      } else {
        assert mapInfo[id := mapInfo[id].(refCount := multiset(news)[id])] == mapInfo;
      }
    }

    /** The first loop of MakeTried: every slot of the new table that holds the entry is emptied,
        and the reference count, lowered each time, ends at zero. */
    method Withdraw(id: int)
      requires Holds({}) && id in mapInfo && !mapInfo[id].inTried
      modifies this, vvNew
      ensures Holds({id}) && nKey == old(nKey)
      ensures old(id in mapInfo) && Tables() == Withdrawn(old(Tables()), id)
    {
      ghost var b := Tables();
      ghost var h := H();
      hide Consistent, Going, NewSlot, Withdrawn;
      WithdrawnKeeps(h, b, {}, id);
      GoingStart(h, b, id);
      var bucket := 0;
      while bucket < NEW_BUCKETS
        invariant 0 <= bucket <= NEW_BUCKETS && Going(b, id, bucket, mapInfo, vvNew[..])
        modifies this`mapInfo, vvNew
      {
        GoingNow(h, b, id, bucket, mapInfo, vvNew[..]);
        ghost var infos, news := mapInfo, vvNew[..];
        GiveUp(id, NewSlot(H(), mapInfo[id].service, bucket));
        GoingStep(h, b, id, bucket, infos, news, mapInfo, vvNew[..]);
        bucket := bucket + 1;
      }
      GoingEnd(b, id, mapInfo, vvNew[..]);
      nNew := nNew - 1;
      assert mapInfo[id].refCount == 0;
      assert {id} == {} + {id};
    }

    /** The eviction in MakeTried: the entry in tried slot k moves to its own new slot, whose
        occupant loses a reference. */
    method Evict(k: nat, ghost id: int)
      requires Holds({id}) && k < vvTried.Length && vvTried[k] != -1
      modifies this, vvNew, vvTried
      ensures Holds({id}) && nKey == old(nKey) && vvTried[..] == old(vvTried[..])[k := -1]
      ensures MovedToNew(H(), old(mapInfo), mapInfo, old(vvNew[..]), vvNew[..], old(vvTried[k]), {})
    {
      hide Consistent, LostRef, MovedToNew, OwnSlot;
      var out := vvTried[k];
      ghost var b := Tables();
      EvictedKeeps(H(), b, {id}, k);
      mapInfo := mapInfo[out := mapInfo[out].(inTried := false)];
      vvTried[k] := -1;
      nTried := nTried - 1;
      assert Tables() == Evicted(b, k);
      assert {id} + {out} == {id, out};

      var u := OwnSlot(H(), mapInfo[out]);
      ghost var c := Tables();
      SameSlot(H(), b.infos[out], mapInfo[out]);
      NewRange(H(), c, {id, out}, out);
      Bystanders(H(), c, {id, out}, out);
      ClearNew(u, 0, {id, out});
      InLimbo(H(), Tables(), {id, out}, out);
      assert vvNew[u] == -1;
      ghost var d := Tables();
      KeptService(c.infos, d.infos, c.news[u], out);
      SameSlot(H(), b.infos[out], d.infos[out]);
      EnterAgain(out, u, {id, out});
      assert {id, out} - {out} == {id};
      MovedStep(H(), b.infos, d.infos, b.news, out);
      assert vvNew[..] == b.news[u := out];
    }

    /** The evicted entry enters the new table again. */
    method EnterAgain(out: int, u: nat, ghost limbo: set<int>)
      requires Holds(limbo) && out in limbo && out in mapInfo && !mapInfo[out].inTried && mapInfo[out].refCount == 0
      requires u < vvNew.Length && vvNew[u] == -1 && u == OwnSlot(H(), mapInfo[out])
      modifies this, vvNew
      ensures Holds(limbo - {out}) && nKey == old(nKey)
      ensures vvNew[..] == old(vvNew[..])[u := out]
      ensures out in old(mapInfo) && mapInfo == old(mapInfo)[out := old(mapInfo)[out].(refCount := 1)]
    {
      hide Consistent;
      ghost var b := Tables();
      FilledKeeps(H(), b, limbo, out, u);
      mapInfo := mapInfo[out := mapInfo[out].(refCount := 1)];
      vvNew[u] := out;
      nNew := nNew + 1;
      assert Tables() == Filled(b, out, u).(nNew := b.nNew + 1);
    }

    /** MakeTried: the entry sits in its tried slot and in no new slot. */
    method MakeTried(id: int)
      requires Valid() && id in mapInfo && !mapInfo[id].inTried
      modifies this, vvNew, vvTried
      ensures Valid() && nKey == old(nKey)
      ensures MadeTried(H(), old(Tables()), Tables(), id)
    {
      hide Consistent, Rest, TriedSlot, Purged, MovedToNew;
      ghost var b := Tables();
      Withdraw(id);
      assert mapInfo[id].refCount == 0;
      var k := TriedSlot(H(), mapInfo[id].service);
      ghost var c := Tables();
      TriedRange(H(), c, {id});
      InLimbo(H(), c, {id}, id);
      Bystanders(H(), c, {id}, id);
      if vvTried[k] != -1 {
        EvictedKeeps(H(), c, {id}, k);
        Evict(k, id);
        InLimbo(H(), Tables(), {id}, id);
        MovedKeeps(H(), c.infos, mapInfo, c.news, vvNew[..], c.tried[k], id);
        MovedMore(H(), b.infos, mapInfo, c.news, vvNew[..], c.tried[k], id, c.infos[id], mapInfo[id].(inTried := true));
      } else {
        RestThrough(b.infos, id, c.infos[id], c.infos[id].(inTried := true));
      }
      assert vvTried[k] == -1;
      ghost var d := Tables();
      InLimbo(H(), d, {id}, id);
      PromotedKeeps(H(), d, {id}, id);
      vvTried[k] := id;
      nTried := nTried + 1;
      mapInfo := mapInfo[id := mapInfo[id].(inTried := true)];
      assert Tables() == Promoted(H(), d, id);
      assert {id} - {id} == {};
      assert vvTried[..] == b.tried[k := id];
    }

    // --------------------------------------------------------------- public operations

    /** The address is known with exactly this port. */
    ghost predicate Known(addr: Service)
      reads this
    {
      addr.net in mapAddr && mapAddr[addr.net] in mapInfo && mapInfo[mapAddr[addr.net]].service == addr
    }

    /** An entry gets new times or counts, nothing else. */
    method Revise(id: int, i: Info)
      requires Valid() && id in mapInfo && SamePlace(mapInfo[id], i)
      modifies this`mapInfo
      ensures Valid() && mapInfo == old(mapInfo)[id := i]
    {
      hide Consistent;
      ghost var b := Tables();
      UpdateKeeps(H(), b, {}, id, i);
      mapInfo := mapInfo[id := i];
      assert Tables() == b.(infos := mapInfo);
    }

    /** The search in Good_ for a bucket holding the entry; starting anywhere, it always succeeds. */
    method FindBucket(id: int, rnd: nat) returns (bucket: int)
      requires Valid() && id in mapInfo && !mapInfo[id].inTried
      ensures 0 <= bucket < NEW_BUCKETS && NewSlot(H(), mapInfo[id].service, bucket) < vvNew.Length
      ensures vvNew[NewSlot(H(), mapInfo[id].service, bucket)] == id
    {
      hide Consistent, NewSlot;
      var r := rnd % NEW_BUCKETS;
      SomewhereNew(H(), Tables(), id);
      ghost var b :| 0 <= b < NEW_BUCKETS && vvNew[..][NewSlot(H(), mapInfo[id].service, b)] == id;
      bucket := -1;
      var n := 0;
      while n < NEW_BUCKETS
        invariant 0 <= n <= NEW_BUCKETS
        invariant (b - r) % NEW_BUCKETS >= n
      {
        var nB := (n + r) % NEW_BUCKETS;
        if vvNew[NewSlot(H(), mapInfo[id].service, nB)] == id {
          bucket := nB;
          break;
        }
        Turn(n, r, b);
        n := n + 1;
      }
    }

    /** Good_: a known address is marked good and ends up tried. The times stay acceptable exactly
        when the given time is positive. */
    method Good(addr: Service, time: int, rnd: nat)
      requires Valid()
      modifies this, vvNew, vvTried
      ensures Valid() && nKey == old(nKey)
      ensures !old(Known(addr)) ==> Tables() == old(Tables())
      ensures old(Known(addr)) ==> WentWell(H(), old(Tables()), Tables(), old(mapAddr[addr.net]), time)
      ensures old(Times()) && old(Known(addr)) ==> (Times() <==> time > 0)
    {
      hide Consistent, MadeTried, NewSlot;
      var found, id := Find(addr.net);
      if !found || mapInfo[id].service != addr {
        return;
      }
      ghost var b := Tables();
      var i := mapInfo[id].(lastSuccess := time, lastTry := time, attempts := 0);
      Revise(id, i);
      assert mapInfo[id].lastSuccess == time;
      if mapInfo[id].inTried {
        return;
      }
      var bucket := FindBucket(id, rnd);
      if bucket == -1 {
        assert false;
      }
      ghost var c := Tables();
      MakeTried(id);
      TimesMade(H(), c, Tables(), id);
      NowTried(H(), c, Tables(), id);
    }

    /** Attempt_ */
    method Attempt(addr: Service, time: int)
      requires Valid()
      modifies this`mapInfo
      ensures Valid()
      ensures !old(Known(addr)) ==> mapInfo == old(mapInfo)
      ensures old(Known(addr)) ==>
        var id := mapAddr[addr.net];
        mapInfo == old(mapInfo)[id := old(mapInfo)[id].(lastTry := time, attempts := old(mapInfo)[id].attempts + 1)]
      ensures old(Times()) && old(Known(addr)) ==> (Times() <==> time >= 0)
    {
      hide Consistent;
      var found, id := Find(addr.net);
      if !found || mapInfo[id].service != addr {
        return;
      }
      Revise(id, mapInfo[id].(lastTry := time, attempts := mapInfo[id].attempts + 1));
      assert mapInfo[id].lastTry == time;
    }

    /** Connected_ */
    method Connected(addr: Service, time: int)
      requires Valid()
      modifies this`mapInfo
      ensures Valid()
      ensures !old(Known(addr)) ==> mapInfo == old(mapInfo)
      ensures old(Known(addr)) ==>
        var id := mapAddr[addr.net];
        var i := old(mapInfo)[id];
        mapInfo == if time - i.time > 20 * 60 then old(mapInfo)[id := i.(time := time % TWO32)] else old(mapInfo)
      ensures old(Times()) ==> Times()
    {
      hide Consistent;
      var found, id := Find(addr.net);
      if !found || mapInfo[id].service != addr {
        return;
      }
      if time - mapInfo[id].time > 20 * 60 {
        Revise(id, mapInfo[id].(time := time % TWO32));
      }
    }

    /** Create, and the lines of Add_ around it: the entry is counted as new but holds no slot yet. */
    method Create(addr: Service, services: bv64, time: int, source: Net, penalty: int) returns (id: int)
      requires Valid() && addr.net !in mapAddr
      modifies this
      ensures Ahead(1, {id}) && nKey == old(nKey) && id == old(nIdCount) && id !in old(mapInfo)
      ensures mapInfo ==
        old(mapInfo)[id := Newcomer(addr, services, time, source, penalty).(randomPos := |old(vRandom)|)]
      ensures Tables() ==
        Created(old(Tables()), Newcomer(addr, services, time, source, penalty)).(nNew := old(nNew) + 1)
    {
      hide Consistent;
      ghost var b := Tables();
      ghost var x := Newcomer(addr, services, time, source, penalty);
      FreshId(H(), b);
      CreatedKeeps(H(), b, {}, x);
      id := nIdCount;
      nIdCount := nIdCount + 1;
      var i := Info(addr, services, time, source, 0, 0, 0, 0, false, |vRandom|);
      mapAddr := mapAddr[addr.net := id];
      vRandom := vRandom + [id];
      mapInfo := mapInfo[id := i.(time := Max(0, i.time - penalty) % TWO32)];
      nNew := nNew + 1;
      assert Tables().(nNew := nNew - 1) == Created(b, x);
      assert {} + {id} == {id};
    }

    /** The end of Add_: the entry enters slot k if it is free or its occupant may go; an entry
        without any reference is deleted otherwise. */
    method Enter(id: int, k: nat, now: int, ghost isNew: bool)
      requires if isNew then Ahead(1, {id}) else Ahead(0, {})
      requires id in mapInfo && !mapInfo[id].inTried && mapInfo[id].refCount < NEW_BUCKETS_PER_ADDRESS
      requires isNew <==> mapInfo[id].refCount == 0
      requires k < vvNew.Length && k == NewSlot(H(), mapInfo[id].service, k / BUCKET_SIZE)
      modifies this, vvNew
      ensures Valid() && nKey == old(nKey)
      ensures Entered(old(Tables()), Tables(), id, k, now)
    {
      hide Consistent, TookSlot, NewSlot, Rest;
      ghost var b := Tables();
      ghost var n := if isNew then 1 else 0;
      ghost var limbo := if isNew then {id} else {};
      if vvNew[k] == id {
        if isNew {
          Bystanders(H(), b.(nNew := b.nNew - 1), {id}, id);
          assert false;
        }
        return;
      }
      var insert := vvNew[k] == -1;
      if !insert {
        Occupant(H(), b.(nNew := b.nNew - n), limbo, k);
        insert := Replaceable(mapInfo[vvNew[k]], mapInfo[id].refCount, now);
      }
      if insert {
        Insert(id, k, n, limbo);
        assert limbo - {id} == {};
      } else if mapInfo[id].refCount == 0 {
        assert limbo == {} + {id};
        DeletedAhead(H(), Tables(), 0, {}, id);
        Delete(id);
      }
    }

    /** The slot is cleared and the entry put there. */
    method Insert(id: int, k: nat, ghost n: int, ghost limbo: set<int>)
      requires Ahead(n, limbo) && (id in limbo <==> n == 1) && (n == 1 || n == 0)
      requires id in mapInfo && !mapInfo[id].inTried && mapInfo[id].refCount < NEW_BUCKETS_PER_ADDRESS
      requires k < vvNew.Length && k == NewSlot(H(), mapInfo[id].service, k / BUCKET_SIZE) && vvNew[k] != id
      modifies this, vvNew
      ensures Ahead(0, limbo - {id}) && nKey == old(nKey) && nIdCount == old(nIdCount)
      ensures TookSlot(old(Tables()), Tables(), id, k)
    {
      hide Consistent, LostRef, NewSlot;
      ghost var b := Tables();
      ClearNew(k, n, limbo);
      ghost var c := Tables();
      LostOther(b.infos, mapInfo, b.news[k], id);
      FilledKeeps(H(), c.(nNew := c.nNew - n), limbo, id, k);
      mapInfo := mapInfo[id := mapInfo[id].(refCount := mapInfo[id].refCount + 1)];
      vvNew[k] := id;
      assert Tables() == Filled(c, id, k);
      EnteredStep(b, c.infos, id, k);
      assert vvNew[..] == b.news[k := id];
    }

    /** The first half of Add_ on a known address: the entry is refreshed, and may draw a slot. */
    method Refresh(id: int, services: bv64, time: nat, penalty: int, now: int, rnd: nat) returns (draws: bool)
      requires Valid() && id in mapInfo
      modifies this`mapInfo
      ensures Valid() && mapInfo == old(mapInfo)[id := Refreshed(old(mapInfo)[id], services, time, penalty, now)]
      ensures draws <==> Draws(mapInfo[id], time, rnd)
      ensures draws ==> !mapInfo[id].inTried && 1 <= mapInfo[id].refCount < NEW_BUCKETS_PER_ADDRESS
      ensures old(Times()) ==> Times()
    {
      hide Consistent, Refreshed, Draws, GoodTimes;
      ghost var before := mapInfo;
      var i := UpdateEntry(mapInfo[id], services, time, penalty, now);
      Revise(id, i);
      RefreshedTimes(before, id, i);
      BoundIfNew(H(), Tables(), id);
      draws := Draw(i, time, rnd);
    }

    /** Add_ */
    method Add(addr: Service, services: bv64, time: nat, source: Net, penalty: int, now: int, rnd: nat)
      returns (fNew: bool)
      requires Valid()
      modifies this, vvNew
      ensures Valid() && nKey == old(nKey)
      ensures fNew <==> routable(addr.net) && addr.net !in old(mapAddr)
      ensures !routable(addr.net) ==> Tables() == old(Tables())
      ensures routable(addr.net) && addr.net in old(mapAddr) ==>
        Refreshing(H(), old(Tables()), Tables(), old(mapAddr)[addr.net], services, time, source, penalty, now,
                   rnd)
      ensures fNew ==> Welcoming(H(), old(Tables()), Tables(), addr, services, time, source, penalty, now)
      ensures old(Times()) ==> Times()
    {
      hide Consistent, NewSlot, Entered, Draws, Refreshed;
      if !routable(addr.net) {
        return false;
      }
      var found, id := Find(addr.net);
      ghost var b := Tables();
      if found {
        var draws := Refresh(id, services, time, penalty, now, rnd);
        if !draws {
          return false;
        }
        fNew := false;
      } else {
        id := Create(addr, services, time, source, penalty);
        fNew := true;
      }
      var k := NewSlot(H(), mapInfo[id].service, NewBucket(H(), mapInfo[id].service, source));
      SlotRange(H(), Tables().(nNew := nNew - if fNew then 1 else 0), if fNew then {id} else {}, mapInfo[id].service,
        source);
      ghost var d := Tables();
      Enter(id, k, now, fNew);
      if old(Times()) {
        TimesEntered(H(), d, Tables(), id, k, now);
      }
    }

    /** The entry at r brought to n. */
    method Shuffle(n: nat, r: nat, ghost now: int)
      requires Valid() && n <= r < |vRandom|
      modifies this`mapInfo, this`vRandom
      ensures Valid() && Rest(old(mapInfo), mapInfo, {}) && |vRandom| == old(|vRandom|) && vRandom[n] in mapInfo
      ensures Picked(mapInfo, vRandom[..n], now) == Picked(old(mapInfo), old(vRandom)[..n], now)
      ensures vRandom == Exchange(old(vRandom), n, r)
    {
      hide Consistent, Rest, Picked, Swapped, Exchange;
      ghost var b := Tables();
      RandomOf(H(), b, {});
      SwappedKeeps(H(), b, {}, n, r);
      SwappedPick(b, n, r, now);
      SwappedSame(b, n, r);
      SwappedExchange(b, n, r);
      SwapRandom(n, r);
      RandomOf(H(), Tables(), {});
    }

    /** GetAddr_: the addresses of the decent entries among a random choice, each entry at most
        once, up to the limit, and all of them if the limit is not reached. Only the random order
        changes, as the draws say. */
    method GetAddr(rand: nat -> nat, now: int) returns (out: seq<Address>, n: nat)
      requires Valid()
      modifies this`mapInfo, this`vRandom
      ensures Valid() && Rest(old(mapInfo), mapInfo, {}) && |vRandom| == old(|vRandom|)
      ensures n <= |vRandom| && out == Picked(mapInfo, vRandom[..n], now) && NoRepeats(vRandom)
      ensures |out| <= Limit(|vRandom|) && (|out| == Limit(|vRandom|) || n == |vRandom|)
      ensures n <= |old(vRandom)| && vRandom == Mixed(old(vRandom), rand, n)
    {
      hide Consistent, Rest, Picked, NoRepeats, Mixed, Exchange, Drawn;
      RestRefl(mapInfo);
      out := [];
      n := 0;
      PickedEmpty(mapInfo, vRandom, now);
      MixedNone(vRandom, rand);
      while n < |vRandom|
        invariant n <= |vRandom| && Valid() && Rest(old(mapInfo), mapInfo, {}) && |vRandom| == old(|vRandom|)
        invariant out == Picked(mapInfo, vRandom[..n], now) && |out| <= Limit(|vRandom|)
        invariant vRandom == Mixed(old(vRandom), rand, n)
      {
        if |out| >= Limit(|vRandom|) {
          break;
        }
        ghost var before := mapInfo;
        Shuffle(n, Drawn(rand(n), n, |vRandom|), now);
        MixedOne(old(vRandom), rand, n);
        RestTrans(old(mapInfo), before, mapInfo, {});
        var i := mapInfo[vRandom[n]];
        if !IsTerrible(i, now) {
          out := out + [Address(i.service, i.services, i.time)];
        }
        PickedNext(mapInfo, vRandom, n, now);
        n := n + 1;
      }
      RandomDistinct(H(), Tables());
    }
  }

  /** CAddress: what GetAddr_ copies of an entry. */
  datatype Address = Address(service: Service, services: bv64, time: int)

  /** The addresses of the entries that are not terrible, in this order. */
  function Picked(infos: map<int, Info>, ids: seq<int>, now: int): seq<Address> {
    if ids == [] then []
    else
      var id := ids[|ids| - 1];
      Picked(infos, ids[..|ids| - 1], now) +
      if id in infos && !IsTerrible(infos[id], now)
      then [Address(infos[id].service, infos[id].services, infos[id].time)]
      else []
  }

  function Limit(size: nat): nat {
    if GETADDR_MAX_PCT * size / 100 > GETADDR_MAX then GETADDR_MAX else GETADDR_MAX_PCT * size / 100
  }

  lemma {:induction false} SwappedExchange(b: Book, n: nat, r: nat)
    requires n < |b.random| && r < |b.random| && b.random[n] in b.infos && b.random[r] in b.infos
    ensures Swapped(b, n, r).random == Exchange(b.random, n, r)
  {
  }

  /** At most 2500 addresses, and at most 23 of a hundred. */
  lemma {:induction false} LimitBounds(size: nat)
    ensures Limit(size) <= 2500 && 100 * Limit(size) <= 23 * size
    ensures Limit(size) == 2500 || 100 * (Limit(size) + 1) > 23 * size
  {
  }

  ghost predicate NoRepeats(ids: seq<int>) {
    forall i, j :: 0 <= i < j < |ids| ==> ids[i] != ids[j]
  }

  lemma {:induction false} PickedEmpty(infos: map<int, Info>, ids: seq<int>, now: int)
    ensures Picked(infos, ids[..0], now) == []
  {
  }

  lemma {:induction false} PickedNext(infos: map<int, Info>, ids: seq<int>, n: nat, now: int)
    requires n < |ids| && ids[n] in infos
    ensures Picked(infos, ids[..n + 1], now) ==
            Picked(infos, ids[..n], now) +
            if IsTerrible(infos[ids[n]], now)
              then [] else [Address(infos[ids[n]].service, infos[ids[n]].services, infos[ids[n]].time)]
  {
    assert ids[..n + 1][..n] == ids[..n];
    assert ids[..n + 1][n] == ids[n];
  }

  /** Positions in the random order do not matter to the choice. */
  lemma {:induction false} PickedSame(x: map<int, Info>, y: map<int, Info>, ids: seq<int>, now: int)
    requires Rest(x, y, {})
    ensures Picked(x, ids, now) == Picked(y, ids, now)
  {
    if ids != [] {
      PickedSame(x, y, ids[..|ids| - 1], now);
    }
  }

  lemma {:induction false} SwappedPrefix(b: Book, n: nat, r: nat)
    requires n <= r < |b.random| && b.random[n] in b.infos && b.random[r] in b.infos
    ensures Swapped(b, n, r).random[..n] == b.random[..n]
  {
  }

  lemma {:induction false} SwappedPick(b: Book, n: nat, r: nat, now: int)
    requires RandomIndexed(b.infos, b.random) && n <= r < |b.random|
    ensures b.random[n] in b.infos && b.random[r] in b.infos
    ensures var c := Swapped(b, n, r);
      Rest(b.infos, c.infos, {}) && Picked(c.infos, c.random[..n], now) == Picked(b.infos, b.random[..n], now)
  {
    SwappedRandom(b, n, r);
    hide RandomIndexed, Picked, Swapped, Rest;
    SwappedSame(b, n, r);
    SwappedPrefix(b, n, r);
    var c := Swapped(b, n, r);
    PickedSame(b.infos, c.infos, b.random[..n], now);
  }

  lemma {:induction false} RandomDistinct(h: Hashes, b: Book)
    requires Consistent(h, b, {})
    ensures NoRepeats(b.random)
  {
  }

  /** 2^n, as Add_ computes it. */
  method Doubled(n: nat) returns (factor: nat)
    ensures factor == Exp2(n)
  {
    factor := 1;
    for i := 0 to n
      invariant factor == Exp2(i)
    {
      factor := factor * 2;
    }
  }

  /** Add_ updates the time and the services of a known entry. */
  method UpdateEntry(i: Info, services: bv64, time: nat, penalty: int, now: int) returns (j: Info)
    ensures j == Refreshed(i, services, time, penalty, now) && SamePlace(i, j)
    ensures j.lastTry == i.lastTry && j.lastSuccess == i.lastSuccess
  {
    j := i;
    var interval := if now - time < 24 * 60 * 60 then 60 * 60 else 24 * 60 * 60;
    if time != 0 && (i.time == 0 || i.time < time - interval - penalty) {
      j := j.(time := Max(0, time - penalty) % TWO32);
    }
    j := j.(services := i.services | services);
  }

  /** The tests of Add_ on an updated entry. */
  method Draw(i: Info, time: nat, rnd: nat) returns (draws: bool)
    requires !i.inTried ==> 1 <= i.refCount <= NEW_BUCKETS_PER_ADDRESS
    ensures draws <==> Draws(i, time, rnd)
    ensures draws ==> !i.inTried && 1 <= i.refCount < NEW_BUCKETS_PER_ADDRESS
  {
    hide Exp2;
    if time == 0 || (i.time != 0 && time <= i.time) {
      return false;
    }
    if i.inTried {
      return false;
    }
    if i.refCount == NEW_BUCKETS_PER_ADDRESS {
      return false;
    }
    var factor := Doubled(i.refCount);
    WholeDraw(rnd, i.refCount);
    if factor > 1 && rnd % factor != 0 {
      return false;
    }
    draws := true;
  }

  lemma {:induction false} RefreshedTimes(x: map<int, Info>, id: int, j: Info)
    requires id in x && SamePlace(x[id], j) && j.lastTry == x[id].lastTry && j.lastSuccess == x[id].lastSuccess
    ensures GoodTimes(x) ==> GoodTimes(x[id := j])
  {
  }

  lemma {:induction false} BoundIfNew(h: Hashes, b: Book, id: int)
    requires Consistent(h, b, {}) && id in b.infos
    ensures !b.infos[id].inTried ==> 1 <= b.infos[id].refCount <= NEW_BUCKETS_PER_ADDRESS
  {
    hide Consistent;
    if !b.infos[id].inTried {
      RefBound(h, b, id);
    }
  }

  lemma {:induction false} WholeDraw(rnd: nat, n: nat)
    ensures Exp2(n) <= 1 ==> rnd % Exp2(n) == 0
  {
  }

  /** The entry Add_ creates. */
  function Newcomer(addr: Service, services: bv64, time: int, source: Net, penalty: int): Info {
    Info(addr, services, Max(0, time - penalty) % TWO32, source, 0, 0, 0, 0, false, 0)
  }

  /** The entry after Add_ has seen its address again. */
  function Refreshed(i: Info, services: bv64, time: nat, penalty: int, now: int): Info {
    var interval := if now - time < 24 * 60 * 60 then 60 * 60 else 24 * 60 * 60;
    i.(time := if time != 0 && (i.time == 0 || i.time < time - interval - penalty)
               then Max(0, time - penalty) % TWO32
               else i.time,
       services := i.services | services)
  }

  /** The occupant of a slot may be replaced by an entry with this many references. */
  predicate Replaceable(i: Info, refs: int, now: int) {
    IsTerrible(i, now) || (i.refCount > 1 && refs == 0)
  }

  /** Entry id has taken slot k over from its occupant. */
  ghost predicate TookSlot(b: Book, c: Book, id: int, k: nat) {
    id in b.infos && id in c.infos && k < |b.news| && c.news == b.news[k := id] && c.tried == b.tried &&
    c.infos[id] == b.infos[id].(refCount := b.infos[id].refCount + 1, randomPos := c.infos[id].randomPos) &&
    Rest(b.infos, c.infos, {id, b.news[k]}) && (b.news[k] != -1 ==> OneLess(b.infos, c.infos, b.news[k]))
  }

  /** What the end of Add_ does. */
  ghost predicate Entered(b: Book, c: Book, id: int, k: nat, now: int) {
    id in b.infos && k < |b.news| && (b.news[k] != -1 ==> b.news[k] in b.infos) && c.idCount == b.idCount &&
    if b.news[k] == id then c == b
    else if b.news[k] == -1 || Replaceable(b.infos[b.news[k]], b.infos[id].refCount, now) then TookSlot(b, c, id, k)
    else if b.infos[id].refCount == 0 then
      c.news == b.news && c.tried == b.tried && id !in c.infos && Rest(b.infos, c.infos, {id})
    else c == b
  }

  /** What Check_ demands of the times. */
  ghost predicate GoodTimes(infos: map<int, Info>) {
    forall id :: id in infos ==>
      infos[id].lastTry >= 0 && infos[id].lastSuccess >= 0 && (infos[id].inTried ==> infos[id].lastSuccess != 0)
  }

  lemma {:induction false} TimesEnteredAt(b: Book, c: Book, id: int, k: nat, now: int, j: int)
    requires Entered(b, c, id, k, now) && GoodTimes(b.infos) && j in c.infos && j != -1
    ensures j in b.infos && c.infos[j].lastTry == b.infos[j].lastTry && c.infos[j].lastSuccess == b.infos[j].lastSuccess
    ensures c.infos[j].inTried == b.infos[j].inTried
  {
    hide Replaceable, GoodTimes;
  }

  lemma {:induction false} TimesEntered(h: Hashes, b: Book, c: Book, id: int, k: nat, now: int)
    requires Entered(b, c, id, k, now) && GoodTimes(b.infos) && Consistent(h, c, {})
    ensures GoodTimes(c.infos)
  {
    assert -1 !in c.infos;
    hide Consistent, Entered;
    forall j | j in c.infos
      ensures j in b.infos && c.infos[j].lastTry == b.infos[j].lastTry &&
        c.infos[j].lastSuccess == b.infos[j].lastSuccess
      ensures c.infos[j].inTried == b.infos[j].inTried
    {
      TimesEnteredAt(b, c, id, k, now, j);
    }
  }

  /** Add_ gives a known entry a further slot: there is news of it, it is new and not yet in eight
      buckets, and the draw, twice as hard for each bucket it is in, succeeds. */
  predicate Draws(i: Info, time: nat, rnd: nat) {
    time != 0 && (i.time == 0 || time > i.time) && !i.inTried && 0 <= i.refCount < NEW_BUCKETS_PER_ADDRESS &&
    rnd % Exp2(i.refCount) == 0
  }

  /** Add_ on a known address: the entry is refreshed, and enters one more slot if it draws it. */
  ghost predicate Refreshing(h: Hashes, b: Book, c: Book, id: int, services: bv64, time: nat, source: Net,
          penalty: int, now: int, rnd: nat)
  {
    id in b.infos &&
    var i := Refreshed(b.infos[id], services, time, penalty, now);
    var d := b.(infos := b.infos[id := i]);
    if Draws(i, time, rnd) then Entered(d, c, id, NewSlot(h, i.service, NewBucket(h, i.service, source)), now)
    else c == d
  }

  /** Add_ on a new address. */
  ghost predicate Welcoming(h: Hashes, b: Book, c: Book, addr: Service, services: bv64, time: nat, source: Net,
          penalty: int, now: int)
  {
    var d := Created(b, Newcomer(addr, services, time, source, penalty)).(nNew := b.nNew + 1);
    Entered(d, c, b.idCount, NewSlot(h, addr, NewBucket(h, addr, source)), now)
  }

  /** If it draws and the slot its source gives it is free, it has one bucket more. */
  lemma {:induction false} OneMoreSlot(h: Hashes, b: Book, c: Book, id: int, services: bv64, time: nat, source: Net,
          penalty: int, now: int, rnd: nat, k: nat)
    requires Refreshing(h, b, c, id, services, time, source, penalty, now, rnd) && id != -1
    requires Draws(Refreshed(b.infos[id], services, time, penalty, now), time, rnd)
    requires k == NewSlot(h, b.infos[id].service, NewBucket(h, b.infos[id].service, source)) < |b.news|
    requires b.news[k] == -1
    ensures c.news == b.news[k := id] && id in c.infos && c.infos[id].refCount == b.infos[id].refCount + 1
  {
    hide NewSlot, NewBucket, Draws, Rest, Replaceable;
  }

  /** A new address is known afterwards exactly if its slot was free or its occupant could go. */
  lemma {:induction false} NewcomerStays(h: Hashes, b: Book, c: Book, addr: Service, services: bv64, time: nat,
          source: Net, penalty: int, now: int, k: nat)
    requires Welcoming(h, b, c, addr, services, time, source, penalty, now) && Consistent(h, b, {})
    requires k == NewSlot(h, addr, NewBucket(h, addr, source)) < |b.news|
    ensures b.news[k] == -1 || b.news[k] in b.infos
    ensures b.idCount in c.infos <==>
            b.news[k] == -1 || IsTerrible(b.infos[b.news[k]], now) || b.infos[b.news[k]].refCount > 1
    ensures b.idCount in c.infos ==> c.news == b.news[k := b.idCount] && c.infos[b.idCount].refCount == 1
  {
    hide NewSlot, NewBucket, Rest, IsTerrible, Consistent;
    FreshId(h, b);
    NewHere(h, b, k);
  }

  /** A known entry displaces a terrible one only. */
  lemma {:induction false} OnlyTerribleYield(b: Book, c: Book, id: int, k: nat, now: int)
    requires Entered(b, c, id, k, now) && b.infos[id].refCount > 0 && b.news[k] != -1 && b.news[k] != id
    ensures if IsTerrible(b.infos[b.news[k]], now) then c.news == b.news[k := id] else c == b
  {
    hide Rest, IsTerrible;
  }

  /** Nobody but a terrible entry goes to make room. */
  lemma {:induction false} OnlyTerribleGo(b: Book, c: Book, id: int, k: nat, now: int, j: int)
    requires Entered(b, c, id, k, now) && j in b.infos && j !in c.infos && j != id && j != -1
    ensures j == b.news[k] && IsTerrible(b.infos[j], now) && b.infos[j].refCount == 1
  {
    hide IsTerrible;
  }

  /** A good address is tried, in its slot, and remembers when. */
  lemma {:induction false} GoodOutcome(h: Hashes, b: Book, c: Book, id: int, time: int)
    requires WentWell(h, b, c, id, time) && Consistent(h, c, {})
    ensures id in c.infos && c.infos[id].inTried && c.infos[id].service == b.infos[id].service
    ensures c.infos[id].lastSuccess == c.infos[id].lastTry == time && c.infos[id].attempts == 0
    ensures c.infos[id].time == b.infos[id].time && c.infos[id].services == b.infos[id].services
    ensures TriedSlot(h, b.infos[id].service) < |c.tried| && c.tried[TriedSlot(h, b.infos[id].service)] == id
    ensures id !in c.news
  {
    hide TriedSlot, MovedToNew, Consistent, Rest, Purged;
    TriedIsThere(h, c, id);
  }

  lemma {:induction false} TriedIsThere(h: Hashes, b: Book, id: int)
    requires Consistent(h, b, {}) && id in b.infos && b.infos[id].inTried
    ensures TriedSlot(h, b.infos[id].service) < |b.tried| && b.tried[TriedSlot(h, b.infos[id].service)] == id
    ensures id !in b.news
  {
    hide TriedSlot, Indexed, NewPlaced, Sized, Numbered;
    assert InSlot(h, b.infos[id], id, b.tried);
    assert RefsOk(b.infos[id], multiset(b.news)[id], false);
  }

  lemma {:induction false} NewHere(h: Hashes, b: Book, k: nat)
    requires Consistent(h, b, {}) && k < |b.news|
    ensures b.news[k] == -1 || b.news[k] in b.infos
    ensures b.idCount != -1
  {
    hide NewSlot;
  }

  /** How far the time of an entry may lag behind what is reported of it: an hour, or a day for an
      address not seen for a day. */
  function Lag(time: nat, now: int): nat {
    if now - time < 86_400 then 3_600 else 86_400
  }

  /** Refreshing brings the time of an entry within the lag, never back, and not before it lags. */
  lemma {:induction false} RefreshedTime(i: Info, services: bv64, time: nat, penalty: nat, now: int)
    requires 0 < time < TWO32 && 0 <= i.time
    ensures var t := Refreshed(i, services, time, penalty, now).time;
            time - penalty - Lag(time, now) <= t && i.time <= t &&
            (t != i.time && i.time != 0 ==> t == time - penalty > i.time + Lag(time, now))
  {
  }

  lemma {:induction false} EnteredStep(b: Book, y: map<int, Info>, id: int, k: nat)
    requires k < |b.news| && LostRef(b.infos, y, b.news[k]) && b.news[k] != id && id in b.infos && id in y
    requires y[id] == b.infos[id].(randomPos := y[id].randomPos)
    ensures var z := y[id := y[id].(refCount := y[id].refCount + 1)];
            Rest(b.infos, z, {id, b.news[k]}) && (b.news[k] != -1 ==> OneLess(b.infos, z, b.news[k])) &&
            z[id] == b.infos[id].(refCount := b.infos[id].refCount + 1, randomPos := z[id].randomPos)
  {
  }

  lemma {:induction false} LostOther(x: map<int, Info>, y: map<int, Info>, id: int, j: int)
    requires LostRef(x, y, id) && j in x && j != id
    ensures j in y && y[j] == x[j].(randomPos := y[j].randomPos)
  {
  }

  lemma {:induction false} FreshId(h: Hashes, b: Book)
    requires Consistent(h, b, {})
    ensures b.idCount !in b.infos
  {
  }

  lemma {:induction false} RefBound(h: Hashes, b: Book, id: int)
    requires Consistent(h, b, {}) && id in b.infos && !b.infos[id].inTried
    ensures 1 <= b.infos[id].refCount <= NEW_BUCKETS_PER_ADDRESS
  {
    assert RefsOk(b.infos[id], multiset(b.news)[id], false);
  }

  lemma {:induction false} SlotRange(h: Hashes, b: Book, limbo: set<int>, s: Service, source: Net)
    requires Consistent(h, b, limbo)
    ensures NewSlot(h, s, NewBucket(h, s, source)) < |b.news|
    ensures NewSlot(h, s, NewBucket(h, s, source)) ==
      NewSlot(h, s, NewSlot(h, s, NewBucket(h, s, source)) / BUCKET_SIZE)
  {
    hide Indexed, TriedPlaced, Counted, Sized;
  }

  /** What Good_ does to a known entry. */
  ghost predicate WentWell(h: Hashes, b: Book, c: Book, id: int, time: int) {
    id in b.infos &&
    var d := b.(infos := b.infos[id := b.infos[id].(lastSuccess := time, lastTry := time, attempts := 0)]);
    if b.infos[id].inTried then c == d else MadeTried(h, d, c, id)
  }

  /** A new entry sits in some bucket. */
  lemma {:induction false} SomewhereNew(h: Hashes, b: Book, id: int)
    requires Consistent(h, b, {}) && id in b.infos && !b.infos[id].inTried
    ensures |b.news| == NEW_BUCKETS * BUCKET_SIZE
    ensures forall n :: 0 <= n < NEW_BUCKETS ==> NewSlot(h, b.infos[id].service, n) < |b.news|
    ensures exists n :: 0 <= n < NEW_BUCKETS && b.news[NewSlot(h, b.infos[id].service, n)] == id
  {
    hide Indexed, TriedPlaced, Counted, Sized, Numbered;
    CountOf(h, b, {}, id);
    RefBound(h, b, id);
    assert id in multiset(b.news);
    var k :| 0 <= k < |b.news| && b.news[k] == id;
    var n := k / BUCKET_SIZE;
    assert b.news[NewSlot(h, b.infos[id].service, n)] == id;
  }

  lemma {:induction false} Turn(n: nat, r: nat, b: nat)
    requires r < NEW_BUCKETS && b < NEW_BUCKETS && n < NEW_BUCKETS && (b - r) % NEW_BUCKETS >= n &&
      (n + r) % NEW_BUCKETS != b
    ensures (b - r) % NEW_BUCKETS >= n + 1
  {
  }

  lemma {:induction false} NowTried(h: Hashes, b: Book, c: Book, id: int)
    requires MadeTried(h, b, c, id)
    ensures id in b.infos && id in c.infos && c.infos[id].inTried && c.infos[id].lastSuccess == b.infos[id].lastSuccess
  {
  }

  ghost predicate SameTimes(x: map<int, Info>, y: map<int, Info>, id: int, j: int) {
    j in y ==>
      j in x && y[j].lastTry == x[j].lastTry && y[j].lastSuccess == x[j].lastSuccess &&
      (y[j].inTried ==> j == id || x[j].inTried)
  }

  lemma {:induction false} TimesMadeAt(h: Hashes, b: Book, c: Book, id: int, j: int)
    requires MadeTried(h, b, c, id) && j != -1
    ensures SameTimes(b.infos, c.infos, id, j)
  {
    hide OwnSlot, TriedSlot, Purged, NewSlot;
    if j != id {
      var k := TriedSlot(h, b.infos[id].service);
      if b.tried[k] == -1 {
        assert Rest(b.infos, c.infos, {id});
      } else {
        var out := b.tried[k];
        assert OwnSlot(h, b.infos[out]) < |Purged(b.news, id, NEW_BUCKETS)|;
        var occupant := Purged(b.news, id, NEW_BUCKETS)[OwnSlot(h, b.infos[out])];
        assert Rest(b.infos, c.infos, {out, occupant} + {id});
        assert occupant != -1 ==> OneLess(b.infos, c.infos, occupant);
      }
    }
  }

  /** Moving entries between the tables changes no times, and only id becomes tried. */
  lemma {:induction false} TimesMade(h: Hashes, b: Book, c: Book, id: int)
    requires MadeTried(h, b, c, id) && Consistent(h, c, {})
    ensures forall j :: j in c.infos ==> SameTimes(b.infos, c.infos, id, j)
  {
    assert -1 !in c.infos;
    forall j | j in c.infos
      ensures SameTimes(b.infos, c.infos, id, j)
    {
      TimesMadeAt(h, b, c, id, j);
    }
  }

  /** The slot of the new table an entry's own source gives it. */
  function OwnSlot(h: Hashes, i: Info): nat {
    NewSlot(h, i.service, NewBucket(h, i.service, i.source))
  }

  /** One reference less; gone at the last. */
  ghost predicate OneLess(x: map<int, Info>, y: map<int, Info>, id: int) {
    id in x &&
    if x[id].refCount == 1 then id !in y
    else id in y && y[id] == x[id].(refCount := x[id].refCount - 1, randomPos := y[id].randomPos)
  }

  /** What an eviction does: out is new again, with one reference, in the slot its source gives it,
      and the occupant of that slot has one less. Entries in ids are not spoken of. */
  ghost predicate MovedToNew(h: Hashes, x: map<int, Info>, y: map<int, Info>, news: seq<int>, news1: seq<int>,
          out: int, ids: set<int>)
  {
    out in x && out in y && OwnSlot(h, x[out]) < |news| &&
    y[out] == x[out].(inTried := false, refCount := 1, randomPos := y[out].randomPos) &&
    var u := OwnSlot(h, x[out]);
    news1 == news[u := out] && Rest(x, y, {out, news[u]} + ids) && (news[u] != -1 ==> OneLess(x, y, news[u]))
  }

  /** What MakeTried does: id is tried, in its slot, and in no new slot; an entry it displaces
      moves to the new table. */
  ghost predicate MadeTried(h: Hashes, b: Book, c: Book, id: int) {
    id in b.infos && id in c.infos && TriedSlot(h, b.infos[id].service) < |b.tried| &&
    c.infos[id] == b.infos[id].(inTried := true, refCount := 0, randomPos := c.infos[id].randomPos) &&
    var k := TriedSlot(h, b.infos[id].service);
    var news := Purged(b.news, id, NEW_BUCKETS);
    c.tried == b.tried[k := id] &&
    if b.tried[k] == -1 then c.news == news && Rest(b.infos, c.infos, {id})
    else MovedToNew(h, b.infos, c.infos, news, c.news, b.tried[k], {id})
  }

  lemma {:induction false} MovedMore(h: Hashes, x: map<int, Info>, y: map<int, Info>, news: seq<int>, news1: seq<int>,
          out: int, id: int, i: Info, j: Info)
    requires MovedToNew(h, x[id := i], y, news, news1, out, {}) && id != out && id !in news
    ensures MovedToNew(h, x, y[id := j], news, news1, out, {id})
  {
    hide OwnSlot;
    var u := OwnSlot(h, x[out]);
    assert news[u] != id;
  }

  lemma {:induction false} MovedKeeps(h: Hashes, x: map<int, Info>, y: map<int, Info>, news: seq<int>, news1: seq<int>,
          out: int, id: int)
    requires MovedToNew(h, x, y, news, news1, out, {}) && id != out && id !in news && id in x
    ensures id in y && y[id] == x[id].(randomPos := y[id].randomPos)
  {
    hide OwnSlot;
    assert news[OwnSlot(h, x[out])] != id;
  }

  lemma {:induction false} RestThrough(x: map<int, Info>, id: int, i: Info, j: Info)
    ensures Rest(x, x[id := i][id := j], {id})
  {
  }

  /** Limbo entries hold no slot. */
  lemma {:induction false} Bystanders(h: Hashes, b: Book, limbo: set<int>, id: int)
    requires Consistent(h, b, limbo) && id in limbo
    ensures id !in b.news
  {
    assert RefsOk(b.infos[id], multiset(b.news)[id], true);
  }

  /** Putting out into its slot completes the move. */
  lemma {:induction false} MovedStep(h: Hashes, x: map<int, Info>, y: map<int, Info>, news: seq<int>, out: int)
    requires out in x && OwnSlot(h, x[out]) < |news| && out !in news && out in y
    requires LostRef(x[out := x[out].(inTried := false)], y, news[OwnSlot(h, x[out])])
    ensures MovedToNew(h, x, y[out := y[out].(refCount := 1)], news, news[OwnSlot(h, x[out]) := out], out, {})
  {
    hide OwnSlot, Rest;
    var u := OwnSlot(h, x[out]);
    assert news[u] != out;
    if news[u] == -1 {
      RestRefl(y);
      RestOut(x, y, out, x[out].(inTried := false), y[out].(refCount := 1), {});
      RestWide(x, y[out := y[out].(refCount := 1)], {out} + {}, {out, news[u]} + {});
    } else {
      RestAt(x[out := x[out].(inTried := false)], y, {news[u]}, out);
      RestOut(x, y, out, x[out].(inTried := false), y[out].(refCount := 1), {news[u]});
      assert {out} + {news[u]} == {out, news[u]} + {};
    }
  }

  lemma {:induction false} RestAt(x: map<int, Info>, y: map<int, Info>, ids: set<int>, id: int)
    requires Rest(x, y, ids) && id !in ids && id in x
    ensures id in y && y[id] == x[id].(randomPos := y[id].randomPos)
  {
  }

  lemma {:induction false} RestWide(x: map<int, Info>, y: map<int, Info>, ids: set<int>, more: set<int>)
    requires Rest(x, y, ids) && ids <= more
    ensures Rest(x, y, more)
  {
  }

  lemma {:induction false} RestOut(x: map<int, Info>, y: map<int, Info>, out: int, before: Info, after: Info,
          ids: set<int>)
    requires out in x && out in y && Rest(x[out := before], y, ids)
    ensures Rest(x, y[out := after], {out} + ids)
  {
  }

  lemma {:induction false} TriedRange(h: Hashes, b: Book, limbo: set<int>)
    requires Consistent(h, b, limbo)
    ensures |b.tried| == TRIED_BUCKETS * BUCKET_SIZE
  {
  }

  lemma {:induction false} NewRange(h: Hashes, b: Book, limbo: set<int>, id: int)
    requires Consistent(h, b, limbo) && id in b.infos
    ensures OwnSlot(h, b.infos[id]) < |b.news|
  {
    hide Indexed, TriedPlaced, Counted, Sized;
  }

  /** The loop of MakeTried after the first n buckets. */
  ghost predicate Going(b: Book, id: int, n: nat, infos: map<int, Info>, news: seq<int>) {
    id in b.infos && id != -1 && |b.news| == NEW_BUCKETS * BUCKET_SIZE &&
    news == Purged(b.news, id, n) && infos == b.infos[id := b.infos[id].(refCount := multiset(news)[id])]
  }

  lemma {:induction false} GoingStart(h: Hashes, b: Book, id: int)
    requires Consistent(h, b, {}) && id in b.infos
    ensures Going(b, id, 0, b.infos, b.news)
  {
    CountOf(h, b, {}, id);
    PurgedNone(b.news, id);
  }

  lemma {:induction false} GoingNow(h: Hashes, b: Book, id: int, n: nat, infos: map<int, Info>, news: seq<int>)
    requires Consistent(h, b, {}) && Going(b, id, n, infos, news) && n < NEW_BUCKETS
    ensures id in infos && id != -1 && infos[id].refCount == multiset(news)[id] &&
      infos[id].service == b.infos[id].service
    ensures |news| == NEW_BUCKETS * BUCKET_SIZE && NewSlot(h, infos[id].service, n) < |news|
  {
    hide Consistent;
  }

  lemma {:induction false} GoingStep(h: Hashes, b: Book, id: int, n: nat, infos: map<int, Info>, news: seq<int>,
          infos1: map<int, Info>, news1: seq<int>)
    requires Consistent(h, b, {}) && Going(b, id, n, infos, news) && n < NEW_BUCKETS
    requires NewSlot(h, b.infos[id].service, n) < |news| && id in infos
    requires news1 == var k := NewSlot(h, b.infos[id].service, n); if news[k] == id then news[k := -1] else news
    requires infos1 == infos[id := infos[id].(refCount := multiset(news1)[id])]
    ensures Going(b, id, n + 1, infos1, news1)
  {
    hide Consistent, Purged, NewSlot;
    PurgedStep(h, b, {}, id, n);
    assert infos[id := infos1[id]] == b.infos[id := infos1[id]];
  }

  lemma {:induction false} GoingEnd(b: Book, id: int, infos: map<int, Info>, news: seq<int>)
    requires Going(b, id, NEW_BUCKETS, infos, news)
    ensures id in infos && infos[id].refCount == 0
    ensures b.(infos := infos, news := news, nNew := b.nNew - 1) == Withdrawn(b, id)
  {
    PurgedAll(b.news, id);
    hide Purged;
    assert multiset(news)[id] == 0;
  }

  /** What emptying a slot held by id does to the entries. */
  ghost predicate LostRef(x: map<int, Info>, y: map<int, Info>, id: int) {
    if id == -1 then x == y
    else
      id in x && Rest(x, y, {id}) &&
      if x[id].refCount == 1 then id !in y else id in y && y[id] == x[id].(refCount := x[id].refCount - 1)
  }

  lemma {:induction false} RestLess(x: map<int, Info>, y: map<int, Info>, id: int)
    requires Rest(x, y, {})
    ensures Rest(x, y - {id}, {id})
  {
  }

  lemma {:induction false} RestRefl(x: map<int, Info>)
    ensures Rest(x, x, {})
  {
  }

  lemma {:induction false} RestUpdate(x: map<int, Info>, id: int, i: Info)
    ensures Rest(x, x[id := i], {id})
  {
  }

  lemma {:induction false} RestTrans(x: map<int, Info>, y: map<int, Info>, z: map<int, Info>, ids: set<int>)
    requires Rest(x, y, ids) && Rest(y, z, ids)
    ensures Rest(x, z, ids)
  {
  }

  lemma {:induction false} SwappedSame(b: Book, i: nat, j: nat)
    requires i < |b.random| && j < |b.random| && b.random[i] in b.infos && b.random[j] in b.infos
    ensures var c := Swapped(b, i, j);
            c.addrs == b.addrs && c.news == b.news && c.tried == b.tried && c.nNew == b.nNew && c.nTried == b.nTried &&
            c.idCount == b.idCount && Rest(b.infos, c.infos, {}) && c.infos.Keys == b.infos.Keys &&
              |c.random| == |b.random| &&
            forall id :: id in b.infos ==> c.infos[id].service == b.infos[id].service
  {
  }

  lemma {:induction false} SwappedLast(b: Book, i: nat)
    requires i < |b.random| && b.random[i] in b.infos && b.random[|b.random| - 1] in b.infos
    ensures Swapped(b, i, |b.random| - 1).random[|b.random| - 1] == b.random[i]
  {
  }

  ghost predicate Removable(b: Book, id: int) {
    id in b.infos && 0 <= b.infos[id].randomPos < |b.random| &&
    b.random[b.infos[id].randomPos] in b.infos && b.random[|b.random| - 1] in b.infos
  }

  lemma {:induction false} CanRemove(b: Book, id: int)
    requires RandomIndexed(b.infos, b.random) && id in b.infos
    ensures Removable(b, id) && b.random[b.infos[id].randomPos] == id
  {
  }

  lemma {:induction false} DeletedRest(b: Book, id: int)
    requires Removable(b, id)
    ensures Rest(b.infos, Deleted(b, id).infos, {id}) && id !in Deleted(b, id).infos
    ensures Deleted(b, id).addrs == b.addrs - {b.infos[id].service.net}
  {
    hide Swapped;
    SwappedSame(b, b.infos[id].randomPos, |b.random| - 1);
    RestLess(b.infos, Swapped(b, b.infos[id].randomPos, |b.random| - 1).infos, id);
  }

  lemma {:induction false} DeletedCount(b: Book, n: int, id: int)
    requires Removable(b, id)
    ensures Deleted(b.(nNew := b.nNew - n), id) == Deleted(b, id).(nNew := b.nNew - 1 - n)
    ensures var c := Deleted(b, id);
      c.news == b.news && c.tried == b.tried && c.nNew == b.nNew - 1 && c.nTried == b.nTried && c.idCount == b.idCount
  {
    hide Swapped, Rest;
    SwappedSame(b, b.infos[id].randomPos, |b.random| - 1);
    SwappedShift(b, n, b.infos[id].randomPos, |b.random| - 1);
  }

  lemma {:induction false} SwappedShift(b: Book, n: int, i: nat, j: nat)
    requires i < |b.random| && j < |b.random| && b.random[i] in b.infos && b.random[j] in b.infos
    ensures Swapped(b.(nNew := b.nNew - n), i, j) == Swapped(b, i, j).(nNew := b.nNew - n)
  {
  }

  lemma {:induction false} RandomOf(h: Hashes, b: Book, limbo: set<int>)
    requires Consistent(h, b, limbo)
    ensures RandomIndexed(b.infos, b.random) && forall i :: 0 <= i < |b.random| ==> b.random[i] in b.infos
  {
    IndexedRandom(b.infos, b.addrs, b.random);
  }

  /** Deleting an entry in limbo, when nNew counts it and n others ahead. */
  lemma {:induction false} DeletedAhead(h: Hashes, b: Book, n: int, limbo: set<int>, id: int)
    requires Consistent(h, b.(nNew := b.nNew - (n + 1)), limbo + {id}) && id in b.infos && id !in limbo
    ensures RandomIndexed(b.infos, b.random) && !b.infos[id].inTried && b.infos[id].refCount == 0 && Removable(b, id)
    ensures var c := Deleted(b, id);
            Consistent(h, c.(nNew := c.nNew - n), limbo) && Rest(b.infos, c.infos, {id}) && id !in c.infos &&
            c.news == b.news && c.tried == b.tried && c.nTried == b.nTried && c.idCount == b.idCount
  {
    hide Consistent, Rest, Deleted;
    var c := b.(nNew := b.nNew - n);
    RandomOf(h, c.(nNew := c.nNew - 1), limbo + {id});
    DeletedKeeps(h, c, limbo, id);
    InLimbo(h, c.(nNew := c.nNew - 1), limbo + {id}, id);
    DeletedRest(b, id);
    DeletedCount(b, n, id);
  }

  lemma {:induction false} InLimbo(h: Hashes, b: Book, limbo: set<int>, id: int)
    requires Consistent(h, b, limbo) && id in limbo
    ensures id in b.infos && !b.infos[id].inTried && b.infos[id].refCount == 0
  {
    assert RefsOk(b.infos[id], multiset(b.news)[id], true);
  }

  lemma {:induction false} CountOf(h: Hashes, b: Book, limbo: set<int>, id: int)
    requires Consistent(h, b, limbo) && id in b.infos
    ensures b.infos[id].refCount == multiset(b.news)[id] && |b.news| == NEW_BUCKETS * BUCKET_SIZE && id != -1
    ensures b.infos[id := b.infos[id].(refCount := multiset(b.news)[id])] == b.infos
  {
    assert RefsOk(b.infos[id], multiset(b.news)[id], id in limbo);
  }

  lemma {:induction false} CountLess(news: seq<int>, k: nat, id: int)
    requires k < |news| && news[k] == id && id != -1
    ensures multiset(news[k := -1])[id] == multiset(news)[id] - 1
  {
    assert multiset(news[k := -1]) == multiset(news) - multiset{id} + multiset{-1};
  }

  lemma {:induction false} PurgedNone(news: seq<int>, id: int)
    ensures Purged(news, id, 0) == news
  {
  }

  lemma {:induction false} PurgedAll(news: seq<int>, id: int)
    requires |news| == NEW_BUCKETS * BUCKET_SIZE && id != -1
    ensures id !in Purged(news, id, NEW_BUCKETS)
  {
  }

  /** In each bucket only one slot can hold the entry. */
  lemma {:induction false} PurgedStep(h: Hashes, b: Book, limbo: set<int>, id: int, bucket: nat)
    requires Consistent(h, b, limbo) && id in b.infos && bucket < NEW_BUCKETS
    ensures var k := NewSlot(h, b.infos[id].service, bucket);
            |Purged(b.news, id, bucket)| == |b.news| && k < |b.news| &&
            Purged(b.news, id, bucket + 1) ==
            if Purged(b.news, id, bucket)[k] == id
              then Purged(b.news, id, bucket)[k := -1] else Purged(b.news, id, bucket)
  {
    hide Indexed, TriedPlaced, Counted, Sized;
    var k := NewSlot(h, b.infos[id].service, bucket);
    hide NewSlot;
    forall j | 0 <= j < |b.news| && b.news[j] == id && j / BUCKET_SIZE == bucket
      ensures j == k
    {
    }
  }

  lemma {:induction false} SameSlot(h: Hashes, i: Info, j: Info)
    requires i.service == j.service && i.source == j.source
    ensures OwnSlot(h, i) == OwnSlot(h, j)
    ensures OwnSlot(h, i) == NewSlot(h, i.service, OwnSlot(h, i) / BUCKET_SIZE)
  {
  }

  lemma {:induction false} KeptService(x: map<int, Info>, y: map<int, Info>, id: int, j: int)
    requires LostRef(x, y, id) && j in x && j in y
    ensures y[j].service == x[j].service && y[j].source == x[j].source
  {
  }

  lemma {:induction false} EmptyBook(h: Hashes, b: Book)
    requires b.infos == map[] && b.addrs == map[] && b.random == [] && b.nNew == 0 && b.nTried == 0 && b.idCount == 0
    requires |b.news| == NEW_BUCKETS * BUCKET_SIZE && |b.tried| == TRIED_BUCKETS * BUCKET_SIZE
    requires (forall k :: 0 <= k < |b.news| ==> b.news[k] == -1) &&
      (forall k :: 0 <= k < |b.tried| ==> b.tried[k] == -1)
    ensures Consistent(h, b, {})
  {
    assert TriedIds(b.infos) == {} && NewIds(b.infos) == {};
  }
}
