/** Tables under new ids are as consistent as the old ones. */
module AddrReloaded {
  import opened AddrBook
  import opened AddrMoves
  import opened AddrMan
  import opened AddrSaved
  import Counting

  /** The entry of b with id k is the one of a with this id. */
  lemma {:induction false} Origin(h: Hashes, a: Book, b: Book, k: int)
    requires Consistent(h, a, {}) && Renamed(a, b) && k in b.infos
    ensures 0 <= k < |Chosen(a.infos, a.idCount, false)| + |Chosen(a.infos, a.idCount, true)|
    ensures OldId(a, k) in a.infos && NewId(a, OldId(a, k)) == k && b.infos[k] == Reborn(a.infos[OldId(a, k)], k)
    ensures a.infos[OldId(a, k)].inTried <==> k >= a.nNew
  {
    ChosenAll(h, a);
    hide Consistent, Chosen, SameSlots, OldId, NewId;
    assert Numbered(a.infos, a.idCount) by { Basics(h, a); }
    IdsMatch(a, k);
  }

  lemma {:induction false} NewIdsDiffer(h: Hashes, a: Book, x: int, y: int)
    requires Consistent(h, a, {}) && x in a.infos && y in a.infos && x >= 0 && y >= 0 && NewId(a, x) == NewId(a, y)
    ensures x == y
  {
    hide Consistent, Chosen;
    assert Numbered(a.infos, a.idCount) by { Basics(h, a); }
    IdsMatchBack(a, x);
    IdsMatchBack(a, y);
  }

  lemma {:induction false} UpToAt(n: nat, i: nat)
    requires i < n
    ensures |UpTo(n)| == n && UpTo(n)[i] == i
  {
    UpToSize(n);
    if i < n - 1 {
      UpToAt(n - 1, i);
    } else {
      UpToSize(n - 1);
    }
  }

  lemma {:induction false} HomeAgain(h: Hashes, a: Book, b: Book, k: int)
    requires Consistent(h, a, {}) && Renamed(a, b) && k in b.infos
    ensures AtHome(b.infos[k], k, b.addrs, b.random)
  {
    hide NewPlaced, TriedPlaced, Counted, Sized, SameSlots, Chosen, NewId, OldId, UpTo;
    Origin(h, a, b, k);
    var id := OldId(a, k);
    assert AtHome(a.infos[id], id, a.addrs, a.random);
    UpToAt(a.nNew + a.nTried, k);
  }

  lemma {:induction false} AddressAgain(h: Hashes, a: Book, b: Book, n: Net)
    requires Consistent(h, a, {}) && Renamed(a, b) && n in b.addrs
    ensures b.addrs[n] in b.infos && b.infos[b.addrs[n]].service.net == n
  {
    hide NewPlaced, TriedPlaced, Counted, Sized, SameSlots, Chosen, NewId, UpTo;
    var id := a.addrs[n];
    assert NewId(a, id) in b.infos;
  }

  lemma {:induction false} PlaceAgain(h: Hashes, a: Book, b: Book, i: int)
    requires Consistent(h, a, {}) && Renamed(a, b) && 0 <= i < |b.random|
    ensures b.random[i] in b.infos && b.infos[b.random[i]].randomPos == i
  {
    hide Consistent, SameSlots, Chosen, NewId, OldId, UpTo;
    assert a.nNew + a.nTried >= 0 by { ChosenAll(h, a); }
    UpToSize(a.nNew + a.nTried);
    UpToAt(a.nNew + a.nTried, i);
    Origin(h, a, b, i);
  }

  lemma {:induction false} ReloadedIndexed(h: Hashes, a: Book, b: Book)
    requires Consistent(h, a, {}) && Renamed(a, b)
    ensures Indexed(b.infos, b.addrs, b.random)
  {
    hide Consistent, Renamed;
    forall k | k in b.infos
      ensures AtHome(b.infos[k], k, b.addrs, b.random)
    {
      HomeAgain(h, a, b, k);
    }
    forall n | n in b.addrs
      ensures b.addrs[n] in b.infos && b.infos[b.addrs[n]].service.net == n
    {
      AddressAgain(h, a, b, n);
    }
    forall i | 0 <= i < |b.random|
      ensures b.random[i] in b.infos && b.infos[b.random[i]].randomPos == i
    {
      PlaceAgain(h, a, b, i);
    }
  }

  lemma {:induction false} ReloadedNews(h: Hashes, a: Book, b: Book)
    requires Consistent(h, a, {}) && Renamed(a, b)
    ensures NewPlaced(h, b.infos, b.news)
  {
    hide Indexed, TriedPlaced, Counted, Sized, Chosen, NewId, OldId, NewSlot;
    forall k | 0 <= k < |b.news| && b.news[k] != -1
      ensures b.news[k] in b.infos && k == NewSlot(h, b.infos[b.news[k]].service, k / BUCKET_SIZE)
    {
      assert a.news[k] in a.infos && b.news[k] == NewId(a, a.news[k]);
    }
  }

  lemma {:induction false} ReloadedTried(h: Hashes, a: Book, b: Book)
    requires Consistent(h, a, {}) && Renamed(a, b)
    ensures TriedPlaced(h, b.infos, b.tried)
  {
    hide Indexed, NewPlaced, Counted, Sized, Chosen, NewId, OldId, TriedSlot;
    forall k | 0 <= k < |b.tried| && b.tried[k] != -1
      ensures b.tried[k] in b.infos && b.infos[b.tried[k]].inTried && k == TriedSlot(h, b.infos[b.tried[k]].service)
    {
      assert a.tried[k] in a.infos && b.tried[k] == NewId(a, a.tried[k]);
    }
    forall k | k in b.infos && b.infos[k].inTried
      ensures InSlot(h, b.infos[k], k, b.tried)
    {
      Origin(h, a, b, k);
      var id := OldId(a, k);
      assert InSlot(h, a.infos[id], id, a.tried);
      assert -1 !in a.infos;
    }
  }

  /** Renaming changes no count. */
  lemma {:induction false} RenamedCount(h: Hashes, a: Book, x: seq<int>, y: seq<int>, id: int)
    requires Consistent(h, a, {}) && SameSlots(a, x, y) && id in a.infos
    ensures multiset(y)[NewId(a, id)] == multiset(x)[id]
    decreases |x|
  {
    hide Consistent, NewId, Chosen;
    assert Numbered(a.infos, a.idCount) && id >= 0 by { Basics(h, a); }
    if x != [] {
      var n := |x| - 1;
      assert x == x[..n] + [x[n]] && y == y[..n] + [y[n]];
      assert SameSlots(a, x[..n], y[..n]);
      RenamedCount(h, a, x[..n], y[..n], id);
      assert x[n] == id <==> y[n] == NewId(a, id) by {
        IdsMatchBack(a, id);
        if x[n] != -1 && y[n] == NewId(a, id) {
          NewIdsDiffer(h, a, x[n], id);
        }
      }
    }
  }

  lemma {:induction false} ReloadedCounted(h: Hashes, a: Book, b: Book)
    requires Consistent(h, a, {}) && Renamed(a, b)
    ensures Counted(b.infos, b.news, {})
  {
    hide Indexed, NewPlaced, TriedPlaced, Sized, Chosen, NewId, OldId, SameSlots;
    forall k | k in b.infos
      ensures RefsOk(b.infos[k], multiset(b.news)[k], k in {})
    {
      Origin(h, a, b, k);
      var id := OldId(a, k);
      RenamedCount(h, a, a.news, b.news, id);
      assert RefsOk(a.infos[id], multiset(a.news)[id], id in {});
    }
  }

  lemma {:induction false} RenamedKeys(a: Book, b: Book)
    requires Numbered(a.infos, a.idCount) && a.idCount >= 0 && Renamed(a, b)
    ensures forall k :: k in b.infos <==> 0 <= k < a.nNew + a.nTried
  {
    hide NewId, SameSlots;
  }

  lemma {:induction false} ReloadedSets(h: Hashes, a: Book, b: Book)
    requires Consistent(h, a, {}) && Renamed(a, b)
    ensures a.nNew >= 0 && a.nTried >= 0
    ensures NewIds(b.infos) == Counting.Below(a.nNew)
    ensures TriedIds(b.infos) == Counting.Below(a.nNew + a.nTried) - Counting.Below(a.nNew)
  {
    hide Consistent, Chosen, NewId, OldId, Renamed;
    ChosenAll(h, a);
    Basics(h, a);
    RenamedKeys(a, b);
    forall k
      ensures k in NewIds(b.infos) <==> k in Counting.Below(a.nNew)
      ensures k in TriedIds(b.infos) <==> k in Counting.Below(a.nNew + a.nTried) - Counting.Below(a.nNew)
    {
      if k in b.infos {
        Origin(h, a, b, k);
      }
    }
  }

  lemma {:induction false} ReloadedSized(h: Hashes, a: Book, b: Book)
    requires Consistent(h, a, {}) && Renamed(a, b)
    ensures Sized(b, {})
  {
    hide Consistent, Counting.Below, NewIds, TriedIds, UpTo, Renamed, Numbered;
    assert Numbered(a.infos, a.idCount) && a.idCount >= 0 by { Basics(h, a); }
    ReloadedSets(h, a, b);
    RenamedCounters(a, b);
    UpToSize(a.nNew + a.nTried);
    BelowRest(a.nNew, a.nTried);
    assert NewIds(b.infos) - {} == NewIds(b.infos);
  }

  lemma {:induction false} RenamedCounters(a: Book, b: Book)
    requires Numbered(a.infos, a.idCount) && a.idCount >= 0 && Renamed(a, b)
    ensures b.nNew == a.nNew && b.nTried == a.nTried && b.random == UpTo(a.nNew + a.nTried)
  {
  }

  lemma {:induction false} BelowRest(n: nat, t: nat)
    ensures |Counting.Below(n + t) - Counting.Below(n)| == t
  {
    hide Counting.Below;
    assert Counting.Below(n) <= Counting.Below(n + t);
  }

  /** The reloaded tables pass every check the old ones passed. */
  lemma {:induction false} ReloadedConsistent(h: Hashes, a: Book, b: Book)
    requires Consistent(h, a, {}) && Renamed(a, b)
    ensures Consistent(h, b, {})
  {
    assert Numbered(b.infos, b.idCount) && b.idCount >= 0;
    ReloadedIndexed(h, a, b);
    ReloadedNews(h, a, b);
    ReloadedTried(h, a, b);
    ReloadedCounted(h, a, b);
    ReloadedSized(h, a, b);
    hide Indexed, NewPlaced, TriedPlaced, Counted, Sized, Numbered, Renamed;
  }
}
