/** The median time of the last blocks, GetMedianTimePast of src/chain.cpp. */
module MedianTime {
  import opened BlockTree

  const MEDIAN_TIME_SPAN := 11

  /** The times of b and the blocks before it, n at most, oldest first. */
  ghost function Times(b: BlockIndex?, n: nat): (ts: seq<int>)
    requires b == null || Linked(b)
    ensures |ts| == if b == null then 0 else if n <= b.nHeight then n else b.nHeight + 1
    decreases n
  {
    if n == 0 || b == null then [] else Times(b.pprev, n - 1) + [b.nTime]
  }

  /** How many of the times are below m. */
  function Under(ts: seq<int>, m: int): nat {
    if ts == [] then 0 else Under(ts[..|ts| - 1], m) + if ts[|ts| - 1] < m then 1 else 0
  }

  /** m is half way up: at most half of the times are below it, and more than half are not above it. */
  ghost predicate IsMedian(ts: seq<int>, m: int) {
    Under(ts, m) <= |ts| / 2 < Under(ts, m + 1)
  }

  lemma {:induction false} UnderJoin(a: seq<int>, b: seq<int>, m: int)
    ensures Under(a + b, m) == Under(a, m) + Under(b, m)
  {
    if b == [] {
      assert a + b == a;
    } else {
      var n := |b| - 1;
      assert (a + b)[..|a + b| - 1] == a + b[..n];
      UnderJoin(a, b[..n], m);
    }
  }

  lemma {:induction false} UnderMore(ts: seq<int>, m: int, k: int)
    requires m <= k
    ensures Under(ts, m) <= Under(ts, k) <= |ts|
  {
    if ts != [] {
      UnderMore(ts[..|ts| - 1], m, k);
    }
  }

  lemma {:induction false} UnderNone(ts: seq<int>, m: int)
    requires forall i :: 0 <= i < |ts| ==> ts[i] >= m
    ensures Under(ts, m) == 0
  {
    if ts != [] {
      UnderNone(ts[..|ts| - 1], m);
    }
  }

  lemma {:induction false} UnderAll(ts: seq<int>, m: int)
    requires forall i :: 0 <= i < |ts| ==> ts[i] < m
    ensures Under(ts, m) == |ts|
  {
    if ts != [] {
      UnderAll(ts[..|ts| - 1], m);
    }
  }

  /** There is only one median, and it is one of the times. */
  lemma {:induction false} MedianUnique(ts: seq<int>, m: int, k: int)
    requires IsMedian(ts, m) && IsMedian(ts, k)
    ensures m == k && m in ts
  {
    if m < k {
      UnderMore(ts, m + 1, k);
    } else if k < m {
      UnderMore(ts, k + 1, m);
    }
    if m !in ts {
      NotThere(ts, m);
      assert false;
    }
  }

  lemma {:induction false} NotThere(ts: seq<int>, m: int)
    requires m !in ts
    ensures Under(ts, m) == Under(ts, m + 1)
  {
    if ts != [] {
      assert ts[|ts| - 1] != m;
      NotThere(ts[..|ts| - 1], m);
    }
  }

  // ---------------------------------------------------------------------- sorting

  ghost predicate Sorted(ts: seq<int>) {
    forall i, j :: 0 <= i < j < |ts| ==> ts[i] <= ts[j]
  }

  function Insert(ts: seq<int>, x: int): (r: seq<int>)
    ensures |r| == |ts| + 1
  {
    if ts == [] || ts[|ts| - 1] <= x then ts + [x] else Insert(ts[..|ts| - 1], x) + [ts[|ts| - 1]]
  }

  /** The times in ascending order, as std::sort leaves them. */
  function Ordered(ts: seq<int>): (r: seq<int>)
    ensures |r| == |ts|
  {
    if ts == [] then [] else Insert(Ordered(ts[..|ts| - 1]), ts[|ts| - 1])
  }

  lemma {:induction false} InsertSorted(ts: seq<int>, x: int)
    requires Sorted(ts)
    ensures Sorted(Insert(ts, x)) && forall i :: 0 <= i < |Insert(ts, x)| ==>
      Insert(ts, x)[i] == x || Insert(ts, x)[i] in ts
  {
    if ts != [] && ts[|ts| - 1] > x {
      InsertSorted(ts[..|ts| - 1], x);
    }
  }

  lemma {:induction false} InsertUnder(ts: seq<int>, x: int, m: int)
    ensures Under(Insert(ts, x), m) == Under(ts, m) + if x < m then 1 else 0
  {
    if ts == [] || ts[|ts| - 1] <= x {
      UnderJoin(ts, [x], m);
    } else {
      var last := ts[|ts| - 1];
      InsertUnder(ts[..|ts| - 1], x, m);
      UnderJoin(Insert(ts[..|ts| - 1], x), [last], m);
    }
  }

  /** The sorted times are sorted, and are the same times. */
  lemma {:induction false} OrderedSound(ts: seq<int>, m: int)
    ensures Sorted(Ordered(ts)) && Under(Ordered(ts), m) == Under(ts, m)
  {
    if ts != [] {
      var init := ts[..|ts| - 1];
      OrderedSound(init, m);
      InsertSorted(Ordered(init), ts[|ts| - 1]);
      InsertUnder(Ordered(init), ts[|ts| - 1], m);
    }
  }

  /** In sorted order the entry in the middle is the median. */
  lemma {:induction false} MiddleIsMedian(ts: seq<int>)
    requires Sorted(ts) && |ts| > 0
    ensures IsMedian(ts, ts[|ts| / 2])
  {
    hide Under;
    var k := |ts| / 2;
    var m := ts[k];
    assert ts == ts[..k] + ts[k..];
    assert ts == ts[..k + 1] + ts[k + 1..];
    UnderJoin(ts[..k], ts[k..], m);
    UnderJoin(ts[..k + 1], ts[k + 1..], m + 1);
    UnderNone(ts[k..], m);
    UnderAll(ts[..k + 1], m + 1);
    UnderMore(ts[..k], m, m);
  }

  // --------------------------------------------------------------------- the median

  lemma {:induction false} TimesUnfold(b: BlockIndex, n: nat)
    requires Linked(b) && n > 0
    ensures Times(b, n) == Times(b.pprev, n - 1) + [b.nTime]
  {
  }

  /** GetMedianTimePast: the median of the times of the last blocks, eleven or as many as there are. */
  method GetMedianTimePast(b: BlockIndex) returns (median: int)
    requires Linked(b)
    ensures IsMedian(Times(b, MEDIAN_TIME_SPAN), median)
  {
    hide Under, Ordered, Times;
    var pmedian := new int[MEDIAN_TIME_SPAN];
    var pbegin := MEDIAN_TIME_SPAN;
    var walk: BlockIndex? := b;
    var i := 0;
    while i < MEDIAN_TIME_SPAN && walk != null
      invariant 0 <= i <= MEDIAN_TIME_SPAN && pbegin == MEDIAN_TIME_SPAN - i
      invariant walk == null || Linked(walk)
      invariant Times(b, MEDIAN_TIME_SPAN) == Times(walk, pbegin) + pmedian[pbegin..]
    {
      pbegin := pbegin - 1;
      ghost var rest := pmedian[pbegin + 1..];
      pmedian[pbegin] := walk.nTime;
      TimesUnfold(walk, pbegin + 1);
      assert pmedian[pbegin..] == [walk.nTime] + rest;
      assert Times(walk.pprev, pbegin) + [walk.nTime] + rest == Times(walk.pprev, pbegin) + ([walk.nTime] + rest);
      i := i + 1;
      walk := walk.pprev;
    }
    var ts := pmedian[pbegin..];
    assert Times(walk, pbegin) == [];
    assert ts == Times(b, MEDIAN_TIME_SPAN);
    var sorted := Ordered(ts);
    median := sorted[|sorted| / 2];
    OrderedSound(ts, median);
    OrderedSound(ts, median + 1);
    MiddleIsMedian(sorted);
  }

  // ------------------------------------------------------------------ it never falls

  /** One block less looked at: the oldest time, if any, is dropped. */
  lemma {:induction false} TimesShift(b: BlockIndex, n: nat)
    requires Linked(b)
    ensures Times(b, n) == Times(b, n + 1) || (|Times(b, n + 1)| == n + 1 && Times(b, n) == Times(b, n + 1)[1..])
    decreases n
  {
    if n > 0 && b.pprev != null {
      TimesShift(b.pprev, n - 1);
    }
  }

  /** If m is a median and times from m on are added, at most the oldest time going, the new median
      is not below m. */
  lemma {:induction false} MedianStep(was: seq<int>, now: seq<int>, drop: nat, t: int, m: int, k: int)
    requires drop <= 1 && drop <= |was| && now == was[drop..] + [t] && t >= m && IsMedian(was, m) && IsMedian(now, k)
    ensures k >= m
  {
    hide Under;
    if k < m {
      UnderMore(now, k + 1, m);
      UnderJoin(was[drop..], [t], m);
      UnderNone([t], m);
      assert was == was[..drop] + was[drop..];
      UnderJoin(was[..drop], was[drop..], m);
    }
  }

  /** A block not older than its parent's median has a median not below its parent's. */
  lemma {:induction false} MedianGrows(b: BlockIndex, m: int, k: int)
    requires Linked(b) && b.pprev != null && IsMedian(Times(b.pprev, MEDIAN_TIME_SPAN), m)
    requires b.nTime >= m && IsMedian(Times(b, MEDIAN_TIME_SPAN), k)
    ensures k >= m
  {
    hide IsMedian;
    var was := Times(b.pprev, MEDIAN_TIME_SPAN);
    TimesShift(b.pprev, MEDIAN_TIME_SPAN - 1);
    var init := Times(b.pprev, MEDIAN_TIME_SPAN - 1);
    assert Times(b, MEDIAN_TIME_SPAN) == init + [b.nTime];
    if init == was {
      assert was[0..] == was;
      MedianStep(was, Times(b, MEDIAN_TIME_SPAN), 0, b.nTime, m, k);
    } else {
      MedianStep(was, Times(b, MEDIAN_TIME_SPAN), 1, b.nTime, m, k);
    }
  }

  /** Every block down from b is not older than its parent's median. */
  ghost predicate InTime(b: BlockIndex)
    requires Linked(b)
    decreases b.nHeight
  {
    b.pprev != null ==> InTime(b.pprev) && forall m :: IsMedian(Times(b.pprev, MEDIAN_TIME_SPAN), m) ==> b.nTime >= m
  }

  /** Then the median never falls along the chain. */
  lemma {:induction false} MedianNeverFalls(b: BlockIndex, h: nat, m: int, k: int)
    requires Linked(b) && InTime(b) && h <= b.nHeight
    requires IsMedian(Times(Ancestor(b, h), MEDIAN_TIME_SPAN), m) && IsMedian(Times(b, MEDIAN_TIME_SPAN), k)
    ensures k >= m
    decreases b.nHeight
  {
    if h == b.nHeight {
      MedianUnique(Times(b, MEDIAN_TIME_SPAN), m, k);
    } else {
      hide IsMedian, Times;
      var l := SomeMedian(b.pprev);
      MedianGrows(b, l, k);
      MedianNeverFalls(b.pprev, h, m, l);
    }
  }

  lemma {:induction false} SomeMedian(b: BlockIndex) returns (m: int)
    requires Linked(b)
    ensures IsMedian(Times(b, MEDIAN_TIME_SPAN), m)
  {
    hide Under, Ordered;
    var ts := Times(b, MEDIAN_TIME_SPAN);
    var sorted := Ordered(ts);
    m := sorted[|ts| / 2];
    OrderedSound(ts, m);
    OrderedSound(ts, m + 1);
    MiddleIsMedian(sorted);
  }
}
