/** The orphan transactions, src/orphan-tx.cpp. */
module OrphanPool {

  import CoinsLayer

  type TxId = CoinsLayer.TxId

  /** What the pool looks at in a transaction: its id, its size, the transactions it spends from. */
  datatype Tx = Tx(id: TxId, size: nat, prevs: seq<TxId>)

  datatype Orphan = Orphan(tx: Tx, peer: int)

  const MAX_ORPHAN_SIZE := 5_000

  /** The index lists under each parent exactly the stored orphans that spend from it, and no
      parent without any. */
  ghost predicate Exact(txs: map<TxId, Orphan>, byPrev: map<TxId, set<TxId>>) {
    (forall id :: id in txs ==> txs[id].tx.id == id) &&
    (forall p :: p in byPrev ==> byPrev[p] != {}) &&
    (forall p, id :: Lists(byPrev, p, id) <==> id in txs && p in txs[id].tx.prevs)
  }

  ghost predicate Lists(byPrev: map<TxId, set<TxId>>, p: TxId, id: TxId) {
    p in byPrev && id in byPrev[p]
  }

  /** The index while the first n parents of an orphan have been entered or removed. */
  ghost predicate Partly(txs: map<TxId, Orphan>, byPrev: map<TxId, set<TxId>>, o: Orphan, some: seq<TxId>) {
    (forall id :: id in txs ==> txs[id].tx.id == id) &&
    (forall p :: p in byPrev ==> byPrev[p] != {}) &&
    (forall p, id :: Lists(byPrev, p, id) <==> (id in txs && p in txs[id].tx.prevs) || (id == o.tx.id && p in some))
  }

  function With(byPrev: map<TxId, set<TxId>>, p: TxId, id: TxId): map<TxId, set<TxId>> {
    byPrev[p := (if p in byPrev then byPrev[p] else {}) + {id}]
  }

  function Without(byPrev: map<TxId, set<TxId>>, p: TxId, id: TxId): map<TxId, set<TxId>> {
    if p !in byPrev then byPrev
    else if byPrev[p] - {id} == {} then byPrev - {p}
    else byPrev[p := byPrev[p] - {id}]
  }

  lemma {:induction false} WithLists(byPrev: map<TxId, set<TxId>>, p: TxId, id: TxId)
    ensures forall q, j :: Lists(With(byPrev, p, id), q, j) <==> Lists(byPrev, q, j) || (q == p && j == id)
    ensures (forall q :: q in byPrev ==> byPrev[q] != {}) ==> forall q :: q in With(byPrev, p, id) ==>
      With(byPrev, p, id)[q] != {}
  {
    var after := With(byPrev, p, id);
    assert id in after[p];
  }

  lemma {:induction false} WithoutLists(byPrev: map<TxId, set<TxId>>, p: TxId, id: TxId)
    ensures forall q, j :: Lists(Without(byPrev, p, id), q, j) <==> Lists(byPrev, q, j) && !(q == p && j == id)
    ensures (forall q :: q in byPrev ==> byPrev[q] != {}) ==> forall q :: q in Without(byPrev, p, id) ==>
      Without(byPrev, p, id)[q] != {}
  {
    if p in byPrev {
      assert forall j :: j in byPrev[p] ==> j in byPrev[p] - {id} || j == id;
    }
  }

  /** COrphanTxManager */
  class OrphanTxManager {
    var txs: map<TxId, Orphan>
    var byPrev: map<TxId, set<TxId>>

    ghost predicate Valid()
      reads this
    {
      Exact(txs, byPrev)
    }

    constructor ()
      ensures Valid() && txs == map[]
    {
      txs, byPrev := map[], map[];
    }

    /** AddOrphanTx */
    method AddOrphanTx(tx: Tx, peer: int) returns (added: bool)
      requires Valid()
      modifies this
      ensures Valid() && added == (tx.id !in old(txs) && tx.size <= MAX_ORPHAN_SIZE)
      ensures txs == if added then old(txs)[tx.id := Orphan(tx, peer)] else old(txs)
    {
      if tx.id in txs {
        return false;
      }
      if tx.size > MAX_ORPHAN_SIZE {
        return false;
      }
      ghost var before := txs;
      var o := Orphan(tx, peer);
      PartlyNone(txs, byPrev, o);
      txs := txs[tx.id := o];
      hide With, Exact, Partly;
      for i := 0 to |tx.prevs|
        invariant txs == before[tx.id := o] && Partly(before, byPrev, o, tx.prevs[..i])
      {
        WithStep(before, byPrev, o, tx.prevs[..i], tx.prevs[i]);
        assert tx.prevs[..i + 1] == tx.prevs[..i] + [tx.prevs[i]];
        byPrev := With(byPrev, tx.prevs[i], tx.id);
      }
      assert tx.prevs[..|tx.prevs|] == tx.prevs;
      PartlyAll(before, byPrev, o);
      added := true;
    }

    /** EraseOrphanTx */
    method EraseOrphanTx(id: TxId)
      requires Valid()
      modifies this
      ensures Valid() && txs == old(txs) - {id}
    {
      if id !in txs {
        return;
      }
      var o := txs[id];
      ghost var rest := txs - {id};
      PartlySplit(txs, byPrev, id);
      hide Without, Exact, Partly;
      var i := 0;
      assert o.tx.prevs[0..] == o.tx.prevs;
      while i < |o.tx.prevs|
        invariant 0 <= i <= |o.tx.prevs| && txs == old(txs) && PartlyGone(rest, byPrev, o, o.tx.prevs, o.tx.prevs[..i])
      {
        GoneStep(rest, byPrev, o, o.tx.prevs[..i], o.tx.prevs[i]);
        assert o.tx.prevs[..i + 1] == o.tx.prevs[..i] + [o.tx.prevs[i]];
        byPrev := Without(byPrev, o.tx.prevs[i], id);
        i := i + 1;
      }
      assert o.tx.prevs[..|o.tx.prevs|] == o.tx.prevs;
      GoneAll(rest, byPrev, o);
      txs := txs - {id};
    }

    /** EraseOrphansFor */
    method EraseOrphansFor(peer: int)
      requires Valid()
      modifies this
      ensures Valid() && txs == map id | id in old(txs) && old(txs)[id].peer != peer :: old(txs)[id]
    {
      hide Exact, Purged;
      var todo := txs.Keys;
      PurgedNone(txs, peer);
      while todo != {}
        invariant Valid() && todo <= old(txs).Keys && txs == Purged(old(txs), peer, todo)
        decreases |todo|
      {
        var id :| id in todo;
        PurgedNext(old(txs), peer, todo, id);
        todo := todo - {id};
        if txs[id].peer == peer {
          EraseOrphanTx(id);
        }
      }
      PurgedAll(old(txs), peer);
    }

    /** LimitOrphanTxSize: the pool is cut to the limit, and no further; orphans drawn go first. */
    method LimitOrphanTxSize(max: nat, rand: nat -> TxId) returns (evicted: nat)
      requires Valid()
      modifies this
      ensures Valid() && txs.Keys <= old(txs).Keys && (forall id :: id in txs ==> txs[id] == old(txs)[id])
      ensures evicted == if |old(txs)| > max then |old(txs)| - max else 0
      ensures |txs| == |old(txs)| - evicted && forall i: nat :: i < evicted ==> rand(i) !in txs
    {
      hide Exact;
      evicted := 0;
      while |txs| > max
        invariant Valid() && txs.Keys <= old(txs).Keys && forall id :: id in txs ==> txs[id] == old(txs)[id]
        invariant |txs| == |old(txs)| - evicted && (|txs| >= max || evicted == 0)
        invariant forall i: nat :: i < evicted ==> rand(i) !in txs
        decreases |txs|
      {
        var id := rand(evicted);
        if id !in txs {
          id :| id in txs;
        }
        ghost var n := |txs|;
        ghost var keys := txs.Keys;
        EraseOrphanTx(id);
        assert txs.Keys == keys - {id};
        evicted := evicted + 1;
      }
    }

    /** ProcessOrphanTxs. Admission to the memory pool depends on the transaction and on what has
        been accepted so far, starting with txid; it accepts no transaction twice. The log lists
        the attempts made. */
    method ProcessOrphanTxs(txid: TxId, admit: (set<TxId>, Tx) -> Outcome)
      returns (accepted: set<TxId>, misbehaving: set<int>, ghost log: seq<Attempt>)
      requires Valid() && Once(admit)
      modifies this
      ensures Valid()
      ensures accepted == AcceptedBy(log, txid) && misbehaving == PunishedBy(log, old(txs))
      ensures txs == map id | id in old(txs) && !Settled(log, id) :: old(txs)[id]
      ensures Ran(log, old(txs), admit, txid)
    {
      hide Exact, Once, Honest, AcceptedBy, PunishedBy, Settled, Retried, Queued, Covered, Waiting;
      var eraseQueue: seq<TxId> := [];
      accepted, misbehaving, log := {txid}, {}, [];
      var queue := [txid];
      ghost var pool := txs;
      ghost var done: set<TxId> := {};
      LogStart(pool, admit, txid);
      while queue != []
        invariant txs == pool && byPrev == old(byPrev) && Exact(pool, byPrev)
        invariant Honest(log, pool, admit, txid) && accepted == AcceptedBy(log, txid) && Queued(log, eraseQueue)
        invariant Covered(log, pool, done, misbehaving) && Waiting(queue, done, accepted) &&
          misbehaving == PunishedBy(log, pool)
        decreases |queue| + |pool.Keys - accepted|
      {
        var prev := queue[0];
        assert queue == [prev] + queue[1..];
        queue := queue[1..];
        Popped(queue, done, accepted, prev);
        if prev in byPrev {
          ghost var log0, mis0 := log, misbehaving;
          queue, eraseQueue, accepted, misbehaving, log :=
            TryChildren(prev, byPrev[prev], txid, admit, queue, eraseQueue, accepted, misbehaving, log, done + {prev});
          CoveredMore(pool, byPrev, log0, log, done, mis0, misbehaving, prev);
        } else {
          NoChildren(pool, byPrev, prev, log, done, misbehaving);
        }
        done := done + {prev};
      }
      EraseAll(eraseQueue, log);
      Finished(log, pool, done, accepted, misbehaving);
    }

    /** The orphans spending from one parent are tried, unless their peer has misbehaved. */
    method TryChildren(prev: TxId, children: set<TxId>, txid: TxId, admit: (set<TxId>, Tx) -> Outcome,
            queue0: seq<TxId>, erase0: seq<TxId>, accepted0: set<TxId>, mis0: set<int>, ghost log0: seq<Attempt>,
            ghost done: set<TxId>)
      returns (queue: seq<TxId>, eraseQueue: seq<TxId>, accepted: set<TxId>, misbehaving: set<int>,
        ghost log: seq<Attempt>)
      requires Exact(txs, byPrev) && Once(admit) && prev in accepted0 && prev in byPrev && children == byPrev[prev]
      requires Honest(log0, txs, admit, txid) && accepted0 == AcceptedBy(log0, txid) && Queued(log0, erase0)
      requires Waiting(queue0, done, accepted0) && mis0 == PunishedBy(log0, txs)
      ensures Honest(log, txs, admit, txid) && accepted == AcceptedBy(log, txid) && Queued(log, eraseQueue)
      ensures Waiting(queue, done, accepted) && log0 <= log && mis0 <= misbehaving == PunishedBy(log, txs)
      ensures |queue| + |txs.Keys - accepted| == |queue0| + |txs.Keys - accepted0|
      ensures forall id :: id in children && id in txs ==> txs[id].peer in misbehaving || Retried(log, id, prev)
    {
      hide Exact, Once, Honest, AcceptedBy, PunishedBy, Settled, Retried, Queued, Waiting;
      queue, eraseQueue, accepted, misbehaving, log := queue0, erase0, accepted0, mis0, log0;
      var todo := children;
      while todo != {}
        invariant todo <= children && accepted0 <= accepted
        invariant Honest(log, txs, admit, txid) && accepted == AcceptedBy(log, txid) && Queued(log, eraseQueue)
        invariant Waiting(queue, done, accepted) && log0 <= log && mis0 <= misbehaving == PunishedBy(log, txs)
        invariant |queue| + |txs.Keys - accepted| == |queue0| + |txs.Keys - accepted0|
        invariant forall id :: id in children - todo && id in txs ==>
          txs[id].peer in misbehaving || Retried(log, id, prev)
        decreases |todo|
      {
        var id :| id in todo;
        todo := todo - {id};
        if id !in txs {
          continue;
        }
        var o := txs[id];
        if o.peer in misbehaving {
          continue;
        }
        var outcome := admit(accepted, o.tx);
        ghost var before := log;
        Logged(log, txs, byPrev, admit, txid, prev, id, outcome, eraseQueue);
        log := log + [Attempt(id, accepted, outcome)];
        RetriedMore(before, log, prev);
        if outcome == Accepted {
          Enqueued(queue, done, accepted, id, txs.Keys);
          accepted := accepted + {id};
          queue := queue + [id];
          eraseQueue := eraseQueue + [id];
        } else if outcome != Missing {
          if outcome.dos > 0 {
            misbehaving := misbehaving + {o.peer};
          }
          eraseQueue := eraseQueue + [id];
        }
      }
    }

    /** The final loop. */
    method EraseAll(eraseQueue: seq<TxId>, ghost log: seq<Attempt>)
      requires Valid() && Queued(log, eraseQueue)
      modifies this
      ensures Valid() && txs == map id | id in old(txs) && !Settled(log, id) :: old(txs)[id]
    {
      hide Exact, Settled;
      for i := 0 to |eraseQueue|
        invariant Valid() && txs == map id | id in old(txs) && id !in eraseQueue[..i] :: old(txs)[id]
      {
        EraseOrphanTx(eraseQueue[i]);
        assert eraseQueue[..i + 1] == eraseQueue[..i] + [eraseQueue[i]];
      }
      assert eraseQueue[..|eraseQueue|] == eraseQueue;
    }
  }

  /** The orphans without those of a peer, except for the ones still to be looked at. */
  ghost function Purged(txs: map<TxId, Orphan>, peer: int, todo: set<TxId>): map<TxId, Orphan> {
    map id | id in txs && (id in todo || txs[id].peer != peer) :: txs[id]
  }

  lemma {:induction false} PurgedNone(txs: map<TxId, Orphan>, peer: int)
    ensures Purged(txs, peer, txs.Keys) == txs
  {
  }

  lemma {:induction false} PurgedNext(txs: map<TxId, Orphan>, peer: int, todo: set<TxId>, id: TxId)
    requires id in todo && id in txs
    ensures id in Purged(txs, peer, todo) && Purged(txs, peer, todo)[id] == txs[id]
    ensures Purged(txs, peer, todo - {id}) == if txs[id].peer == peer
      then Purged(txs, peer, todo) - {id} else Purged(txs, peer, todo)
  {
  }

  lemma {:induction false} PurgedAll(txs: map<TxId, Orphan>, peer: int)
    ensures Purged(txs, peer, {}) == map id | id in txs && txs[id].peer != peer :: txs[id]
  {
  }

  /** What admission to the memory pool says: accepted, inputs missing, or refused with this score. */
  datatype Outcome = Accepted | Missing | Refused(dos: nat)

  /** An attempt to admit an orphan when these had been accepted. */
  datatype Attempt = Attempt(orphan: TxId, before: set<TxId>, outcome: Outcome)

  ghost predicate Once(admit: (set<TxId>, Tx) -> Outcome) {
    forall s: set<TxId>, tx: Tx :: tx.id in s ==> admit(s, tx) != Accepted
  }

  /** What is accepted after the attempts of the log. */
  ghost function AcceptedBy(log: seq<Attempt>, txid: TxId): set<TxId> {
    if log == [] then {txid}
    else
      var last := log[|log| - 1];
      AcceptedBy(log[..|log| - 1], txid) + if last.outcome == Accepted then {last.orphan} else {}
  }

  /** The peers punished in the attempts of the log. */
  ghost function PunishedBy(log: seq<Attempt>, pool: map<TxId, Orphan>): set<int> {
    if log == [] then {}
    else
      var last := log[|log| - 1];
      PunishedBy(log[..|log| - 1], pool) +
      if last.orphan in pool && last.outcome.Refused? && last.outcome.dos > 0 then {pool[last.orphan].peer} else {}
  }

  /** The log tells the truth: each attempt is on a stored orphan, spending from what the attempts
      before have led to and not sent by a peer they punished, with the outcome admission gives. */
  ghost predicate Honest(log: seq<Attempt>, pool: map<TxId, Orphan>, admit: (set<TxId>, Tx) -> Outcome, txid: TxId) {
    log == [] ||
    (var last := log[|log| - 1];
     last.orphan in pool && last.before == AcceptedBy(log[..|log| - 1], txid) &&
     last.outcome == admit(last.before, pool[last.orphan].tx) &&
     pool[last.orphan].peer !in PunishedBy(log[..|log| - 1], pool) &&
     (exists p :: p in pool[last.orphan].tx.prevs && p in last.before) &&
     Honest(log[..|log| - 1], pool, admit, txid))
  }

  /** An attempt accepted or refused the orphan for good. */
  ghost predicate Settled(log: seq<Attempt>, id: TxId) {
    exists a: Attempt :: a in log && a.orphan == id && a.outcome != Missing
  }

  /** The orphan was tried after p had been accepted. */
  ghost predicate Retried(log: seq<Attempt>, id: TxId, p: TxId) {
    exists a: Attempt :: a in log && a.orphan == id && p in a.before
  }

  /** The erase queue holds the settled orphans. */
  ghost predicate Queued(log: seq<Attempt>, eraseQueue: seq<TxId>) {
    forall id :: id in eraseQueue <==> Settled(log, id)
  }

  /** Every orphan spending from a finished parent was retried after it, or its peer misbehaved. */
  ghost predicate Covered(log: seq<Attempt>, pool: map<TxId, Orphan>, done: set<TxId>, misbehaving: set<int>) {
    forall id, p :: id in pool && p in done && p in pool[id].tx.prevs ==>
      pool[id].peer in misbehaving || Retried(log, id, p)
  }

  /** What is accepted is finished or waits in the queue. */
  ghost predicate Waiting(queue: seq<TxId>, done: set<TxId>, accepted: set<TxId>) {
    accepted == done + set p | p in queue
  }

  lemma {:induction false} LogStart(pool: map<TxId, Orphan>, admit: (set<TxId>, Tx) -> Outcome, txid: TxId)
    ensures Honest([], pool, admit, txid) && AcceptedBy([], txid) == {txid} && Queued([], [])
    ensures Covered([], pool, {}, {}) && Waiting([txid], {}, {txid}) && PunishedBy([], pool) == {}
  {
  }

  lemma {:induction false} Popped(queue: seq<TxId>, done: set<TxId>, accepted: set<TxId>, prev: TxId)
    requires Waiting([prev] + queue, done, accepted)
    ensures Waiting(queue, done + {prev}, accepted) && prev in accepted
  {
    assert (set p | p in [prev] + queue) == {prev} + set p | p in queue;
  }

  lemma {:induction false} Enqueued(queue: seq<TxId>, done: set<TxId>, accepted: set<TxId>, id: TxId, keys: set<TxId>)
    requires Waiting(queue, done, accepted) && id in keys && id !in accepted
    ensures Waiting(queue + [id], done, accepted + {id})
    ensures |keys - (accepted + {id})| == |keys - accepted| - 1
  {
    assert (set p | p in queue + [id]) == (set p | p in queue) + {id};
    assert keys - (accepted + {id}) == (keys - accepted) - {id};
  }

  lemma {:induction false} Logged(log: seq<Attempt>, pool: map<TxId, Orphan>, byPrev: map<TxId, set<TxId>>,
          admit: (set<TxId>, Tx) -> Outcome, txid: TxId, prev: TxId, id: TxId, outcome: Outcome,
          eraseQueue: seq<TxId>)
    requires Exact(pool, byPrev) && Once(admit) && Honest(log, pool, admit, txid) && Queued(log, eraseQueue)
    requires id in pool && outcome == admit(AcceptedBy(log, txid), pool[id].tx) &&
      pool[id].peer !in PunishedBy(log, pool)
    requires prev in byPrev && id in byPrev[prev] && prev in AcceptedBy(log, txid)
    ensures var after := log + [Attempt(id, AcceptedBy(log, txid), outcome)];
            Honest(after, pool, admit, txid) &&
            AcceptedBy(after, txid) == AcceptedBy(log, txid) + (if outcome == Accepted then {id} else {}) &&
            PunishedBy(after, pool) ==
              PunishedBy(log, pool) + (if outcome.Refused? && outcome.dos > 0 then {pool[id].peer} else {}) &&
            Queued(after, if outcome == Missing then eraseQueue else eraseQueue + [id]) &&
            Retries(after, id, AcceptedBy(log, txid))
    ensures outcome == Accepted ==> id !in AcceptedBy(log, txid)
  {
    hide Exact, Once, Honest, AcceptedBy, PunishedBy, Settled, Queued, Retries;
    var a := Attempt(id, AcceptedBy(log, txid), outcome);
    Spends(pool, byPrev, prev, id);
    LogNext(log, a, pool, admit, txid, prev);
    SettledMore(log, a, eraseQueue);
    RetriesNow(log, a);
    if outcome == Accepted {
      AcceptsOnce(admit, AcceptedBy(log, txid), pool[id].tx, outcome);
    }
  }

  lemma {:induction false} AcceptsOnce(admit: (set<TxId>, Tx) -> Outcome, s: set<TxId>, tx: Tx, outcome: Outcome)
    requires Once(admit) && outcome == admit(s, tx) == Accepted
    ensures tx.id !in s
  {
  }

  lemma {:induction false} Spends(pool: map<TxId, Orphan>, byPrev: map<TxId, set<TxId>>, prev: TxId, id: TxId)
    requires Exact(pool, byPrev) && prev in byPrev && id in byPrev[prev] && id in pool
    ensures prev in pool[id].tx.prevs && pool[id].tx.id == id
  {
    assert Lists(byPrev, prev, id);
  }

  lemma {:induction false} LogNext(log: seq<Attempt>, a: Attempt, pool: map<TxId, Orphan>, admit: (set<TxId>,
          Tx) -> Outcome, txid: TxId, prev: TxId)
    requires Honest(log, pool, admit, txid) && a.orphan in pool && a.before == AcceptedBy(log, txid)
    requires a.outcome == admit(a.before, pool[a.orphan].tx) && pool[a.orphan].peer !in PunishedBy(log, pool)
    requires prev in pool[a.orphan].tx.prevs && prev in a.before
    ensures Honest(log + [a], pool, admit, txid)
    ensures AcceptedBy(log + [a], txid) == a.before + if a.outcome == Accepted then {a.orphan} else {}
    ensures PunishedBy(log + [a], pool) ==
            PunishedBy(log, pool) + if a.outcome.Refused? && a.outcome.dos > 0 then {pool[a.orphan].peer} else {}
  {
    assert (log + [a])[..|log|] == log;
  }

  lemma {:induction false} RetriesNow(log: seq<Attempt>, a: Attempt)
    ensures Retries(log + [a], a.orphan, a.before)
  {
    assert a in log + [a];
  }

  lemma {:induction false} SettledMore(log: seq<Attempt>, a: Attempt, eraseQueue: seq<TxId>)
    requires Queued(log, eraseQueue)
    ensures Queued(log + [a], if a.outcome == Missing then eraseQueue else eraseQueue + [a.orphan])
  {
    var after := log + [a];
    assert a in after;
    forall j
      ensures Settled(after, j) <==> Settled(log, j) || (j == a.orphan && a.outcome != Missing)
    {
      if Settled(log, j) {
        var b: Attempt :| b in log && b.orphan == j && b.outcome != Missing;
        assert b in after;
      }
    }
    hide Settled;
    assert forall j :: j in eraseQueue + [a.orphan] <==> j in eraseQueue || j == a.orphan;
  }

  /** The orphan was tried after each of these had been accepted. */
  ghost predicate Retries(log: seq<Attempt>, id: TxId, ps: set<TxId>) {
    forall p :: p in ps ==> Retried(log, id, p)
  }

  lemma {:induction false} RetriedMore(log: seq<Attempt>, more: seq<Attempt>, p: TxId)
    requires log <= more
    ensures forall id :: Retried(log, id, p) ==> Retried(more, id, p)
  {
    forall id | Retried(log, id, p)
      ensures Retried(more, id, p)
    {
      var a: Attempt :| a in log && a.orphan == id && p in a.before;
      assert a in more;
    }
  }

  lemma {:induction false} CoveredMore(pool: map<TxId, Orphan>, byPrev: map<TxId, set<TxId>>, log: seq<Attempt>,
          more: seq<Attempt>, done: set<TxId>, mis: set<int>, mis1: set<int>, prev: TxId)
    requires Exact(pool, byPrev) && Covered(log, pool, done, mis) && log <= more && mis <= mis1 && prev in byPrev
    requires forall id :: id in byPrev[prev] && id in pool ==> pool[id].peer in mis1 || Retried(more, id, prev)
    ensures Covered(more, pool, done + {prev}, mis1)
  {
    forall id, p | id in pool && p in done + {prev} && p in pool[id].tx.prevs
      ensures pool[id].peer in mis1 || Retried(more, id, p)
    {
      if p == prev {
        assert Lists(byPrev, prev, id);
      } else {
        RetriedMore(log, more, p);
      }
    }
  }

  lemma {:induction false} NoChildren(pool: map<TxId, Orphan>, byPrev: map<TxId, set<TxId>>, prev: TxId,
          log: seq<Attempt>, done: set<TxId>, mis: set<int>)
    requires Exact(pool, byPrev) && Covered(log, pool, done, mis) && prev !in byPrev
    ensures Covered(log, pool, done + {prev}, mis)
  {
    hide Retried;
    forall id | id in pool
      ensures prev !in pool[id].tx.prevs
    {
      assert !Lists(byPrev, prev, id);
    }
  }

  lemma {:induction false} Finished(log: seq<Attempt>, pool: map<TxId, Orphan>, done: set<TxId>, accepted: set<TxId>,
          mis: set<int>)
    requires Covered(log, pool, done, mis) && Waiting([], done, accepted)
    ensures forall id, p :: id in pool && p in pool[id].tx.prevs && p in accepted ==>
      pool[id].peer in mis || Retried(log, id, p)
  {
    hide Retried;
    assert done == accepted;
  }

  // ------------------------------------------------------------------- nothing is missed

  /** Admission reports something missing only if the transaction needs something that is neither
      known nor accepted. What it needs are the transactions it spends from and, for a ticket, the
      tickets it depends on. It may refuse a transaction without looking at them. */
  ghost predicate Reports(admit: (set<TxId>, Tx) -> Outcome, needs: Tx -> set<TxId>, known: set<TxId>) {
    forall s: set<TxId>, tx: Tx :: admit(s, tx) == Missing ==> exists p :: p in needs(tx) && p !in known && p !in s
  }

  /** What ProcessOrphanTxs promises of its log. */
  ghost predicate Ran(log: seq<Attempt>, pool: map<TxId, Orphan>, admit: (set<TxId>, Tx) -> Outcome, txid: TxId) {
    Honest(log, pool, admit, txid) &&
    forall id, p :: id in pool && p in pool[id].tx.prevs && p in AcceptedBy(log, txid) ==>
      pool[id].peer in PunishedBy(log, pool) || Retried(log, id, p)
  }

  /** The orphan had been waiting for something; in the end everything it needs is there, but it has
      been neither accepted nor refused. */
  ghost predicate LeftBehind(log: seq<Attempt>, pool: map<TxId, Orphan>, needs: Tx -> set<TxId>, known: set<TxId>,
          txid: TxId, id: TxId)
  {
    id in pool && pool[id].peer !in PunishedBy(log, pool) && !Settled(log, id) &&
    !(needs(pool[id].tx) <= known) && needs(pool[id].tx) <= known + AcceptedBy(log, txid)
  }

  ghost function Prevs(tx: Tx): set<TxId> {
    set p | p in tx.prevs
  }

  lemma {:induction false} AcceptedGrows(log: seq<Attempt>, txid: TxId, i: nat)
    requires i <= |log|
    ensures AcceptedBy(log[..i], txid) <= AcceptedBy(log, txid)
  {
    if i == |log| {
      assert log[..i] == log;
    } else {
      AcceptedGrows(log[..|log| - 1], txid, i);
      assert log[..|log| - 1][..i] == log[..i];
    }
  }

  lemma {:induction false} HonestAt(log: seq<Attempt>, pool: map<TxId, Orphan>, admit: (set<TxId>, Tx) -> Outcome,
          txid: TxId, i: nat)
    requires Honest(log, pool, admit, txid) && i < |log|
    ensures log[i].orphan in pool && log[i].before == AcceptedBy(log[..i], txid) &&
      log[i].outcome == admit(log[i].before, pool[log[i].orphan].tx)
  {
    hide AcceptedBy;
    if i < |log| - 1 {
      HonestAt(log[..|log| - 1], pool, admit, txid, i);
      assert log[..|log| - 1][..i] == log[..i];
    }
  }

  /** The last attempt on an orphan. */
  lemma {:induction false} LastAttempt(log: seq<Attempt>, id: TxId) returns (i: nat)
    requires exists a: Attempt :: a in log && a.orphan == id
    ensures i < |log| && log[i].orphan == id && forall j :: i < j < |log| ==> log[j].orphan != id
  {
    var n := |log| - 1;
    if log[n].orphan == id {
      i := n;
    } else {
      var a: Attempt :| a in log && a.orphan == id;
      assert a in log[..n];
      i := LastAttempt(log[..n], id);
    }
  }

  /** Before the last attempt, everything had been accepted that the orphan was ever retried for. */
  lemma {:induction false} LastKnows(log: seq<Attempt>, pool: map<TxId, Orphan>, admit: (set<TxId>, Tx) -> Outcome,
          txid: TxId, id: TxId, i: nat, p: TxId)
    requires Honest(log, pool, admit, txid) && i < |log| && log[i].orphan == id && Retried(log, id, p)
    requires forall j :: i < j < |log| ==> log[j].orphan != id
    ensures p in log[i].before
  {
    var a: Attempt :| a in log && a.orphan == id && p in a.before;
    var j :| 0 <= j < |log| && log[j] == a;
    assert j <= i;
    HonestAt(log, pool, admit, txid, i);
    HonestAt(log, pool, admit, txid, j);
    AcceptedGrows(log[..i], txid, j);
    assert log[..i][..j] == log[..j];
  }

  /** No orphan is left behind that needs nothing but known transactions and those it spends from. */
  lemma {:induction false} NothingMissed(log: seq<Attempt>, pool: map<TxId, Orphan>, admit: (set<TxId>, Tx) -> Outcome,
          txid: TxId, needs: Tx -> set<TxId>, known: set<TxId>, id: TxId)
    requires Ran(log, pool, admit, txid) && Reports(admit, needs, known)
    requires id in pool && needs(pool[id].tx) <= known + Prevs(pool[id].tx)
    ensures !LeftBehind(log, pool, needs, known, txid, id)
  {
    hide AcceptedBy, PunishedBy, Honest;
    if LeftBehind(log, pool, needs, known, txid, id) {
      var p :| p in needs(pool[id].tx) && p !in known;
      assert Retried(log, id, p);
      var i := LastAttempt(log, id);
      HonestAt(log, pool, admit, txid, i);
      assert log[i] in log && log[i].outcome == Missing;
      var q :| q in needs(pool[id].tx) && q !in known && q !in log[i].before;
      LastKnows(log, pool, admit, txid, id, i, q);
      assert false;
    }
  }

  /** An orphan is not tried for a dependency it does not spend from: with no other orphan around,
      nothing at all is tried, whatever admission would say, and it is left behind. */
  lemma {:induction false} Overlooked(log: seq<Attempt>, o: Orphan, admit: (set<TxId>, Tx) -> Outcome, d: TxId,
          needs: Tx -> set<TxId>, known: set<TxId>)
    requires Honest(log, map[o.tx.id := o], admit, d)
    requires d in needs(o.tx) && d !in known && d !in o.tx.prevs && needs(o.tx) <= known + {d}
    ensures log == [] && LeftBehind(log, map[o.tx.id := o], needs, known, d, o.tx.id)
  {
    if log != [] {
      HonestFirst(log, map[o.tx.id := o], admit, d);
      assert false;
    }
  }

  lemma {:induction false} HonestFirst(log: seq<Attempt>, pool: map<TxId, Orphan>, admit: (set<TxId>, Tx) -> Outcome,
          txid: TxId)
    requires Honest(log, pool, admit, txid) && log != []
    ensures log[0].orphan in pool && txid in pool[log[0].orphan].tx.prevs
  {
    if |log| > 1 {
      HonestFirst(log[..|log| - 1], pool, admit, txid);
    }
  }

  /** From this set of known transactions or any larger one, no run leaves the orphan behind. */
  ghost predicate NeverLeft(needs: Tx -> set<TxId>, known: set<TxId>, o: Orphan) {
    forall log, pool, admit, txid, more: set<TxId> ::
      known <= more && Once(admit) && Ran(log, pool, admit, txid) && Reports(admit, needs, more) &&
      o.tx.id in pool && pool[o.tx.id] == o ==>
        !LeftBehind(log, pool, needs, more, txid, o.tx.id)
  }

  /** Exactly then: a ticket waiting for a ticket it does not spend from can be left behind. */
  lemma {:induction false} NothingMissedExactly(needs: Tx -> set<TxId>, known: set<TxId>, o: Orphan)
    ensures NeverLeft(needs, known, o) <==> needs(o.tx) <= known + Prevs(o.tx)
  {
    hide Ran, Reports, LeftBehind;
    if needs(o.tx) <= known + Prevs(o.tx) {
      forall log, pool, admit, txid, more: set<TxId> |
        known <= more && Ran(log, pool, admit, txid) && Reports(admit, needs, more) && o.tx.id in pool &&
          pool[o.tx.id] == o
        ensures !LeftBehind(log, pool, needs, more, txid, o.tx.id)
      {
        NothingMissed(log, pool, admit, txid, needs, more, o.tx.id);
      }
    } else {
      var d :| d in needs(o.tx) && d !in known + Prevs(o.tx);
      var more := known + (needs(o.tx) - {d});
      OneRun(needs, more, o, d);
      assert !NeverLeft(needs, known, o);
    }
  }

  lemma {:induction false} OneRun(needs: Tx -> set<TxId>, known: set<TxId>, o: Orphan, d: TxId)
    requires d in needs(o.tx) && d !in known && d !in o.tx.prevs && needs(o.tx) <= known + {d}
    ensures exists admit :: Once(admit) && Ran([], map[o.tx.id := o], admit, d) && Reports(admit, needs, known)
    ensures LeftBehind([], map[o.tx.id := o], needs, known, d, o.tx.id)
  {
    var admit := (s: set<TxId>, tx: Tx) => if needs(tx) <= known + s then Refused(0) else Missing;
    forall s: set<TxId>, tx: Tx | admit(s, tx) == Missing
      ensures exists p :: p in needs(tx) && p !in known && p !in s
    {
      var p :| p in needs(tx) && p !in known + s;
    }
    assert Reports(admit, needs, known);
    assert Ran([], map[o.tx.id := o], admit, d);
    Overlooked([], o, admit, d, needs, known);
  }

  /** The same with the pool itself: the ticket has the dependency it waits for accepted under its
      eyes, and stays. */
  method Overlook(o: Orphan, d: TxId, admit: (set<TxId>, Tx) -> Outcome) returns (m: OrphanTxManager)
    requires Once(admit) && o.tx.size <= MAX_ORPHAN_SIZE && d !in o.tx.prevs
    ensures m.Valid() && m.txs == map[o.tx.id := o]
  {
    m := new OrphanTxManager();
    var added := m.AddOrphanTx(o.tx, o.peer);
    ghost var pool := m.txs;
    assert pool == map[o.tx.id := o];
    ghost var log: seq<Attempt>;
    var accepted, misbehaving;
    accepted, misbehaving, log := m.ProcessOrphanTxs(d, admit);
    if log != [] {
      HonestFirst(log, pool, admit, d);
    }
  }

  lemma {:induction false} PartlyNone(txs: map<TxId, Orphan>, byPrev: map<TxId, set<TxId>>, o: Orphan)
    requires Exact(txs, byPrev)
    ensures Partly(txs, byPrev, o, o.tx.prevs[..0])
  {
  }

  lemma {:induction false} WithStep(txs: map<TxId, Orphan>, byPrev: map<TxId, set<TxId>>, o: Orphan, some: seq<TxId>,
          p: TxId)
    requires Partly(txs, byPrev, o, some)
    ensures Partly(txs, With(byPrev, p, o.tx.id), o, some + [p])
  {
    WithLists(byPrev, p, o.tx.id);
    hide With, Lists;
  }

  lemma {:induction false} PartlyAll(txs: map<TxId, Orphan>, byPrev: map<TxId, set<TxId>>, o: Orphan)
    requires Partly(txs, byPrev, o, o.tx.prevs) && o.tx.id !in txs
    ensures Exact(txs[o.tx.id := o], byPrev)
  {
    hide Lists;
  }

  /** The index while parents are being removed: those in gone no longer list the orphan. */
  ghost predicate PartlyGone(rest: map<TxId, Orphan>, byPrev: map<TxId, set<TxId>>, o: Orphan, prevs: seq<TxId>,
          gone: seq<TxId>)
  {
    (forall id :: id in rest ==> rest[id].tx.id == id) &&
    (forall p :: p in byPrev ==> byPrev[p] != {}) &&
    (forall p, id :: Lists(byPrev, p, id) <==>
      (id in rest && p in rest[id].tx.prevs) || (id == o.tx.id && p in prevs && p !in gone))
  }

  lemma {:induction false} PartlySplit(txs: map<TxId, Orphan>, byPrev: map<TxId, set<TxId>>, id: TxId)
    requires Exact(txs, byPrev) && id in txs
    ensures PartlyGone(txs - {id}, byPrev, txs[id], txs[id].tx.prevs, txs[id].tx.prevs[..0])
  {
    hide Lists;
  }

  lemma {:induction false} GoneStep(rest: map<TxId, Orphan>, byPrev: map<TxId, set<TxId>>, o: Orphan, gone: seq<TxId>,
          p: TxId)
    requires PartlyGone(rest, byPrev, o, o.tx.prevs, gone) && o.tx.id !in rest
    ensures PartlyGone(rest, Without(byPrev, p, o.tx.id), o, o.tx.prevs, gone + [p])
  {
    WithoutLists(byPrev, p, o.tx.id);
    hide Without, Lists;
  }

  lemma {:induction false} GoneAll(rest: map<TxId, Orphan>, byPrev: map<TxId, set<TxId>>, o: Orphan)
    requires PartlyGone(rest, byPrev, o, o.tx.prevs, o.tx.prevs)
    ensures Exact(rest, byPrev)
  {
    hide Lists;
  }
}
