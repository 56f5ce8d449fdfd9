/** The verification queue, src/checkqueue.h, as a machine whose steps are what one thread does
    between two acquisitions of the mutex. */
module CheckQueue {
  import opened Numbers

  /** A verification and what it returns when it is run. */
  datatype Check = Check(id: nat, verdict: bool)

  /** Where a thread is: not in Loop; in it and holding the mutex; waiting on its condition
      variable; working on a batch with these checks left. */
  datatype Thread = Outside | Inside | Waiting(notified: bool) | Working(left: seq<Check>, size: nat, ok: bool)

  /** The members of the queue and its threads, the master first. added, run and skipped tell what
      happened since the master last returned. */
  datatype State = State(queue: seq<Check>, threads: seq<Thread>, nIdle: int, nTotal: int, stop: bool, allOk: bool,
                         nTodo: int, batchSize: nat, added: multiset<Check>, run: multiset<Check>,
                           skipped: multiset<Check>)

  datatype Event =
    | Enter(t: nat)
    | Wake(t: nat)
    | Exec(t: nat)
    | Finish(t: nat)
    | Add(checks: seq<Check>, whom: nat)
    | Stop(master: bool)

  const MASTER := 0

  function Initial(threads: nat, batchSize: nat): State {
    State([], seq(threads, _ => Outside), 0, 0, false, true, 0, batchSize, multiset{}, multiset{}, multiset{})
  }

  // --------------------------------------------------------------------------- steps

  /** How many checks a thread takes. */
  function Batch(s: State): (n: nat)
    requires |s.queue| > 0 && s.nTotal >= 0 && s.nIdle >= 0
    ensures 1 <= n <= |s.queue| && (n == 1 || n <= s.batchSize)
  {
    Max(1, Min(s.batchSize, |s.queue| / (s.nTotal + s.nIdle + 1)))
  }

  function Reverse(cs: seq<Check>): (r: seq<Check>)
    ensures |r| == |cs| && multiset(r) == multiset(cs)
  {
    if cs == [] then []
    else
      assert cs == cs[..|cs| - 1] + [cs[|cs| - 1]];
      [cs[|cs| - 1]] + Reverse(cs[..|cs| - 1])
  }

  /** The thread leaves Loop here. */
  predicate Leaves(s: State, t: nat) {
    s.queue == [] && (t == MASTER || s.stop) && s.nTodo == 0
  }

  /** The rest of the critical section: leave, wait, or take a batch off the back of the queue. A
      leaving master starts a new round. */
  function Settle(s: State, t: nat): State
    requires t < |s.threads| && s.nTotal >= 0 && s.nIdle >= 0
  {
    if Leaves(s, t) then
      var out := s.(threads := s.threads[t := Outside], nTotal := s.nTotal - 1);
      if t == MASTER then out.(allOk := true, added := multiset{}, run := multiset{}, skipped := multiset{}) else out
    else if s.queue == [] then
      s.(threads := s.threads[t := Waiting(false)], nIdle := s.nIdle + 1)
    else
      var n := Batch(s);
      var rest := |s.queue| - n;
      s.(queue := s.queue[..rest], threads := s.threads[t := Working(Reverse(s.queue[rest..]), n, s.allOk)])
  }

  function Notified(th: Thread): Thread {
    if th.Waiting? then Waiting(true) else th
  }

  /** The state when the thread has the mutex and has tidied up after itself. */
  function Locked(s: State, e: Event): State
    requires (e.Enter? || e.Wake? || e.Finish?) && e.t < |s.threads| && (e.Finish? ==> s.threads[e.t].Working?)
  {
    match e
    case Enter(t) => s.(threads := s.threads[t := Inside], nTotal := s.nTotal + 1)
    case Wake(t) => s.(threads := s.threads[t := Inside], nIdle := s.nIdle - 1)
    case Finish(t) =>
      var w := s.threads[t];
      var u := s.(threads := s.threads[t := Inside], allOk := s.allOk && w.ok, nTodo := s.nTodo - w.size);
      if u.nTodo == 0 && t != MASTER then u.(threads := u.threads[MASTER := Notified(u.threads[MASTER])]) else u
  }

  /** A worker waits that nobody has notified. */
  predicate Sleeping(threads: seq<Thread>, i: nat) {
    MASTER < i < |threads| && threads[i] == Waiting(false)
  }

  /** A thread can take this step; waiting threads may also wake up on their own. Notifying one worker
      notifies one that sleeps, if there is any. */
  ghost predicate Enabled(s: State, e: Event) {
    match e
    case Enter(t) => t < |s.threads| && s.threads[t] == Outside
    case Wake(t) => t < |s.threads| && s.threads[t].Waiting?
    case Exec(t) => t < |s.threads| && s.threads[t].Working? && s.threads[t].left != []
    case Finish(t) => t < |s.threads| && s.threads[t].Working? && s.threads[t].left == []
    case Add(checks, whom) => |checks| == 1 ==> Sleeping(s.threads, whom) || forall i: nat :: !Sleeping(s.threads, i)
    case Stop(master) => true
  }

  function NotifyAll(threads: seq<Thread>, master: bool): seq<Thread> {
    seq(|threads|, i requires 0 <= i < |threads| =>
      if (i == MASTER) == master then Notified(threads[i]) else threads[i])
  }

  ghost function Next(s: State, e: Event): State
    requires Enabled(s, e) && s.nTotal >= 0 && s.nIdle >= (if e.Wake? then 1 else 0)
  {
    match e
    case Enter(t) => Settle(Locked(s, e), t)
    case Wake(t) => Settle(Locked(s, e), t)
    case Finish(t) => Settle(Locked(s, e), t)
    case Exec(t) =>
      var w := s.threads[t];
      var c := w.left[0];
      if w.ok then
        s.(threads := s.threads[t := Working(w.left[1..], w.size, c.verdict)], run := s.run + multiset{c})
      else
        s.(threads := s.threads[t := Working(w.left[1..], w.size, false)], skipped := s.skipped + multiset{c})
    case Add(checks, whom) =>
      var u := s.(queue := s.queue + checks, nTodo := s.nTodo + |checks|, added := s.added + multiset(checks));
      if |checks| == 1 then
        if MASTER < whom < |s.threads| then u.(threads := u.threads[whom := Notified(u.threads[whom])]) else u
      else if |checks| > 1 then u.(threads := NotifyAll(u.threads, false))
      else u
    case Stop(master) => s.(stop := true, threads := NotifyAll(s.threads, master))
  }

  // ------------------------------------------------------------------------ invariant

  /** What a thread adds to the counters: waiting, in Loop, checks in its batch. */
  datatype Tally = Tally(idle: int, total: int, flying: int)

  function TallyOf(th: Thread): Tally {
    match th
    case Outside => Tally(0, 0, 0)
    case Inside => Tally(0, 1, 0)
    case Waiting(_) => Tally(1, 1, 0)
    case Working(_, size, _) => Tally(0, 1, size)
  }

  function Sum(ts: seq<Thread>): (r: Tally)
    ensures r.idle >= 0 && r.total >= 0 && r.flying >= 0
  {
    if ts == [] then Tally(0, 0, 0)
    else
      var a, b := Sum(ts[..|ts| - 1]), TallyOf(ts[|ts| - 1]);
      Tally(a.idle + b.idle, a.total + b.total, a.flying + b.flying)
  }

  /** How often a thread has c among the checks it has taken and not come to yet. */
  function LeftOf(th: Thread, c: Check): int {
    if th.Working? then multiset(th.left)[c] else 0
  }

  function Left(ts: seq<Thread>, c: Check): int {
    if ts == [] then 0 else Left(ts[..|ts| - 1], c) + LeftOf(ts[|ts| - 1], c)
  }

  lemma {:induction false} SumUpdate(ts: seq<Thread>, i: nat, th: Thread)
    requires i < |ts|
    ensures var a, b, x, y := Sum(ts[i := th]), Sum(ts), TallyOf(th), TallyOf(ts[i]);
            a.idle == b.idle + x.idle - y.idle && a.total == b.total + x.total - y.total &&
              a.flying == b.flying + x.flying - y.flying
  {
    hide TallyOf;
    var n := |ts| - 1;
    if i == n {
      assert ts[i := th][..n] == ts[..n];
    } else {
      assert ts[i := th][..n] == ts[..n][i := th];
      SumUpdate(ts[..n], i, th);
    }
  }

  lemma {:induction false} LeftUpdate(ts: seq<Thread>, i: nat, th: Thread, c: Check)
    requires i < |ts|
    ensures Left(ts[i := th], c) == Left(ts, c) + LeftOf(th, c) - LeftOf(ts[i], c)
  {
    hide LeftOf;
    var n := |ts| - 1;
    if i == n {
      assert ts[i := th][..n] == ts[..n];
    } else {
      assert ts[i := th][..n] == ts[..n][i := th];
      LeftUpdate(ts[..n], i, th, c);
    }
  }

  /** Threads that differ at most in having been notified. */
  ghost predicate Alike(ts: seq<Thread>, us: seq<Thread>) {
    |ts| == |us| && forall i :: 0 <= i < |ts| ==> ts[i] == us[i] || (ts[i].Waiting? && us[i] == Waiting(true))
  }

  lemma {:induction false} SumAlike(ts: seq<Thread>, us: seq<Thread>)
    requires Alike(ts, us)
    ensures Sum(ts) == Sum(us)
  {
    if ts != [] {
      SumAlike(ts[..|ts| - 1], us[..|us| - 1]);
    }
  }

  lemma {:induction false} LeftAlike(ts: seq<Thread>, us: seq<Thread>, c: Check)
    requires Alike(ts, us)
    ensures Left(ts, c) == Left(us, c)
  {
    if ts != [] {
      LeftAlike(ts[..|ts| - 1], us[..|us| - 1], c);
    }
  }

  /** nIdle, nTotal and nTodo are what they are said to count. */
  ghost predicate Counts(s: State) {
    var sum := Sum(s.threads);
    s.nIdle == sum.idle && s.nTotal == sum.total && s.nTodo == |s.queue| + sum.flying
  }

  ghost predicate KeptAt(s: State, c: Check) {
    s.added[c] == multiset(s.queue)[c] + Left(s.threads, c) + s.run[c] + s.skipped[c]
  }

  /** No check added this round is lost or doubled. */
  ghost predicate Kept(s: State) {
    forall c :: KeptAt(s, c)
  }

  ghost predicate AllPass(cs: multiset<Check>) {
    forall c :: c in cs ==> c.verdict
  }

  ghost predicate OkayBut(ts: seq<Thread>, t: nat) {
    forall i :: 0 <= i < |ts| && i != t && ts[i].Working? ==> ts[i].ok
  }

  /** Nobody has seen a failure. */
  ghost predicate Fine(s: State) {
    s.allOk && forall i :: 0 <= i < |s.threads| && s.threads[i].Working? ==> s.threads[i].ok
  }

  lemma {:induction false} FineSplit(s: State, t: nat)
    requires t < |s.threads|
    ensures Fine(s) <==> s.allOk && OkayBut(s.threads, t) && (s.threads[t].Working? ==> s.threads[t].ok)
  {
  }

  lemma {:induction false} OkayOthers(ts: seq<Thread>, t: nat, th: Thread)
    requires t < |ts|
    ensures OkayBut(ts[t := th], t) <==> OkayBut(ts, t)
  {
    if OkayBut(ts[t := th], t) {
      forall i | 0 <= i < |ts| && i != t && ts[i].Working?
        ensures ts[i].ok
      {
        assert ts[t := th][i] == ts[i];
      }
    }
  }

  /** A failure has been seen exactly if a check has failed, and only then are checks skipped. */
  ghost predicate Verdicts(s: State) {
    (Fine(s) <==> AllPass(s.run)) && (Fine(s) ==> s.skipped == multiset{})
  }

  ghost predicate Batches(s: State) {
    forall i :: 0 <= i < |s.threads| && s.threads[i].Working? ==> s.threads[i].size >= 1
  }

  /** A waiting master that no one has notified still has something to wait for. */
  ghost predicate MasterWaits(s: State) {
    |s.threads| > MASTER && (s.threads[MASTER] == Waiting(false) ==> s.nTodo > 0)
  }

  /** The books: everything but the master's waiting. */
  ghost predicate Books(s: State) {
    Counts(s) && Kept(s) && Verdicts(s) && Batches(s)
  }

  ghost predicate Inv(s: State) {
    Books(s) && MasterWaits(s)
  }

  lemma {:induction false} SumAtLeast(ts: seq<Thread>, i: nat)
    requires i < |ts|
    ensures Sum(ts).idle >= TallyOf(ts[i]).idle && Sum(ts).total >= TallyOf(ts[i]).total &&
      Sum(ts).flying >= TallyOf(ts[i]).flying
  {
    SumUpdate(ts, i, Outside);
  }

  /** A step that can be taken is well defined. */
  lemma {:induction false} StepDefined(s: State, e: Event)
    requires Counts(s) && Enabled(s, e)
    ensures s.nTotal >= 0 && s.nIdle >= (if e.Wake? then 1 else 0)
  {
    if e.Wake? {
      SumAtLeast(s.threads, e.t);
    }
  }

  /** With nothing to do, no thread is working. */
  lemma {:induction false} NothingFlying(s: State)
    requires Counts(s) && Batches(s) && s.nTodo == 0
    ensures s.queue == []
    ensures forall i :: 0 <= i < |s.threads| ==> !s.threads[i].Working?
  {
    forall i | 0 <= i < |s.threads|
      ensures !s.threads[i].Working?
    {
      SumAtLeast(s.threads, i);
    }
  }

  lemma {:induction false} LeftNone(ts: seq<Thread>, c: Check)
    requires forall i :: 0 <= i < |ts| ==> !ts[i].Working?
    ensures Left(ts, c) == 0
  {
    if ts != [] {
      LeftNone(ts[..|ts| - 1], c);
    }
  }

  // ------------------------------------------------------------- every step keeps it

  lemma {:induction false} InitialInv(threads: nat, batchSize: nat)
    requires threads > 0
    ensures Inv(Initial(threads, batchSize))
  {
    var s := Initial(threads, batchSize);
    SumOutside(s.threads);
    hide Sum, Left;
    forall c
      ensures KeptAt(s, c)
    {
      LeftNone(s.threads, c);
    }
  }

  lemma {:induction false} SumOutside(ts: seq<Thread>)
    requires forall i :: 0 <= i < |ts| ==> ts[i] == Outside
    ensures Sum(ts) == Tally(0, 0, 0)
  {
    if ts != [] {
      SumOutside(ts[..|ts| - 1]);
    }
  }

  /** Notifying threads keeps the books. */
  lemma {:induction false} NotifyBooks(s: State, threads: seq<Thread>)
    requires Books(s) && Alike(s.threads, threads)
    ensures Books(s.(threads := threads))
  {
    SumAlike(s.threads, threads);
    hide Sum, Left, AllPass;
    var u := s.(threads := threads);
    forall c
      ensures KeptAt(u, c)
    {
      assert KeptAt(s, c);
      LeftAlike(s.threads, threads, c);
    }
    forall i | 0 <= i < |threads|
      ensures threads[i].Working? <==> s.threads[i].Working?
      ensures threads[i].Working? ==> threads[i] == s.threads[i]
    {
    }
    assert Fine(u) <==> Fine(s);
  }

  lemma {:induction false} KeptUpdate(s: State, t: nat, th: Thread)
    requires Kept(s) && t < |s.threads| && forall c :: LeftOf(th, c) == LeftOf(s.threads[t], c)
    ensures Kept(s.(threads := s.threads[t := th]))
  {
    hide Left;
    var u := s.(threads := s.threads[t := th]);
    forall c
      ensures KeptAt(u, c)
    {
      assert KeptAt(s, c);
      LeftUpdate(s.threads, t, th, c);
    }
  }

  lemma {:induction false} BatchesUpdate(s: State, t: nat, th: Thread)
    requires Batches(s) && t < |s.threads| && (th.Working? ==> th.size >= 1)
    ensures Batches(s.(threads := s.threads[t := th]))
  {
  }

  /** A thread without a batch changes places. */
  lemma {:induction false} PlaceBooks(s: State, t: nat, th: Thread, idle: int, total: int)
    requires Books(s) && t < |s.threads| && !s.threads[t].Working? && !th.Working?
    requires idle == s.nIdle + TallyOf(th).idle - TallyOf(s.threads[t]).idle
    requires total == s.nTotal + TallyOf(th).total - TallyOf(s.threads[t]).total
    ensures Books(s.(threads := s.threads[t := th], nIdle := idle, nTotal := total))
  {
    var u := s.(threads := s.threads[t := th], nIdle := idle, nTotal := total);
    SumUpdate(s.threads, t, th);
    KeptUpdate(s, t, th);
    BatchesUpdate(s, t, th);
    FineSplit(s, t);
    FineSplit(u, t);
    OkayOthers(s.threads, t, th);
    SameKept(s.(threads := s.threads[t := th]), u);
    hide Sum, Kept, AllPass, Fine, OkayBut;
  }

  lemma {:induction false} SameKept(s: State, u: State)
    requires Kept(s) && u.added == s.added && u.queue == s.queue && u.threads == s.threads && u.run == s.run &&
      u.skipped == s.skipped
    ensures Kept(u)
  {
    forall c
      ensures KeptAt(u, c)
    {
      assert KeptAt(s, c);
    }
  }

  /** A finished batch is taken off the books. */
  lemma {:induction false} FinishBooks(s: State, t: nat)
    requires Books(s) && t < |s.threads| && s.threads[t].Working? && s.threads[t].left == []
    ensures var u := s.(threads := s.threads[t := Inside], allOk := s.allOk && s.threads[t].ok,
                   nTodo := s.nTodo - s.threads[t].size);
            Books(u) && u.nTodo >= 0
  {
    var u := s.(threads := s.threads[t := Inside], allOk := s.allOk && s.threads[t].ok,
                   nTodo := s.nTodo - s.threads[t].size);
    SumUpdate(s.threads, t, Inside);
    KeptUpdate(s, t, Inside);
    BatchesUpdate(s, t, Inside);
    FineSplit(s, t);
    FineSplit(u, t);
    OkayOthers(s.threads, t, Inside);
    SameKept(s.(threads := s.threads[t := Inside]), u);
    hide Sum, Kept, AllPass, Fine, OkayBut;
  }

  /** Taking the mutex and tidying up keeps the invariant. */
  lemma {:induction false} LockedInv(s: State, e: Event)
    requires Inv(s) && Enabled(s, e) && (e.Enter? || e.Wake? || e.Finish?)
    ensures var u := Locked(s, e); Inv(u) && |u.threads| == |s.threads| && u.threads[e.t] == Inside
  {
    hide Books;
    match e
    case Enter(t) => PlaceBooks(s, t, Inside, s.nIdle, s.nTotal + 1);
    case Wake(t) => PlaceBooks(s, t, Inside, s.nIdle - 1, s.nTotal);
    case Finish(t) =>
      FinishBooks(s, t);
      var w := s.threads[t];
      var u := s.(threads := s.threads[t := Inside], allOk := s.allOk && w.ok, nTodo := s.nTodo - w.size);
      if u.nTodo == 0 && t != MASTER {
        NotifyBooks(u, u.threads[MASTER := Notified(u.threads[MASTER])]);
      }
  }

  lemma {:induction false} Todo(s: State)
    requires Counts(s)
    ensures s.nTodo >= 0 && s.nIdle >= 0 && s.nTotal >= 0
  {
  }

  /** A round ends with nothing left: the next one starts clean. */
  lemma {:induction false} NewRound(s: State)
    requires Books(s) && s.nTodo == 0
    ensures Books(s.(allOk := true, added := multiset{}, run := multiset{}, skipped := multiset{}))
  {
    NothingFlying(s);
    hide Sum, Left;
    var u := s.(allOk := true, added := multiset{}, run := multiset{}, skipped := multiset{});
    forall c
      ensures KeptAt(u, c)
    {
      LeftNone(s.threads, c);
    }
  }

  lemma {:induction false} LeaveInv(s: State, t: nat)
    requires Inv(s) && t < |s.threads| && s.threads[t] == Inside && s.nTotal >= 0 && s.nIdle >= 0 && Leaves(s, t)
    ensures Inv(Settle(s, t))
  {
    hide Books;
    var u := s.(threads := s.threads[t := Outside], nTotal := s.nTotal - 1);
    PlaceBooks(s, t, Outside, s.nIdle, s.nTotal - 1);
    if t == MASTER {
      NewRound(u);
    }
  }

  lemma {:induction false} WaitInv(s: State, t: nat)
    requires Inv(s) && t < |s.threads| && s.threads[t] == Inside && s.nTotal >= 0 && s.nIdle >= 0 && s.nTodo >= 0
    requires s.queue == [] && !Leaves(s, t)
    ensures Inv(Settle(s, t))
  {
    hide Books;
    PlaceBooks(s, t, Waiting(false), s.nIdle + 1, s.nTotal);
  }

  lemma {:induction false} TakeInv(s: State, t: nat)
    requires Inv(s) && t < |s.threads| && s.threads[t] == Inside && s.nTotal >= 0 && s.nIdle >= 0 && s.queue != []
    ensures Inv(Settle(s, t))
  {
    hide Books, Reverse, Batch;
    TakeBooks(s, t, Batch(s));
  }

  /** Leaving, waiting or taking a batch keeps the invariant. */
  lemma {:induction false} SettleInv(s: State, t: nat)
    requires Inv(s) && t < |s.threads| && s.threads[t] == Inside
    ensures s.nTotal >= 0 && s.nIdle >= 0 && Inv(Settle(s, t))
  {
    Todo(s);
    hide Inv, Settle;
    if s.queue != [] {
      TakeInv(s, t);
    } else if Leaves(s, t) {
      LeaveInv(s, t);
    } else {
      WaitInv(s, t);
    }
  }

  lemma {:induction false} TakeKept(s: State, t: nat, th: Thread, rest: nat)
    requires Kept(s) && t < |s.threads| && s.threads[t] == Inside && rest <= |s.queue|
    requires th.Working? && multiset(th.left) == multiset(s.queue[rest..])
    ensures Kept(s.(queue := s.queue[..rest], threads := s.threads[t := th]))
  {
    hide Left;
    assert s.queue == s.queue[..rest] + s.queue[rest..];
    var u := s.(queue := s.queue[..rest], threads := s.threads[t := th]);
    forall c
      ensures KeptAt(u, c)
    {
      assert KeptAt(s, c);
      LeftUpdate(s.threads, t, th, c);
      assert multiset(s.queue)[c] == multiset(s.queue[..rest])[c] + multiset(s.queue[rest..])[c];
    }
  }

  lemma {:induction false} TakeBooks(s: State, t: nat, n: nat)
    requires Books(s) && t < |s.threads| && s.threads[t] == Inside && 1 <= n <= |s.queue|
    ensures var rest := |s.queue| - n;
            Books(s.(queue := s.queue[..rest],
              threads := s.threads[t := Working(Reverse(s.queue[rest..]), n, s.allOk)]))
  {
    var rest := |s.queue| - n;
    var th := Working(Reverse(s.queue[rest..]), n, s.allOk);
    var u := s.(queue := s.queue[..rest], threads := s.threads[t := th]);
    hide Sum, Kept, AllPass, Fine, OkayBut, Reverse;
    SumUpdate(s.threads, t, th);
    TakeKept(s, t, th, rest);
    BatchesUpdate(s, t, th);
    FineSplit(s, t);
    FineSplit(u, t);
    OkayOthers(s.threads, t, th);
  }

  // -------------------------------------------------------------- running the checks

  lemma {:induction false} ExecKept(s: State, t: nat, th: Thread, run: multiset<Check>, skipped: multiset<Check>)
    requires Kept(s) && t < |s.threads| && s.threads[t].Working? && s.threads[t].left != []
    requires th.Working? && th.left == s.threads[t].left[1..]
    requires var c := s.threads[t].left[0];
             (run == s.run + multiset{c} && skipped == s.skipped) ||
               (run == s.run && skipped == s.skipped + multiset{c})
    ensures Kept(s.(threads := s.threads[t := th], run := run, skipped := skipped))
  {
    hide Left;
    var left := s.threads[t].left;
    assert left == [left[0]] + left[1..];
    var u := s.(threads := s.threads[t := th], run := run, skipped := skipped);
    forall c
      ensures KeptAt(u, c)
    {
      assert KeptAt(s, c);
      LeftUpdate(s.threads, t, th, c);
      assert multiset(left)[c] == multiset([left[0]])[c] + multiset(left[1..])[c];
    }
  }

  lemma {:induction false} PassMore(run: multiset<Check>, c: Check)
    ensures AllPass(run + multiset{c}) <==> AllPass(run) && c.verdict
  {
    if AllPass(run + multiset{c}) {
      assert c in run + multiset{c};
      forall d | d in run
        ensures d.verdict
      {
        assert d in run + multiset{c};
      }
    }
  }

  lemma {:induction false} ExecBooks(s: State, t: nat, th: Thread, run: multiset<Check>, skipped: multiset<Check>)
    requires Books(s) && t < |s.threads| && s.threads[t].Working? && s.threads[t].left != []
    requires var w := s.threads[t]; var c := w.left[0];
             th.Working? && th.left == w.left[1..] && th.size == w.size &&
             if w.ok then th.ok == c.verdict && run == s.run + multiset{c} && skipped == s.skipped
             else !th.ok && run == s.run && skipped == s.skipped + multiset{c}
    ensures Books(s.(threads := s.threads[t := th], run := run, skipped := skipped))
  {
    var u := s.(threads := s.threads[t := th], run := run, skipped := skipped);
    hide Sum, Kept, AllPass, Fine, OkayBut;
    SumUpdate(s.threads, t, th);
    ExecKept(s, t, th, run, skipped);
    BatchesUpdate(s, t, th);
    FineSplit(s, t);
    FineSplit(u, t);
    OkayOthers(s.threads, t, th);
    PassMore(s.run, s.threads[t].left[0]);
  }

  /** Running or skipping one check keeps the invariant. */
  lemma {:induction false} ExecInv(s: State, t: nat)
    requires Inv(s) && Enabled(s, Exec(t)) && s.nTotal >= 0 && s.nIdle >= 0
    ensures Inv(Next(s, Exec(t)))
  {
    hide Books;
    var u := Next(s, Exec(t));
    ExecBooks(s, t, u.threads[t], u.run, u.skipped);
  }

  // ------------------------------------------------------------------ adding and stopping

  lemma {:induction false} AddBooks(s: State, checks: seq<Check>)
    requires Books(s)
    ensures Books(s.(queue := s.queue + checks, nTodo := s.nTodo + |checks|, added := s.added + multiset(checks)))
  {
    hide Sum, Left, AllPass;
    var u := s.(queue := s.queue + checks, nTodo := s.nTodo + |checks|, added := s.added + multiset(checks));
    forall c
      ensures KeptAt(u, c)
    {
      assert KeptAt(s, c);
    }
    assert Fine(u) <==> Fine(s);
  }

  lemma {:induction false} AddInv(s: State, checks: seq<Check>, whom: nat)
    requires Inv(s) && Enabled(s, Add(checks, whom)) && s.nTotal >= 0 && s.nIdle >= 0
    ensures Inv(Next(s, Add(checks, whom)))
  {
    hide Books;
    AddBooks(s, checks);
    var u := s.(queue := s.queue + checks, nTodo := s.nTodo + |checks|, added := s.added + multiset(checks));
    if |checks| == 1 && MASTER < whom < |s.threads| {
      NotifyBooks(u, u.threads[whom := Notified(u.threads[whom])]);
    } else if |checks| > 1 {
      NotifyBooks(u, NotifyAll(u.threads, false));
    }
  }

  lemma {:induction false} StopInv(s: State, master: bool)
    requires Inv(s) && s.nTotal >= 0 && s.nIdle >= 0
    ensures Inv(Next(s, Stop(master)))
  {
    hide Sum, Left, AllPass;
    var u := s.(stop := true);
    forall c
      ensures KeptAt(u, c)
    {
      assert KeptAt(s, c);
    }
    assert Fine(u) <==> Fine(s);
    NotifyBooks(u, NotifyAll(s.threads, master));
  }

  /** Every step keeps the invariant. */
  lemma {:induction false} StepInv(s: State, e: Event)
    requires Inv(s) && Enabled(s, e)
    ensures s.nTotal >= 0 && s.nIdle >= (if e.Wake? then 1 else 0) && Inv(Next(s, e))
  {
    StepDefined(s, e);
    hide Inv, Settle, Locked;
    match e
    case Enter(t) => LockedInv(s, e); SettleInv(Locked(s, e), t);
    case Wake(t) => LockedInv(s, e); SettleInv(Locked(s, e), t);
    case Finish(t) => LockedInv(s, e); SettleInv(Locked(s, e), t);
    case Exec(t) => ExecInv(s, t);
    case Add(checks, whom) => AddInv(s, checks, whom);
    case Stop(master) => StopInv(s, master);
  }

  // ------------------------------------------------------------------------------ runs

  ghost predicate Leads(r: State, e: Event, s: State) {
    Enabled(r, e) && r.nTotal >= 0 && r.nIdle >= (if e.Wake? then 1 else 0) && s == Next(r, e)
  }

  /** The events, each possible where it happens, lead from the initial state to s. */
  ghost predicate Run(threads: nat, batchSize: nat, events: seq<Event>, s: State)
    decreases |events|
  {
    if events == [] then s == Initial(threads, batchSize)
    else
      var init, last := events[..|events| - 1], events[|events| - 1];
      exists r :: Run(threads, batchSize, init, r) && Leads(r, last, s)
  }

  /** The invariant holds at the end of every run, whatever the threads do and in whatever order. */
  lemma {:induction false} RunInv(threads: nat, batchSize: nat, events: seq<Event>, s: State)
    requires threads > 0 && Run(threads, batchSize, events, s)
    ensures Inv(s)
    decreases |events|
  {
    hide Inv, Next, Initial;
    if events == [] {
      InitialInv(threads, batchSize);
    } else {
      var init := events[..|events| - 1];
      var last := events[|events| - 1];
      var r :| Run(threads, batchSize, init, r) && Leads(r, last, s);
      RunInv(threads, batchSize, init, r);
      StepInv(r, last);
    }
  }

  lemma {:induction false} LeadsNext(s: State, e: Event)
    requires s.nTotal >= 0 && s.nIdle >= (if e.Wake? then 1 else 0) && Enabled(s, e)
    ensures Leads(s, e, Next(s, e))
  {
    hide Enabled, Next;
  }

  lemma {:induction false} RunMore(threads: nat, batchSize: nat, events: seq<Event>, s: State, e: Event, u: State)
    requires threads > 0 && Run(threads, batchSize, events, s) && Leads(s, e, u)
    ensures Run(threads, batchSize, events + [e], u)
  {
    hide Leads, Initial;
    assert (events + [e])[..|events|] == events && (events + [e])[|events|] == e;
  }

  /** Every event that is possible continues the run. */
  lemma {:induction false} RunOn(threads: nat, batchSize: nat, events: seq<Event>, s: State, e: Event)
    requires threads > 0 && Run(threads, batchSize, events, s) && Enabled(s, e)
    ensures s.nTotal >= 0 && s.nIdle >= (if e.Wake? then 1 else 0) && Run(threads, batchSize, events + [e], Next(s, e))
  {
    hide Next, Initial, Run, Enabled, Counts, Kept, Verdicts, Batches, MasterWaits, Locked;
    RunInv(threads, batchSize, events, s);
    StepDefined(s, e);
    LeadsNext(s, e);
    RunMore(threads, batchSize, events, s, e, Next(s, e));
  }

  /** MasterWorker returns true exactly if every check added since it last returned has been run
      and has passed; it returns false only if one of them has failed; and the next round starts
      with nothing queued, in flight or remembered. */
  lemma {:induction false} MasterReturns(threads: nat, batchSize: nat, events: seq<Event>, s: State, e: Event)
    requires threads > 0 && Run(threads, batchSize, events, s) && Enabled(s, e)
    requires (e.Enter? || e.Wake? || e.Finish?) && e.t == MASTER && Leaves(Locked(s, e), MASTER)
    ensures var u := Locked(s, e);
            && (u.allOk <==> u.run == u.added && AllPass(u.added))
            && (!u.allOk ==> exists c :: c in u.run && c in u.added && !c.verdict)
            && s.nTotal >= 0 && s.nIdle >= (if e.Wake? then 1 else 0)
            && var v := Next(s, e);
               v.allOk && v.queue == [] && v.nTodo == 0 && v.added == multiset{} && v.run == multiset{} &&
                 v.skipped == multiset{}
               && forall i :: 0 <= i < |v.threads| ==> !v.threads[i].Working?
  {
    hide Locked, Run, Counts, Kept, Verdicts, Batches, MasterWaits;
    RunInv(threads, batchSize, events, s);
    StepDefined(s, e);
    LockedInv(s, e);
    var u := Locked(s, e);
    NothingFlying(u);
    RoundOver(u);
  }

  /** With nothing left to do, the verdict is about all the checks of the round. */
  lemma {:induction false} RoundOver(s: State)
    requires Books(s) && s.nTodo == 0
    ensures s.added == s.run + s.skipped
    ensures s.allOk <==> s.run == s.added && AllPass(s.added)
    ensures !s.allOk ==> exists c :: c in s.run && c in s.added && !c.verdict
  {
    NothingFlying(s);
    assert Fine(s) <==> s.allOk;
    hide Sum, Left;
    forall c
      ensures s.added[c] == s.run[c] + s.skipped[c]
    {
      LeftNone(s.threads, c);
      assert KeptAt(s, c);
    }
    assert s.added == s.run + s.skipped;
    if !s.allOk {
      var c :| c in s.run && !c.verdict;
      assert c in s.added;
    }
  }

  /** A master that waits and has not been notified is not forgotten: with the queue empty, some
      worker holds a batch, and the last one to finish notifies it. */
  lemma {:induction false} NotForgotten(threads: nat, batchSize: nat, events: seq<Event>, s: State)
    requires threads > 0 && Run(threads, batchSize, events, s)
    requires |s.threads| > MASTER && s.threads[MASTER] == Waiting(false)
    ensures s.nTodo > 0
    ensures s.queue == [] ==> exists t :: 0 < t < |s.threads| && s.threads[t].Working?
  {
    hide Run;
    RunInv(threads, batchSize, events, s);
    hide Kept, Verdicts, Batches, Sum;
    if s.queue == [] {
      var t := SomeoneFlying(s.threads);
    }
  }

  lemma {:induction false} SomeoneFlying(ts: seq<Thread>) returns (t: nat)
    requires Sum(ts).flying > 0
    ensures t < |ts| && ts[t].Working?
  {
    var n := |ts| - 1;
    if ts[n].Working? {
      t := n;
    } else {
      t := SomeoneFlying(ts[..n]);
    }
  }

  // ------------------------------------------------------------------ who is awake

  /** The worker is in Loop and awake, or has been notified. */
  predicate Up(threads: seq<Thread>, i: nat) {
    MASTER < i < |threads| && threads[i] != Outside && threads[i] != Waiting(false)
  }

  /** With something queued, some worker is up, unless all have left. */
  ghost predicate Awake(s: State) {
    s.queue == [] || (exists i: nat :: Up(s.threads, i)) || forall i: nat :: !Sleeping(s.threads, i)
  }

  lemma {:induction false} SettledAwake(s: State, u: State, t: nat)
    requires Awake(s) && t < |s.threads| == |u.threads| && u.queue == s.queue && u.nTotal >= 0 && u.nIdle >= 0
    requires forall i :: MASTER < i < |s.threads| && i != t ==> u.threads[i] == s.threads[i]
    ensures Awake(Settle(u, t))
  {
    hide Batch, Reverse;
    var v := Settle(u, t);
    if v.queue != [] {
      if t > MASTER {
        assert Up(v.threads, t);
      } else if i: nat :| Up(s.threads, i) {
        assert Up(v.threads, i);
      } else {
        forall i: nat
          ensures !Sleeping(v.threads, i)
        {
          assert !Sleeping(s.threads, i);
        }
      }
    }
  }

  lemma {:induction false} LockedSame(s: State, e: Event)
    requires Enabled(s, e) && (e.Enter? || e.Wake? || e.Finish?)
    ensures var u := Locked(s, e);
            |u.threads| == |s.threads| && u.queue == s.queue &&
            forall i :: MASTER < i < |s.threads| && i != e.t ==> u.threads[i] == s.threads[i]
  {
  }

  lemma {:induction false} NotifiedAwake(s: State, u: State)
    requires Awake(s) && Alike(s.threads, u.threads) && u.queue == s.queue
    ensures Awake(u)
  {
    if i: nat :| Up(s.threads, i) {
      assert Up(u.threads, i);
    } else if forall i: nat :: !Sleeping(s.threads, i) {
      forall i: nat
        ensures !Sleeping(u.threads, i)
      {
        assert !Sleeping(s.threads, i);
      }
    }
  }

  lemma {:induction false} AddAwake(s: State, checks: seq<Check>, whom: nat)
    requires Awake(s) && Enabled(s, Add(checks, whom)) && s.nTotal >= 0 && s.nIdle >= 0
    ensures Awake(Next(s, Add(checks, whom)))
  {
    var v := Next(s, Add(checks, whom));
    if |checks| == 0 {
      assert v.queue == s.queue;
      NotifiedAwake(s, v);
    } else if |checks| == 1 {
      if Sleeping(s.threads, whom) {
        assert Up(v.threads, whom);
      } else {
        forall i: nat
          ensures !Sleeping(v.threads, i)
        {
          assert !Sleeping(s.threads, i);
        }
      }
    } else {
      assert forall i: nat :: !Sleeping(v.threads, i);
    }
  }

  lemma {:induction false} StepAwake(s: State, e: Event)
    requires Inv(s) && Awake(s) && Enabled(s, e) && s.nTotal >= 0 && s.nIdle >= (if e.Wake? then 1 else 0)
    ensures Awake(Next(s, e))
  {
    hide Inv, Settle, Awake;
    match e
    case Enter(t) => LockedSame(s, e); SettledAwake(s, Locked(s, e), t);
    case Wake(t) => LockedSame(s, e); SettledAwake(s, Locked(s, e), t);
    case Finish(t) => LockedSame(s, e); SettledAwake(s, Locked(s, e), t);
    case Exec(t) => ExecAwake(s, t);
    case Add(checks, whom) => AddAwake(s, checks, whom);
    case Stop(master) => NotifiedAwake(s, Next(s, e));
  }

  lemma {:induction false} ExecAwake(s: State, t: nat)
    requires Awake(s) && Enabled(s, Exec(t)) && s.nTotal >= 0 && s.nIdle >= 0
    ensures Awake(Next(s, Exec(t)))
  {
    WorkedAwake(s, Next(s, Exec(t)), t);
  }

  lemma {:induction false} WorkedAwake(s: State, u: State, t: nat)
    requires Awake(s) && t < |s.threads| && s.threads[t].Working? && u.queue == s.queue
    requires |u.threads| == |s.threads| && u.threads == s.threads[t := u.threads[t]] && u.threads[t].Working?
    ensures Awake(u)
  {
    if i: nat :| Up(s.threads, i) {
      assert Up(u.threads, i);
    } else if forall i: nat :: !Sleeping(s.threads, i) {
      forall i: nat
        ensures !Sleeping(u.threads, i)
      {
        assert !Sleeping(s.threads, i);
      }
    }
  }

  /** No worker sleeps through work: with something queued and a worker asleep, another is up. */
  lemma {:induction false} SomeoneUp(threads: nat, batchSize: nat, events: seq<Event>, s: State)
    requires threads > 0 && Run(threads, batchSize, events, s)
    ensures Awake(s)
    decreases |events|
  {
    hide Inv, Next, Awake, Enabled;
    if events == [] {
      InitiallyAwake(threads, batchSize);
    } else {
      var init := events[..|events| - 1];
      var last := events[|events| - 1];
      var r :| Run(threads, batchSize, init, r) && Leads(r, last, s);
      SomeoneUp(threads, batchSize, init, r);
      RunInv(threads, batchSize, init, r);
      StepAwake(r, last);
    }
  }

  lemma {:induction false} InitiallyAwake(threads: nat, batchSize: nat)
    ensures Awake(Initial(threads, batchSize))
  {
  }

  // ---------------------------------------------------------------- after a failure

  /** A failure is on record and everybody knows it. */
  ghost predicate Failed(s: State) {
    !s.allOk && forall i :: 0 <= i < |s.threads| && s.threads[i].Working? ==> !s.threads[i].ok
  }

  /** From then on no check is run, until the master returns. */
  lemma {:induction false} NothingMoreRun(s: State, e: Event)
    requires Failed(s) && Enabled(s, e) && s.nTotal >= 0 && s.nIdle >= (if e.Wake? then 1 else 0)
    requires (e.Enter? || e.Wake? || e.Finish?) && e.t == MASTER ==> !Leaves(Locked(s, e), MASTER)
    ensures Failed(Next(s, e)) && Next(s, e).run == s.run
  {
    hide Settle, Failed, Locked;
    match e
    case Enter(t) => LockedFailed(s, e); SettleFailed(Locked(s, e), t);
    case Wake(t) => LockedFailed(s, e); SettleFailed(Locked(s, e), t);
    case Finish(t) => LockedFailed(s, e); SettleFailed(Locked(s, e), t);
    case Exec(t) => ExecFailed(s, t);
    case Add(checks, whom) => NotifiedFailed(s, Next(s, e));
    case Stop(master) => NotifiedFailed(s, Next(s, e));
  }

  lemma {:induction false} LockedFailed(s: State, e: Event)
    requires Failed(s) && Enabled(s, e) && (e.Enter? || e.Wake? || e.Finish?)
    ensures Failed(Locked(s, e)) && Locked(s, e).run == s.run
    ensures |Locked(s, e).threads| == |s.threads|
    ensures Locked(s, e).nTotal >= s.nTotal && Locked(s, e).nIdle >= s.nIdle - if e.Wake? then 1 else 0
  {
  }

  lemma {:induction false} SettleFailed(s: State, t: nat)
    requires Failed(s) && t < |s.threads| && s.nTotal >= 0 && s.nIdle >= 0 && (t == MASTER ==> !Leaves(s, t))
    ensures Failed(Settle(s, t)) && Settle(s, t).run == s.run
  {
    hide Batch, Reverse;
  }

  lemma {:induction false} ExecFailed(s: State, t: nat)
    requires Failed(s) && Enabled(s, Exec(t)) && s.nTotal >= 0 && s.nIdle >= 0
    ensures Failed(Next(s, Exec(t))) && Next(s, Exec(t)).run == s.run
  {
  }

  lemma {:induction false} NotifiedFailed(s: State, u: State)
    requires Failed(s) && Alike(s.threads, u.threads) && u.allOk == s.allOk
    ensures Failed(u)
  {
  }

  /** A batch is the largest that leaves as much for each other thread, within the limit. */
  lemma {:induction false} FairBatch(s: State, n: nat)
    requires |s.queue| > 0 && s.nTotal >= 0 && s.nIdle >= 0
    ensures 1 < n <= s.batchSize && n * (s.nTotal + s.nIdle + 1) <= |s.queue| ==> n <= Batch(s)
    ensures Batch(s) > 1 ==> Batch(s) * (s.nTotal + s.nIdle + 1) <= |s.queue|
  {
    var d := s.nTotal + s.nIdle + 1;
    Quotient(|s.queue|, d, n);
    Quotient(|s.queue|, d, Batch(s));
  }

  lemma {:induction false} Quotient(q: nat, d: nat, n: nat)
    requires d > 0
    ensures n * d <= q <==> n <= q / d
  {
    var k := q / d;
    assert k * d <= q < (k + 1) * d;
    if n <= k {
      assert n * d <= k * d;
    } else {
      assert (k + 1) * d <= n * d;
    }
  }
}
