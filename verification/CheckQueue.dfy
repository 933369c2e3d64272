/** The parallel check queue as a state machine.

    One master (thread 0) and any number of workers (threads 1, 2, ...) share a
    queue of checks under one mutex and two condition variables. Every critical
    section of `Loop` and `Add` is one atomic event; evaluating one check of a
    claimed batch, outside the mutex, is an event of its own. Events carry every
    scheduling choice, so a trace of events determines the run. */
module CheckQueue {
  import opened Basics

  /** A verification; `ok` is what its operator() returns. */
  datatype Check = Check(id: nat, ok: bool)

  /** Where a thread is, relative to `Loop`. */
  datatype Phase =
    | Outside                                            // not inside Loop
    | Entering                                           // inside Loop, mutex not taken yet
    | Sleeping                                           // blocked in cond.wait, not notified
    | Signalled                                          // released from cond.wait, mutex not retaken yet
    | Working(batch: seq<Check>, next: nat, fOk: bool)   // holds a batch, `next` checks of it done
  {
    predicate Idle() { Sleeping? || Signalled? }

    predicate InLoop() { Sleeping? || Signalled? || Working? }

    /** May the thread enter its next critical section of Loop? */
    predicate AtLock() { Entering? || Signalled? || (Working? && next == |batch|) }

    function Batch(): seq<Check> { if Working? then batch else [] }

    function Weight(): nat {
      match this
      case Outside => 0
      case Sleeping => 0
      case Entering => 1
      case Signalled => 1
      case Working(b, n, _) => 2 + if n <= |b| then |b| - n else 0
    }
  }

  datatype State = State(
    queue: seq<Check>,
    nIdle: int,
    nTotal: int,
    fAllOk: bool,
    nTodo: int,
    nBatchSize: nat,
    threads: seq<Phase>)
  {
    function With(t: nat, p: Phase): State
      requires t < |threads|
    {
      this.(threads := threads[t := p])
    }
  }

  datatype Event =
    | Start(t: nat)                              // a worker thread calls Loop()
    | CallWait                                   // the master calls Wait()
    | Add(checks: seq<Check>, woken: set<nat>)   // the master calls Add(), notifying `woken`
    | Lock(t: nat)                               // thread t runs one critical section of Loop
    | Execute(t: nat)                            // thread t evaluates the next check of its batch
    | SpuriousWake(t: nat)                       // cond.wait returns without a notification

  function Init(workers: nat, batchSize: nat): State {
    State([], 0, 0, true, 0, batchSize, seq(workers + 1, i => Outside))
  }

  // ---------------------------------------------------------------- transitions

  /** The number of checks a thread takes from a non-empty queue. */
  function BatchCount(s: State): int
    requires 0 <= s.nTotal && 0 <= s.nIdle
  {
    Max(1, Min(s.nBatchSize, |s.queue| / (s.nTotal + s.nIdle + 1)))
  }

  /** First part of the critical section: account for the finished batch, or for
      the first iteration, or for waking up. */
  function Prelude(s: State, t: nat): State
    requires t < |s.threads| && s.threads[t].AtLock()
  {
    match s.threads[t]
    case Working(batch, _, fOk) =>
      var s1 := s.(fAllOk := s.fAllOk && fOk, nTodo := s.nTodo - |batch|);
      if s1.nTodo == 0 && t != 0 && s1.threads[0].Sleeping? then s1.With(0, Signalled) else s1
    case Entering => s.(nTotal := s.nTotal + 1)
    case _ => s.(nIdle := s.nIdle - 1)
  }

  /** The last `n` checks of the queue, in the order they are swapped out. */
  function Popped(queue: seq<Check>, n: nat): (r: seq<Check>)
    requires n <= |queue|
  {
    seq(n, i requires 0 <= i < n => queue[|queue| - 1 - i])
  }

  predicate ReturnsNow(s: State, t: nat) { s.queue == [] && t == 0 && s.nTodo == 0 }

  /** Second part of the critical section: return, go to sleep, or claim a batch. */
  function Proceed(s: State, t: nat): State
    requires t < |s.threads| && 0 <= s.nTotal && 0 <= s.nIdle
  {
    if ReturnsNow(s, t) then
      s.(nTotal := s.nTotal - 1, fAllOk := true).With(t, Outside)
    else if s.queue == [] then
      s.(nIdle := s.nIdle + 1).With(t, Sleeping)
    else
      ClaimBatch(s, t, Min(BatchCount(s), |s.queue|))
  }

  function ClaimBatch(s: State, t: nat, n: nat): State
    requires t < |s.threads| && n <= |s.queue|
  {
    s.(queue := s.queue[..|s.queue| - n]).With(t, Working(Popped(s.queue, n), 0, s.fAllOk))
  }

  /** Which workers notify_one or notify_all may release. */
  ghost predicate Notified(s: State, checks: seq<Check>, woken: set<nat>) {
    var sleeping := set t | 1 <= t < |s.threads| && s.threads[t].Sleeping?;
    && woken <= sleeping
    && (|checks| == 0 ==> woken == {})
    && (|checks| == 1 ==> |woken| == if sleeping == {} then 0 else 1)
    && (|checks| > 1 ==> woken == sleeping)
  }

  ghost predicate Enabled(s: State, e: Event) {
    && 0 < |s.threads|
    && match e
       case Start(t) => 0 < t < |s.threads| && s.threads[t].Outside?
       case CallWait => s.threads[0].Outside?
       case Add(checks, woken) => s.threads[0].Outside? && Notified(s, checks, woken)
       case Lock(t) => t < |s.threads| && s.threads[t].AtLock() && 0 <= Prelude(s, t).nTotal && 0 <= Prelude(s, t).nIdle
       case Execute(t) => t < |s.threads| && s.threads[t].Working? && s.threads[t].next < |s.threads[t].batch|
       case SpuriousWake(t) => t < |s.threads| && s.threads[t].Sleeping?
  }

  function Wake(ts: seq<Phase>, woken: set<nat>): (r: seq<Phase>) {
    seq(|ts|, i requires 0 <= i < |ts| => if i in woken then Signalled else ts[i])
  }

  ghost function Step(s: State, e: Event): State
    requires Enabled(s, e)
  {
    match e
    case Start(t) => s.With(t, Entering)
    case CallWait => s.With(0, Entering)
    case Add(checks, woken) =>
      s.(queue := s.queue + checks, nTodo := s.nTodo + |checks|, threads := Wake(s.threads, woken))
    case Lock(t) => Proceed(Prelude(s, t), t)
    case Execute(t) =>
      var w := s.threads[t];
      s.With(t, w.(next := w.next + 1, fOk := w.fOk && w.batch[w.next].ok))
    case SpuriousWake(t) => s.With(t, Signalled)
  }

  /** What `Wait` returns in this event, if it returns. */
  ghost function Returned(s: State, e: Event): Option<bool>
    requires Enabled(s, e)
  {
    if e.Lock? && ReturnsNow(Prelude(s, e.t), e.t) then Some(Prelude(s, e.t).fAllOk) else None
  }

  /** The batch claimed in this event, if any. */
  ghost function Claimed(s: State, e: Event): seq<Check>
    requires Enabled(s, e)
  {
    if e.Lock? then Step(s, e).threads[e.t].Batch() else []
  }

  // ------------------------------------------------------------------- histories

  ghost predicate Runs(s0: State, trace: seq<Event>) {
    trace == [] ||
    (var k := |trace| - 1; Runs(s0, trace[..k]) && Enabled(After(s0, trace[..k]), trace[k]))
  }

  ghost function After(s0: State, trace: seq<Event>): State {
    if trace == [] then s0
    else
      var k := |trace| - 1;
      var s := After(s0, trace[..k]);
      if Enabled(s, trace[k]) then Step(s, trace[k]) else s
  }

  /** All checks handed to `Add` since the last return of `Wait`, read off the trace. */
  ghost function AddedSince(s0: State, trace: seq<Event>): seq<Check>
    requires Runs(s0, trace)
  {
    if trace == [] then []
    else
      var k := |trace| - 1;
      if Returned(After(s0, trace[..k]), trace[k]).Some? then []
      else AddedSince(s0, trace[..k]) + AddedBy(trace[k])
  }

  /** All checks taken into some thread's batch since the last return of `Wait`. */
  ghost function ClaimedSince(s0: State, trace: seq<Event>): seq<Check>
    requires Runs(s0, trace)
  {
    if trace == [] then []
    else
      var k := |trace| - 1;
      if Returned(After(s0, trace[..k]), trace[k]).Some? then []
      else ClaimedSince(s0, trace[..k]) + Claimed(After(s0, trace[..k]), trace[k])
  }

  predicate AllTrue(cs: seq<Check>) { forall c | c in cs :: c.ok }

  // ------------------------------------------------------- sums over all threads

  ghost function Held(ts: seq<Phase>): multiset<Check> {
    if ts == [] then multiset{} else multiset(ts[0].Batch()) + Held(ts[1..])
  }

  ghost function IdleCount(ts: seq<Phase>): nat {
    if ts == [] then 0 else (if ts[0].Idle() then 1 else 0) + IdleCount(ts[1..])
  }

  ghost function LoopCount(ts: seq<Phase>): nat {
    if ts == [] then 0 else (if ts[0].InLoop() then 1 else 0) + LoopCount(ts[1..])
  }

  ghost function WeightSum(ts: seq<Phase>): nat {
    if ts == [] then 0 else ts[0].Weight() + WeightSum(ts[1..])
  }

  /** The checks held by all threads but the i-th. */
  ghost function Others(ts: seq<Phase>, i: nat): multiset<Check>
    requires i < |ts|
  {
    Held(ts[i := Outside])
  }

  lemma {:induction false} HeldSplit(ts: seq<Phase>, i: nat)
    requires i < |ts|
    ensures Held(ts) == Others(ts, i) + multiset(ts[i].Batch())
  {
    var us := ts[i := Outside];
    var b := multiset(ts[i].Batch());
    if i == 0 {
      assert us[1..] == ts[1..];
      assert Held(us) == Held(ts[1..]);
    } else {
      assert us[1..] == ts[1..][i - 1 := Outside];
      HeldSplit(ts[1..], i - 1);
      var b0 := multiset(ts[0].Batch());
      assert Held(ts) == b0 + (Held(us[1..]) + b);
      assert b0 + (Held(us[1..]) + b) == (b0 + Held(us[1..])) + b;
    }
  }

  lemma HeldUpdate(ts: seq<Phase>, i: nat, p: Phase)
    requires i < |ts|
    ensures Others(ts[i := p], i) == Others(ts, i)
    ensures Held(ts[i := p]) == Others(ts, i) + multiset(p.Batch())
  {
    var us := ts[i := p];
    assert us[i := Outside] == ts[i := Outside];
    HeldSplit(us, i);
  }

  lemma {:induction false} CountsUpdate(ts: seq<Phase>, i: nat, p: Phase)
    requires i < |ts|
    ensures IdleCount(ts[i := p]) + (if ts[i].Idle() then 1 else 0) == IdleCount(ts) + (if p.Idle() then 1 else 0)
    ensures LoopCount(ts[i := p]) + (if ts[i].InLoop() then 1 else 0) == LoopCount(ts) + (if p.InLoop() then 1 else 0)
    ensures WeightSum(ts[i := p]) + ts[i].Weight() == WeightSum(ts) + p.Weight()
  {
    var us := ts[i := p];
    if i == 0 {
      assert us[1..] == ts[1..];
    } else {
      assert us[1..] == ts[1..][i - 1 := p];
      CountsUpdate(ts[1..], i - 1, p);
    }
  }

  /** Replacing a phase that holds the same checks changes no batch total. */
  lemma HeldSame(ts: seq<Phase>, i: nat, p: Phase)
    requires i < |ts| && p.Batch() == ts[i].Batch()
    ensures Held(ts[i := p]) == Held(ts)
  {
    HeldSplit(ts, i);
    HeldUpdate(ts, i, p);
  }

  lemma {:induction false} SumsSame(ts: seq<Phase>, us: seq<Phase>)
    requires |ts| == |us|
    requires forall i | 0 <= i < |ts| :: us[i] == ts[i] || (ts[i].Sleeping? && us[i].Signalled?)
    ensures Held(us) == Held(ts) && IdleCount(us) == IdleCount(ts) && LoopCount(us) == LoopCount(ts)
  {
    if ts != [] {
      SumsSame(ts[1..], us[1..]);
    }
  }

  lemma {:induction false} SumsOutside(ts: seq<Phase>)
    requires forall i | 0 <= i < |ts| :: ts[i].Outside?
    ensures Held(ts) == multiset{} && IdleCount(ts) == 0 && LoopCount(ts) == 0
  {
    if ts != [] {
      SumsOutside(ts[1..]);
    }
  }

  lemma {:induction false} HolderOf(ts: seq<Phase>) returns (i: nat)
    requires Held(ts) != multiset{}
    ensures i < |ts| && |ts[i].Batch()| > 0
  {
    if |ts[0].Batch()| > 0 {
      i := 0;
    } else {
      assert Held(ts) == Held(ts[1..]);
      var j := HolderOf(ts[1..]);
      i := j + 1;
    }
  }

  // ------------------------------------------------------------------- invariant

  /** The counters agree with where the threads are, and the master is never left
      sleeping while nobody works. */
  ghost predicate Inv(s: State) {
    && 0 < |s.threads|
    && s.nIdle == IdleCount(s.threads)
    && s.nTotal == LoopCount(s.threads)
    && s.nTodo == |s.queue| + |Held(s.threads)|
    && (forall i | 0 <= i < |s.threads| && s.threads[i].Working? ::
          0 < |s.threads[i].batch| && s.threads[i].next <= |s.threads[i].batch|)
    && (s.threads[0].Sleeping? ==> s.queue == [] && s.nTodo != 0)
  }

  /** The flags agree with the checks added and claimed since the last `Wait`. */
  ghost predicate Tracks(s: State, added: seq<Check>, claimed: seq<Check>) {
    && multiset(added) == multiset(s.queue) + multiset(claimed)
    && Verdict(s.fAllOk, Held(s.threads), added, claimed)
    && BatchesTrack(s.threads, |s.threads|, added)
  }

  /** `fAllOk` speaks for all claimed checks that are no longer in a batch. */
  ghost predicate Verdict(fAllOk: bool, held: multiset<Check>, added: seq<Check>, claimed: seq<Check>) {
    && held <= multiset(claimed)
    && (fAllOk ==> forall c | c in multiset(claimed) - held :: c.ok)
    && (!fAllOk ==> !AllTrue(added))
  }

  /** Every batch but that of thread `t` tells the truth about itself. */
  ghost predicate BatchesTrack(ts: seq<Phase>, t: nat, added: seq<Check>) {
    forall i | 0 <= i < |ts| && i != t && ts[i].Working? :: BatchTracks(ts[i], added)
  }

  ghost predicate BatchTracks(w: Phase, added: seq<Check>)
    requires w.Working?
  {
    if w.fOk then forall j | 0 <= j < w.next && j < |w.batch| :: w.batch[j].ok else !AllTrue(added)
  }

  lemma InitInv(workers: nat, batchSize: nat)
    ensures Inv(Init(workers, batchSize)) && Tracks(Init(workers, batchSize), [], [])
  {
    SumsOutside(Init(workers, batchSize).threads);
  }

  // ------------------------------------------------ one critical section of Loop

  /** A batch has at least one check and never more than the queue holds. */
  lemma ClaimSize(s: State)
    requires 0 <= s.nTotal && 0 <= s.nIdle && s.queue != []
    ensures 1 <= BatchCount(s) <= |s.queue|
    ensures BatchCount(s) <= Max(1, s.nBatchSize)
  {
    var d := s.nTotal + s.nIdle + 1;
    DivLe(|s.queue|, d);
  }

  /** Beyond one it is the largest within the batch size that leaves as much to each of the
      others, working or about to. */
  lemma ClaimShare(s: State)
    requires 0 <= s.nTotal && 0 <= s.nIdle && s.queue != []
    ensures BatchCount(s) > 1 ==> BatchCount(s) * (s.nTotal + s.nIdle + 1) <= |s.queue|
    ensures BatchCount(s) >= s.nBatchSize || |s.queue| < (BatchCount(s) + 1) * (s.nTotal + s.nIdle + 1)
  {
    Shares(|s.queue|, s.nTotal + s.nIdle + 1, BatchCount(s));
  }

  lemma Shares(q: nat, d: int, n: int)
    requires d >= 1
    ensures n <= q / d ==> n * d <= q
    ensures n >= q / d ==> q < (n + 1) * d
  {
    var k := q / d;
    assert q == k * d + q % d;
    if n <= k {
      assert n * d <= k * d;
    }
    if n >= k {
      assert (n + 1) * d >= (k + 1) * d;
    }
  }

  lemma DivLe(q: nat, d: int)
    requires d >= 1
    ensures 0 <= q / d <= q
  {
    MulGe(d, q / d);
  }

  lemma MulGe(d: int, k: int)
    requires d >= 1
    ensures k >= 0 ==> d * k >= k
  {
  }

  lemma PoppedAll(queue: seq<Check>, n: nat)
    requires n <= |queue|
    ensures multiset(queue) == multiset(queue[..|queue| - n]) + multiset(Popped(queue, n))
    decreases n
  {
    if n == 0 {
      assert queue[..|queue|] == queue;
      assert Popped(queue, 0) == [];
    } else {
      var m := |queue| - n;
      PoppedAll(queue, n - 1);
      assert queue[..m + 1] == queue[..m] + [queue[m]];
      assert Popped(queue, n) == Popped(queue, n - 1) + [queue[m]];
    }
  }

  /** The state between the two parts of the critical section: thread t is inside
      Loop and awake, but its batch no longer counts. */
  ghost predicate Mid(s: State, t: nat) {
    && t < |s.threads|
    && s.nIdle == IdleCount(s.threads) - (if s.threads[t].Idle() then 1 else 0)
    && s.nTotal == LoopCount(s.threads) + (if s.threads[t].InLoop() then 0 else 1)
    && s.nTodo == |s.queue| + |Others(s.threads, t)|
    && (forall i | 0 <= i < |s.threads| && i != t && s.threads[i].Working? ::
          0 < |s.threads[i].batch| && s.threads[i].next <= |s.threads[i].batch|)
    && (t != 0 && s.threads[0].Sleeping? ==> s.queue == [] && s.nTodo != 0)
  }

  ghost predicate MidTracks(s: State, t: nat, added: seq<Check>, claimed: seq<Check>)
    requires t < |s.threads|
  {
    && multiset(added) == multiset(s.queue) + multiset(claimed)
    && Verdict(s.fAllOk, Others(s.threads, t), added, claimed)
    && BatchesTrack(s.threads, t, added)
  }

  lemma PreludeMid(s: State, t: nat)
    requires Inv(s) && t < |s.threads| && s.threads[t].AtLock()
    ensures Mid(Prelude(s, t), t)
    ensures 0 <= Prelude(s, t).nTotal && 0 <= Prelude(s, t).nIdle
    ensures Prelude(s, t).threads[t] == s.threads[t]
    ensures Prelude(s, t).queue == s.queue
    ensures Others(Prelude(s, t).threads, t) == Others(s.threads, t)
    ensures WeightSum(Prelude(s, t).threads) <= WeightSum(s.threads) + if s.threads[t].Working? then 1 else 0
  {
    HeldSplit(s.threads, t);
    CountsUpdate(s.threads, t, Outside);
    var r := Prelude(s, t);
    if r.threads != s.threads {
      CountsUpdate(s.threads, 0, Signalled);
      var us := s.threads[t := Outside];
      HeldSame(us, 0, Signalled);
      assert us[0 := Signalled] == r.threads[t := Outside];
    }
  }

  lemma PreludeTracks(s: State, t: nat, added: seq<Check>, claimed: seq<Check>)
    requires Inv(s) && t < |s.threads| && s.threads[t].AtLock()
    requires Tracks(s, added, claimed)
    ensures MidTracks(Prelude(s, t), t, added, claimed)
  {
    PreludeMid(s, t);
    HeldSplit(s.threads, t);
    var w := s.threads[t];
    VerdictRelease(s.fAllOk, Others(s.threads, t), w.Batch(), !w.Working? || w.fOk, added, claimed);
  }

  /** Releasing a finished batch folds its result into the verdict. */
  lemma VerdictRelease(fAllOk: bool, others: multiset<Check>, batch: seq<Check>, fOk: bool, added: seq<Check>,
      claimed: seq<Check>)
    requires Verdict(fAllOk, others + multiset(batch), added, claimed)
    requires if fOk then AllTrue(batch) else !AllTrue(added)
    ensures Verdict(fAllOk && fOk, others, added, claimed)
  {
    SumLe(others, multiset(batch), multiset(claimed));
    if fAllOk && fOk {
      forall c | c in multiset(claimed) - others ensures c.ok {
        if c !in multiset(claimed) - (others + multiset(batch)) {
          assert c in multiset(batch);
        }
      }
    }
  }

  lemma SumLe(a: multiset<Check>, b: multiset<Check>, c: multiset<Check>)
    requires a + b <= c
    ensures a <= c
  {
    forall x ensures a[x] <= c[x] {
      assert a[x] <= (a + b)[x] <= c[x];
    }
  }

  lemma ClaimInv(s: State, t: nat, n: nat)
    requires Mid(s, t) && 1 <= n <= |s.queue|
    ensures Inv(ClaimBatch(s, t, n))
  {
    var r := ClaimBatch(s, t, n);
    HeldUpdate(s.threads, t, r.threads[t]);
    CountsUpdate(s.threads, t, r.threads[t]);
  }

  lemma SleepInv(s: State, t: nat)
    requires Mid(s, t) && s.queue == [] && !ReturnsNow(s, t)
    ensures Inv(s.(nIdle := s.nIdle + 1).With(t, Sleeping))
  {
    HeldUpdate(s.threads, t, Sleeping);
    CountsUpdate(s.threads, t, Sleeping);
  }

  lemma LeaveInv(s: State)
    requires Mid(s, 0) && ReturnsNow(s, 0)
    ensures Inv(s.(nTotal := s.nTotal - 1, fAllOk := true).With(0, Outside))
  {
    HeldUpdate(s.threads, 0, Outside);
    CountsUpdate(s.threads, 0, Outside);
  }

  lemma ProceedInv(s: State, t: nat)
    requires Mid(s, t) && 0 <= s.nTotal && 0 <= s.nIdle
    ensures Inv(Proceed(s, t))
  {
    if ReturnsNow(s, t) {
      LeaveInv(s);
    } else if s.queue == [] {
      SleepInv(s, t);
    } else {
      ClaimSize(s);
      ClaimInv(s, t, BatchCount(s));
    }
  }

  lemma ClaimTracks(s: State, t: nat, n: nat, added: seq<Check>, claimed: seq<Check>)
    requires t < |s.threads| && 1 <= n <= |s.queue|
    requires MidTracks(s, t, added, claimed)
    ensures Tracks(ClaimBatch(s, t, n), added, claimed + Popped(s.queue, n))
  {
    var r := ClaimBatch(s, t, n);
    var batch := Popped(s.queue, n);
    HeldUpdate(s.threads, t, r.threads[t]);
    VerdictClaim(s.fAllOk, Others(s.threads, t), batch, added, claimed);
    PoppedAll(s.queue, n);
    Rebalance(s.queue, r.queue, batch, added, claimed);
  }

  lemma Rebalance(before: seq<Check>, after: seq<Check>, batch: seq<Check>, added: seq<Check>, claimed: seq<Check>)
    requires multiset(before) == multiset(after) + multiset(batch)
    requires multiset(added) == multiset(before) + multiset(claimed)
    ensures multiset(added) == multiset(after) + multiset(claimed + batch)
  {
    assert multiset(claimed + batch) == multiset(claimed) + multiset(batch);
  }

  lemma VerdictClaim(fAllOk: bool, others: multiset<Check>, batch: seq<Check>, added: seq<Check>, claimed: seq<Check>)
    requires Verdict(fAllOk, others, added, claimed)
    ensures Verdict(fAllOk, others + multiset(batch), added, claimed + batch)
  {
    assert multiset(claimed + batch) == multiset(claimed) + multiset(batch);
    MoveIn(others, multiset(claimed), multiset(batch));
  }

  lemma ProceedTracks(s: State, t: nat, added: seq<Check>, claimed: seq<Check>)
    requires Mid(s, t) && 0 <= s.nTotal && 0 <= s.nIdle
    requires !ReturnsNow(s, t)
    requires MidTracks(s, t, added, claimed)
    ensures Tracks(Proceed(s, t), added, claimed + Proceed(s, t).threads[t].Batch())
  {
    if s.queue != [] {
      ClaimSize(s);
      ClaimTracks(s, t, BatchCount(s), added, claimed);
    } else {
      HeldUpdate(s.threads, t, Sleeping);
      assert claimed + [] == claimed;
    }
  }

  lemma MoveIn(a: multiset<Check>, c: multiset<Check>, b: multiset<Check>)
    requires a <= c
    ensures a + b <= c + b
    ensures (c + b) - (a + b) == c - a
  {
    forall x ensures (a + b)[x] <= (c + b)[x] && ((c + b) - (a + b))[x] == (c - a)[x] {
      assert a[x] <= c[x];
    }
  }

  // ------------------------------------------------------------------ every event

  lemma StepInv(s: State, e: Event)
    requires Inv(s) && Enabled(s, e)
    ensures Inv(Step(s, e))
  {
    match e {
      case Add(checks, woken) => SumsSame(s.threads, Step(s, e).threads);
      case Lock(t) =>
        PreludeMid(s, t);
        ProceedInv(Prelude(s, t), t);
      case _ => QuietInv(s, e);
    }
  }

  /** A thread may change phase without leaving Loop, dropping its batch or
      falling asleep. */
  ghost predicate Keeps(p: Phase, q: Phase) {
    && q.Batch() == p.Batch() && (q.Idle() <==> p.Idle()) && (q.InLoop() <==> p.InLoop()) && !q.Sleeping?
    && (q.Working? ==> q.next <= |q.batch|)
  }

  lemma WithInv(s: State, t: nat, p: Phase)
    requires Inv(s) && t < |s.threads| && Keeps(s.threads[t], p)
    ensures Inv(s.With(t, p))
  {
    HeldSame(s.threads, t, p);
    CountsUpdate(s.threads, t, p);
  }

  lemma QuietInv(s: State, e: Event)
    requires Inv(s) && Enabled(s, e) && !e.Add? && !e.Lock?
    ensures Inv(Step(s, e))
  {
    var t := if e.CallWait? then 0 else e.t;
    WithInv(s, t, Step(s, e).threads[t]);
  }

  /** The events that move one thread without touching the queue or any batch. */
  lemma QuietUpdate(s: State, e: Event)
    requires Enabled(s, e) && !e.Add? && !e.Lock?
    ensures Held(Step(s, e).threads) == Held(s.threads)
    ensures e.Execute? ==> WeightSum(Step(s, e).threads) < WeightSum(s.threads)
  {
    var t := if e.CallWait? then 0 else e.t;
    var p := Step(s, e).threads[t];
    HeldSame(s.threads, t, p);
    CountsUpdate(s.threads, t, p);
  }

  lemma MoreAdded(added: seq<Check>, more: seq<Check>)
    requires !AllTrue(added)
    ensures !AllTrue(added + more)
  {
    var c :| c in added && !c.ok;
    assert c in added + more;
  }

  function AddedBy(e: Event): seq<Check> { if e.Add? then e.checks else [] }

  lemma StepTracks(s: State, e: Event, added: seq<Check>, claimed: seq<Check>)
    requires Inv(s) && Enabled(s, e) && Tracks(s, added, claimed)
    ensures Returned(s, e).None? ==> Tracks(Step(s, e), added + AddedBy(e), claimed + Claimed(s, e))
    ensures Returned(s, e).Some? ==> Tracks(Step(s, e), [], [])
  {
    assert added + [] == added && claimed + [] == claimed;
    match e {
      case Add(checks, woken) => AddTracks(s, checks, woken, added, claimed);
      case Lock(t) => LockTracks(s, t, added, claimed);
      case Execute(t) => ExecuteTracks(s, t, added, claimed);
      case _ => MoveTracks(s, e, added, claimed);
    }
  }

  lemma AddTracks(s: State, checks: seq<Check>, woken: set<nat>, added: seq<Check>, claimed: seq<Check>)
    requires Enabled(s, Add(checks, woken)) && Tracks(s, added, claimed)
    ensures Tracks(Step(s, Add(checks, woken)), added + checks, claimed)
  {
    var r := Step(s, Add(checks, woken));
    SumsSame(s.threads, r.threads);
    assert multiset(added + checks) == multiset(r.queue) + multiset(claimed);
    if !AllTrue(added) {
      MoreAdded(added, checks);
    }
  }

  /** Start, CallWait and SpuriousWake. */
  lemma MoveTracks(s: State, e: Event, added: seq<Check>, claimed: seq<Check>)
    requires Enabled(s, e) && !e.Add? && !e.Lock? && !e.Execute? && Tracks(s, added, claimed)
    ensures Tracks(Step(s, e), added, claimed)
  {
    QuietUpdate(s, e);
  }

  lemma LockTracks(s: State, t: nat, added: seq<Check>, claimed: seq<Check>)
    requires Inv(s) && Enabled(s, Lock(t)) && Tracks(s, added, claimed)
    ensures Returned(s, Lock(t)).None? ==> Tracks(Step(s, Lock(t)), added, claimed + Claimed(s, Lock(t)))
    ensures Returned(s, Lock(t)).Some? ==> Tracks(Step(s, Lock(t)), [], [])
  {
    PreludeMid(s, t);
    PreludeTracks(s, t, added, claimed);
    var m := Prelude(s, t);
    if ReturnsNow(m, t) {
      ReturnEmpties(m);
    } else {
      ProceedTracks(m, t, added, claimed);
    }
  }

  lemma ExecuteTracks(s: State, t: nat, added: seq<Check>, claimed: seq<Check>)
    requires Inv(s) && Enabled(s, Execute(t)) && Tracks(s, added, claimed)
    ensures Tracks(Step(s, Execute(t)), added, claimed)
  {
    QuietUpdate(s, Execute(t));
    var c := s.threads[t].batch[s.threads[t].next];
    if !c.ok {
      HeldSplit(s.threads, t);
      assert c in multiset(s.threads[t].batch);
      assert c in Held(s.threads);
      assert c in multiset(claimed);
      assert c in multiset(added);
    }
  }

  /** When the master returns, no thread holds a batch. */
  lemma ReturnEmpties(m: State)
    requires Mid(m, 0) && ReturnsNow(m, 0)
    ensures Others(m.threads, 0) == multiset{}
    ensures forall i | 0 < i < |m.threads| :: !m.threads[i].Working?
  {
    var us := m.threads[0 := Outside];
    forall i | 0 < i < |m.threads| ensures !m.threads[i].Working? {
      HeldSplit(us, i);
      assert us[i] == m.threads[i];
    }
  }

  // --------------------------------------------------------------------- theorems

  /** Every reachable state satisfies the invariant, whatever the interleaving. */
  lemma {:induction false} RunInv(workers: nat, batchSize: nat, trace: seq<Event>)
    requires Runs(Init(workers, batchSize), trace)
    ensures Inv(After(Init(workers, batchSize), trace))
    ensures var s0 := Init(workers, batchSize);
            Tracks(After(s0, trace), AddedSince(s0, trace), ClaimedSince(s0, trace))
  {
    var s0 := Init(workers, batchSize);
    if trace == [] {
      InitInv(workers, batchSize);
    } else {
      var k := |trace| - 1;
      RunInv(workers, batchSize, trace[..k]);
      var s := After(s0, trace[..k]);
      StepInv(s, trace[k]);
      StepTracks(s, trace[k], AddedSince(s0, trace[..k]), ClaimedSince(s0, trace[..k]));
    }
  }

  /** In every interleaving, `Wait` returns true exactly when every check added
      since the previous `Wait` is true, and by then every added check has been
      claimed exactly once. */
  lemma {:induction false} WaitReturnsConjunction(workers: nat, batchSize: nat, trace: seq<Event>, e: Event)
    requires Runs(Init(workers, batchSize), trace)
    requires Enabled(After(Init(workers, batchSize), trace), e)
    requires Returned(After(Init(workers, batchSize), trace), e).Some?
    ensures var s0 := Init(workers, batchSize);
            && Returned(After(s0, trace), e) == Some(AllTrue(AddedSince(s0, trace)))
            && multiset(ClaimedSince(s0, trace)) == multiset(AddedSince(s0, trace))
  {
    var s0 := Init(workers, batchSize);
    var s := After(s0, trace);
    var added, claimed := AddedSince(s0, trace), ClaimedSince(s0, trace);
    RunInv(workers, batchSize, trace);
    PreludeMid(s, 0);
    PreludeTracks(s, 0, added, claimed);
    var m := Prelude(s, 0);
    ReturnEmpties(m);
    assert multiset(added) == multiset(claimed);
    if m.fAllOk {
      forall c | c in added ensures c.ok {
        assert c in multiset(added);
        assert c in multiset(claimed) - Others(m.threads, 0);
      }
    }
  }

  /** No lost wake-up: whenever the master sleeps un-notified, some worker still
      holds a non-empty batch, so its clean-up is yet to come. */
  lemma MasterNeverStranded(workers: nat, batchSize: nat, trace: seq<Event>) returns (t: nat)
    requires Runs(Init(workers, batchSize), trace)
    requires var s := After(Init(workers, batchSize), trace); 0 < |s.threads| && s.threads[0].Sleeping?
    ensures var s := After(Init(workers, batchSize), trace);
            0 < t < |s.threads| && s.threads[t].Working? && 0 < |s.threads[t].batch|
  {
    RunInv(workers, batchSize, trace);
    t := HolderOf(After(Init(workers, batchSize), trace).threads);
  }

  // ------------------------------------------------------------- Wait terminates

  /** Work left: queued checks, checks left in batches, and threads awake in Loop. */
  ghost function Measure(s: State): nat { 3 * |s.queue| + WeightSum(s.threads) }

  predicate Internal(e: Event) { e.Lock? || e.Execute? }

  lemma InternalDecreases(s: State, e: Event)
    requires Inv(s) && Enabled(s, e) && Internal(e)
    ensures Measure(Step(s, e)) < Measure(s)
  {
    if e.Execute? {
      QuietUpdate(s, e);
    } else {
      var t := e.t;
      PreludeMid(s, t);
      var m := Prelude(s, t);
      CountsUpdate(m.threads, t, Step(s, e).threads[t]);
      if m.queue != [] {
        ClaimSize(m);
      }
    }
  }

  /** While the master is inside `Wait`, some thread can move without any spurious
      wake-up. */
  lemma WaitProgress(workers: nat, batchSize: nat, trace: seq<Event>) returns (e: Event)
    requires Runs(Init(workers, batchSize), trace)
    requires var s := After(Init(workers, batchSize), trace); 0 < |s.threads| && !s.threads[0].Outside?
    ensures Internal(e) && Enabled(After(Init(workers, batchSize), trace), e)
  {
    RunInv(workers, batchSize, trace);
    var s := After(Init(workers, batchSize), trace);
    var t := 0;
    if s.threads[0].Sleeping? {
      t := MasterNeverStranded(workers, batchSize, trace);
    }
    if s.threads[t].AtLock() {
      PreludeMid(s, t);
      e := Lock(t);
    } else {
      e := Execute(t);
    }
  }

  /** A schedule of internal events alone is no longer than the measure. */
  lemma {:induction false} InternalRunBounded(s: State, trace: seq<Event>)
    requires Inv(s) && Runs(s, trace)
    requires forall i | 0 <= i < |trace| :: Internal(trace[i])
    ensures Inv(After(s, trace)) && |trace| + Measure(After(s, trace)) <= Measure(s)
  {
    if trace != [] {
      var k := |trace| - 1;
      InternalRunBounded(s, trace[..k]);
      StepInv(After(s, trace[..k]), trace[k]);
      InternalDecreases(After(s, trace[..k]), trace[k]);
    }
  }

  lemma {:induction false} RunOn(s: State, a: seq<Event>, b: seq<Event>)
    requires Runs(s, a + b)
    ensures Runs(s, a) && Runs(After(s, a), b) && After(s, a + b) == After(After(s, a), b)
    decreases |b|
  {
    if b == [] {
      assert a + b == a;
    } else {
      var k := |b| - 1;
      assert (a + b)[..|a| + k] == a + b[..k];
      RunOn(s, a, b[..k]);
    }
  }

  /** `Wait` returns: threads that keep moving stop after at most Measure steps, and when
      none of them can move any more the master is outside. */
  lemma {:induction false} WaitReturns(workers: nat, batchSize: nat, trace: seq<Event>, more: seq<Event>)
    requires Runs(Init(workers, batchSize), trace + more)
    requires forall i | 0 <= i < |more| :: Internal(more[i])
    requires forall e | Internal(e) :: !Enabled(After(Init(workers, batchSize), trace + more), e)
    ensures Runs(Init(workers, batchSize), trace)
    ensures |more| <= Measure(After(Init(workers, batchSize), trace))
    ensures var r := After(Init(workers, batchSize), trace + more); 0 < |r.threads| ==> r.threads[0].Outside?
  {
    var s0 := Init(workers, batchSize);
    RunOn(s0, trace, more);
    RunInv(workers, batchSize, trace);
    InternalRunBounded(After(s0, trace), more);
    var r := After(s0, trace + more);
    if 0 < |r.threads| && !r.threads[0].Outside? {
      var e := WaitProgress(workers, batchSize, trace + more);
      assert false;
    }
  }
}
