/**
 * The daemon's thread pool (native/src/core/thread.rs): one task slot, two
 * condition variables and a set of worker threads.
 *
 * Every stretch of code that runs under the pool's lock is one atomic event.
 * The scheduler also has events of its own: an idle wait may time out, and any
 * wait may wake up without being notified. Which waiter a `notify_one` wakes
 * is up to the scheduler, so the choice is part of the event.
 */
module ThreadPools {
  import opened Options

  const CORE_POOL_SIZE: int := 3

  // A task is named after the call of exec_task that brought it.
  type Task = nat

  /** Where a worker stands in pool_loop. A worker that returned is gone from the map. */
  datatype WorkerState =
    | Starting               // spawned, has not reached the lock yet
    | Waiting                // asleep on task_is_some
    | Notified               // woken from task_is_some, wants the lock back
    | TimedOut               // its idle timeout fired, wants the lock back
    | Running(job: Option<Task>)  // outside the lock, with what it took

  datatype Worker = Worker(core: bool, state: WorkerState)

  /** Where a call of exec_task stands before it has placed its task. */
  datatype Submitter =
    | Arriving  // wants the lock
    | Blocked   // asleep on task_is_none
    | Woken     // woken from task_is_none, wants the lock back

  datatype Pool = Pool(
    idle: int,
    total: int,
    slot: Option<Task>,
    workers: map<nat, Worker>,
    submitters: map<Task, Submitter>,
    called: set<Task>,    // every call of exec_task so far
    placed: seq<Task>,    // tasks in the order they entered the slot
    taken: seq<Task>      // tasks in the order workers took them
  )

  const INITIAL: Pool := Pool(0, 0, None, map[], map[], {}, [], [])

  datatype Event =
    | Call(s: Task)
    | Submit(s: Task, wakeWorker: Option<nat>, tid: nat)
    | Enter(t: nat, wakeSubmitter: Option<Task>)
    | Resume(t: nat, wakeSubmitter: Option<Task>)
    | Expire(t: nat)
    | IdleTimeout(t: nat)
    | SpuriousWorker(t: nat)
    | SpuriousSubmitter(s: Task)

  predicate InWait(w: Worker) {
    w.state.Waiting? || w.state.Notified? || w.state.TimedOut?
  }

  /** A worker that will come to the slot without anybody waking it. */
  predicate Awake(w: Worker) {
    w.state.Starting? || w.state.Notified? || w.state.Running?
  }

  function Idlers(ws: map<nat, Worker>): set<nat> {
    set t | t in ws && InWait(ws[t])
  }

  function Cores(ws: map<nat, Worker>): set<nat> {
    set t | t in ws && ws[t].core
  }

  /** notify_one on task_is_some: some sleeping worker if there is one, else nobody. */
  predicate WakesWorker(ws: map<nat, Worker>, choice: Option<nat>) {
    match choice
    case Some(t) => t in ws && ws[t].state.Waiting?
    case None => forall t :: t in ws ==> !ws[t].state.Waiting?
  }

  /** notify_one on task_is_none. */
  predicate WakesSubmitter(ss: map<Task, Submitter>, choice: Option<Task>) {
    match choice
    case Some(s) => s in ss && ss[s].Blocked?
    case None => forall s :: s in ss ==> !ss[s].Blocked?
  }

  function SetState(ws: map<nat, Worker>, t: nat, st: WorkerState): map<nat, Worker>
    requires t in ws
  {
    ws[t := ws[t].(state := st)]
  }

  function NotifyWorker(ws: map<nat, Worker>, choice: Option<nat>): map<nat, Worker>
    requires WakesWorker(ws, choice)
  {
    if choice.None? then ws else SetState(ws, choice.value, Notified)
  }

  function NotifySubmitter(ss: map<Task, Submitter>, choice: Option<Task>): map<Task, Submitter>
    requires WakesSubmitter(ss, choice)
  {
    if choice.None? then ss else ss[choice.value := Woken]
  }

  predicate Enabled(p: Pool, e: Event) {
    match e
    case Call(s) => s !in p.called
    case Submit(s, choice, tid) =>
      && s in p.submitters && !p.submitters[s].Blocked?
      && tid !in p.workers
      && (p.slot.None? && p.idle != 0 ==> WakesWorker(p.workers, choice))
    case Enter(t, choice) =>
      && t in p.workers && (p.workers[t].state.Starting? || p.workers[t].state.Running?)
      && (p.slot.Some? ==> WakesSubmitter(p.submitters, choice))
    case Resume(t, choice) =>
      && t in p.workers && p.workers[t].state.Notified?
      && WakesSubmitter(p.submitters, choice)
    case Expire(t) => t in p.workers && p.workers[t].state.TimedOut?
    case IdleTimeout(t) => t in p.workers && p.workers[t].state.Waiting? && !p.workers[t].core
    case SpuriousWorker(t) => t in p.workers && p.workers[t].state.Waiting?
    case SpuriousSubmitter(s) => s in p.submitters && p.submitters[s].Blocked?
  }

  /** `task.take()`, then `notify_one` on task_is_none, by a worker counted as idle. */
  function Take(p: Pool, t: nat, choice: Option<Task>): Pool
    requires t in p.workers && WakesSubmitter(p.submitters, choice)
  {
    p.(idle := p.idle - 1,
       slot := None,
       workers := SetState(p.workers, t, Running(p.slot)),
       submitters := NotifySubmitter(p.submitters, choice),
       taken := if p.slot.Some? then p.taken + [p.slot.value] else p.taken)
  }

  function Step(p: Pool, e: Event): Pool
    requires Enabled(p, e)
  {
    match e
    case Call(s) => p.(submitters := p.submitters[s := Arriving], called := p.called + {s})
    case Submit(s, choice, tid) =>
      if p.slot.Some? then
        p.(submitters := p.submitters[s := Blocked])
      else
        var q := p.(slot := Some(s), submitters := p.submitters - {s}, placed := p.placed + [s]);
        if p.idle == 0 then
          q.(total := p.total + 1,
             workers := p.workers[tid := Worker(p.total + 1 <= CORE_POOL_SIZE, Starting)])
        else
          q.(workers := NotifyWorker(p.workers, choice))
    case Enter(t, choice) =>
      var q := p.(idle := p.idle + 1);
      if p.slot.None? then q.(workers := SetState(p.workers, t, Waiting)) else Take(q, t, choice)
    case Resume(t, choice) => Take(p, t, choice)
    case Expire(t) => p.(idle := p.idle - 1, total := p.total - 1, workers := p.workers - {t})
    case IdleTimeout(t) => p.(workers := SetState(p.workers, t, TimedOut))
    case SpuriousWorker(t) => p.(workers := SetState(p.workers, t, Notified))
    case SpuriousSubmitter(s) => p.(submitters := p.submitters[s := Woken])
  }

  /** The pool after a whole run, or None if some event was not possible. */
  function Exec(p: Pool, run: seq<Event>): Option<Pool>
    decreases |run|
  {
    if run == [] then Some(p)
    else if Enabled(p, run[0]) then Exec(Step(p, run[0]), run[1..])
    else None
  }

  // ---------------------------------------------------------------------
  // What every reachable pool satisfies
  // ---------------------------------------------------------------------

  function Min(a: int, b: int): int { if a < b then a else b }

  /** The two counters are exact, and the first three threads are the core ones. */
  ghost predicate Counted(p: Pool) {
    && p.idle == |Idlers(p.workers)|
    && p.total == |p.workers|
    && |Cores(p.workers)| == Min(CORE_POOL_SIZE, p.total)
  }

  /** Only threads outside the core ever time out. */
  ghost predicate CoreNeverExpires(p: Pool) {
    forall t :: t in p.workers && p.workers[t].state.TimedOut? ==> !p.workers[t].core
  }

  /** A task in the slot has an awake worker that will come for it. */
  ghost predicate TaskAttended(p: Pool) {
    p.slot.Some? ==> exists t :: t in p.workers && Awake(p.workers[t])
  }

  /** When the slot is free and a caller sleeps on it, another one is already woken. */
  ghost predicate SlotOffered(p: Pool) {
    p.slot.None? && (exists s :: s in p.submitters && p.submitters[s].Blocked?)
    ==> exists s :: s in p.submitters && p.submitters[s].Woken?
  }

  function SlotSeq(slot: Option<Task>): seq<Task> {
    if slot.None? then [] else [slot.value]
  }

  ghost predicate NoDuplicates(ts: seq<Task>) {
    forall i, j :: 0 <= i < j < |ts| ==> ts[i] != ts[j]
  }

  /**
   * No task is lost, duplicated, overwritten or reordered: a called task is
   * either still with its caller or was placed exactly once, and the placed tasks
   * are the taken ones, in order, followed by the slot.
   */
  ghost predicate Conserved(p: Pool) {
    && p.placed == p.taken + SlotSeq(p.slot)
    && NoDuplicates(p.placed)
    && (forall s :: s in p.called <==> s in p.submitters || s in p.placed)
    && (forall s :: s in p.submitters ==> s !in p.placed)
  }

  ghost predicate Inv(p: Pool) {
    Counted(p) && CoreNeverExpires(p) && TaskAttended(p) && SlotOffered(p) && Conserved(p)
  }

  // ---------------------------------------------------------------------
  // Preservation, one predicate at a time
  // ---------------------------------------------------------------------

  lemma {:induction false} SetStateSets(ws: map<nat, Worker>, t: nat, st: WorkerState)
    requires t in ws
    ensures Cores(SetState(ws, t, st)) == Cores(ws)
    ensures SetState(ws, t, st).Keys == ws.Keys
    ensures |SetState(ws, t, st)| == |ws|
    ensures Idlers(SetState(ws, t, st))
         == if InWait(Worker(false, st)) then Idlers(ws) + {t} else Idlers(ws) - {t}
  {
    var ws' := SetState(ws, t, st);
    assert ws'.Keys == ws.Keys;
    assert |ws'| == |ws'.Keys| && |ws| == |ws.Keys|;
  }

  /** A state change moves the idle count by one exactly when it enters or leaves the wait. */
  lemma {:induction false} SetStateCounts(p: Pool, t: nat, st: WorkerState)
    requires Counted(p) && t in p.workers
    ensures
      var ws' := SetState(p.workers, t, st);
      && |ws'| == p.total
      && |Cores(ws')| == Min(CORE_POOL_SIZE, p.total)
      && |Idlers(ws')| == p.idle
           + (if InWait(Worker(false, st)) then 1 else 0)
           - (if InWait(p.workers[t]) then 1 else 0)
  {
    SetStateSets(p.workers, t, st);
    if InWait(p.workers[t]) {
      assert t in Idlers(p.workers);
      assert Idlers(p.workers) + {t} == Idlers(p.workers);
    }
  }

  lemma {:induction false} SpawnSets(ws: map<nat, Worker>, tid: nat, core: bool)
    requires tid !in ws
    ensures var after := ws[tid := Worker(core, Starting)];
            && |after| == |ws| + 1 && Idlers(after) == Idlers(ws)
            && |Cores(after)| == |Cores(ws)| + if core then 1 else 0
  {
    var after := ws[tid := Worker(core, Starting)];
    assert after.Keys == ws.Keys + {tid};
    assert Cores(after) == if core then Cores(ws) + {tid} else Cores(ws);
  }

  lemma {:induction false} SpawnCounts(p: Pool, tid: nat)
    requires Counted(p) && tid !in p.workers
    ensures Counted(p.(total := p.total + 1,
                       workers := p.workers[tid := Worker(p.total + 1 <= CORE_POOL_SIZE, Starting)]))
  {
    SpawnSets(p.workers, tid, p.total + 1 <= CORE_POOL_SIZE);
  }

  /** Losing a thread outside the core leaves the core at full strength. */
  lemma {:induction false} ExpireCounts(p: Pool, t: nat)
    requires Counted(p) && CoreNeverExpires(p) && t in p.workers && p.workers[t].state.TimedOut?
    ensures Counted(p.(idle := p.idle - 1, total := p.total - 1, workers := p.workers - {t}))
  {
    var ws' := p.workers - {t};
    assert Idlers(ws') == Idlers(p.workers) - {t} && t in Idlers(p.workers);
    assert Cores(ws') == Cores(p.workers);
    assert ws'.Keys == p.workers.Keys - {t} && |ws'| == |ws'.Keys|;
    CoreOutnumbered(p, t);
  }

  /** A worker outside the core exists only next to a full core. */
  lemma {:induction false} CoreOutnumbered(p: Pool, t: nat)
    requires Counted(p) && t in p.workers && !p.workers[t].core
    ensures |Cores(p.workers)| == CORE_POOL_SIZE < p.total
  {
    assert Cores(p.workers) <= p.workers.Keys - {t};
    SubsetSize(Cores(p.workers), p.workers.Keys - {t});
    assert |p.workers.Keys - {t}| == |p.workers.Keys| - 1 == p.total - 1;
  }

  lemma {:induction false} SubsetSize<T>(a: set<T>, b: set<T>)
    requires a <= b
    ensures |a| <= |b|
  {
    if a != {} {
      var x :| x in a;
      SubsetSize(a - {x}, b - {x});
    }
  }

  lemma {:induction false} StepCounted(p: Pool, e: Event)
    requires Counted(p) && CoreNeverExpires(p) && Enabled(p, e)
    ensures Counted(Step(p, e))
  {
    match e
    case Call(s) =>
    case Submit(s, choice, tid) =>
      if p.slot.None? {
        if p.idle == 0 {
          SpawnCounts(p, tid);
        } else if choice.Some? {
          SetStateCounts(p, choice.value, Notified);
        }
      }
    case Enter(t, choice) =>
      SetStateCounts(p, t, if p.slot.None? then Waiting else Running(p.slot));
    case Resume(t, choice) => SetStateCounts(p, t, Running(p.slot));
    case Expire(t) => ExpireCounts(p, t);
    case IdleTimeout(t) => SetStateCounts(p, t, TimedOut);
    case SpuriousWorker(t) => SetStateCounts(p, t, Notified);
    case SpuriousSubmitter(s) =>
  }

  /**
   * The race that makes this hard: a task may be placed when every thread counted
   * as idle has already timed out, so that the notification reaches nobody. Then
   * the core is complete and none of it sleeps.
   */
  lemma {:induction false} SomebodyAwake(p: Pool)
    requires Counted(p) && CoreNeverExpires(p)
    requires p.idle != 0 && WakesWorker(p.workers, None)
    ensures exists t :: t in p.workers && Awake(p.workers[t])
    ensures forall c :: c in Cores(p.workers) ==> Awake(p.workers[c])
    ensures (exists t :: t in p.workers && p.workers[t].state.Notified?) || |Cores(p.workers)| == CORE_POOL_SIZE
  {
    var t :| t in Idlers(p.workers);
    if p.workers[t].state.TimedOut? {
      CoreOutnumbered(p, t);
      var c :| c in Cores(p.workers);
      assert Awake(p.workers[c]);
    } else {
      assert Awake(p.workers[t]) && p.workers[t].state.Notified?;
    }
  }

  lemma {:induction false} StepAttended(p: Pool, e: Event)
    requires Counted(p) && CoreNeverExpires(p) && TaskAttended(p) && Enabled(p, e)
    ensures TaskAttended(Step(p, e))
  {
    var q := Step(p, e);
    if q.slot.Some? {
      if p.slot.None? {
        if p.idle == 0 {
          assert q.workers[e.tid].state.Starting?;
        } else if e.wakeWorker.Some? {
          assert q.workers[e.wakeWorker.value].state.Notified?;
        } else {
          SomebodyAwake(p);
        }
      } else {
        var t :| t in p.workers && Awake(p.workers[t]);
        assert t in q.workers && Awake(q.workers[t]);
      }
    }
  }

  lemma {:induction false} StepOffered(p: Pool, e: Event)
    requires SlotOffered(p) && Conserved(p) && Enabled(p, e)
    ensures SlotOffered(Step(p, e))
  {
    var q := Step(p, e);
    if q.slot.None? && exists s :: s in q.submitters && q.submitters[s].Blocked? {
      var b :| b in q.submitters && q.submitters[b].Blocked?;
      assert b in p.submitters && p.submitters[b].Blocked?;
      if (e.Enter? && p.slot.Some?) || e.Resume? {
        assert q.submitters[e.wakeSubmitter.value].Woken?;
      } else {
        var w :| w in p.submitters && p.submitters[w].Woken?;
        assert q.submitters[w].Woken?;
      }
    }
  }

  lemma {:induction false} StepConserved(p: Pool, e: Event)
    requires Conserved(p) && Enabled(p, e)
    ensures Conserved(Step(p, e))
  {
    var q := Step(p, e);
    if e.Submit? && p.slot.None? {
      assert q.placed == p.placed + [e.s];
    }
  }

  lemma {:induction false} StepCore(p: Pool, e: Event)
    requires CoreNeverExpires(p) && Enabled(p, e)
    ensures CoreNeverExpires(Step(p, e))
  {
    var q := Step(p, e);
    forall t | t in q.workers && q.workers[t].state.TimedOut? ensures !q.workers[t].core {
      assert t in p.workers && q.workers[t].core == p.workers[t].core;
    }
  }

  lemma {:induction false} AllOf(q: Pool)
    requires Counted(q) && CoreNeverExpires(q) && TaskAttended(q) && SlotOffered(q) && Conserved(q)
    ensures Inv(q)
  {
  }

  lemma {:induction false} StepInv(p: Pool, e: Event)
    requires Inv(p) && Enabled(p, e)
    ensures Inv(Step(p, e))
  {
    StepCounted(p, e);
    StepCore(p, e);
    StepAttended(p, e);
    StepOffered(p, e);
    StepConserved(p, e);
    AllOf(Step(p, e));
  }

  /** Every pool reached by any run of any number of callers and workers satisfies Inv. */
  lemma {:induction false} EveryRunKeepsInv(p: Pool, run: seq<Event>)
    requires Inv(p) && Exec(p, run).Some?
    ensures Inv(Exec(p, run).value)
    decreases |run|
  {
    if run != [] {
      StepInv(p, run[0]);
      EveryRunKeepsInv(Step(p, run[0]), run[1..]);
    }
  }

  lemma {:induction false} InitialInv()
    ensures Inv(INITIAL)
  {
    assert Idlers(INITIAL.workers) == {} && Cores(INITIAL.workers) == {};
  }

  // ---------------------------------------------------------------------
  // Consequences for whole runs
  // ---------------------------------------------------------------------

  ghost predicate Reachable(p: Pool) {
    exists run :: Exec(INITIAL, run) == Some(p)
  }

  lemma {:induction false} ReachableInv(p: Pool)
    requires Reachable(p)
    ensures Inv(p)
  {
    var run :| Exec(INITIAL, run) == Some(p);
    InitialInv();
    EveryRunKeepsInv(INITIAL, run);
  }

  // What the workers run, read off their states.

  /** A worker that finds a task takes that one and runs it, and no other worker changes what it runs. */
  lemma {:induction false} TakerRunsTheTask(p: Pool, e: Event)
    requires (e.Enter? || e.Resume?) && Enabled(p, e) && p.slot.Some?
    ensures Step(p, e).slot == None && e.t in Step(p, e).workers
    ensures Step(p, e).workers[e.t].state == Running(p.slot)
  {
  }

  lemma {:induction false} OthersKeepTheirJobs(p: Pool, e: Event, t: nat)
    requires Enabled(p, e) && t in Step(p, e).workers && Step(p, e).workers[t].state.Running?
    requires !((e.Enter? || e.Resume?) && e.t == t)
    ensures t in p.workers && p.workers[t].state == Step(p, e).workers[t].state
  {
  }

  /** The task with which the worker of the event has started to run. */
  function Started(q: Pool, e: Event): seq<Task> {
    if (e.Enter? || e.Resume?) && e.t in q.workers && q.workers[e.t].state.Running? then
      SlotSeq(q.workers[e.t].state.job)
    else []
  }

  function Jobs(p: Pool, run: seq<Event>): seq<Task>
    decreases |run|
  {
    if run == [] || !Enabled(p, run[0]) then []
    else Started(Step(p, run[0]), run[0]) + Jobs(Step(p, run[0]), run[1..])
  }

  /** The tasks that came into the free slot. */
  function Filled(p: Pool, q: Pool): seq<Task> {
    if p.slot.None? then SlotSeq(q.slot) else []
  }

  function Placings(p: Pool, run: seq<Event>): seq<Task>
    decreases |run|
  {
    if run == [] || !Enabled(p, run[0]) then []
    else Filled(p, Step(p, run[0])) + Placings(Step(p, run[0]), run[1..])
  }

  /** A full slot is only ever emptied by a worker that runs what was in it, and only a caller fills it. */
  lemma {:induction false} SlotIsHandedOn(p: Pool, e: Event)
    requires Enabled(p, e)
    ensures SlotSeq(p.slot) + Filled(p, Step(p, e)) == Started(Step(p, e), e) + SlotSeq(Step(p, e).slot)
    ensures Filled(p, Step(p, e)) == if e.Submit? && p.slot.None? then [e.s] else []
    ensures Step(p, e).placed == p.placed + Filled(p, Step(p, e))
  {
  }

  lemma {:induction false} Handed(a: seq<Task>, b: seq<Task>, c: seq<Task>, d: seq<Task>, x: seq<Task>, y: seq<Task>,
      z: seq<Task>)
    requires a + b == c + d && d + x == y + z
    ensures a + (b + x) == (c + y) + z
  {
    assert a + (b + x) == (a + b) + x == (c + d) + x == c + (d + x) == c + (y + z);
  }

  lemma {:induction false} RunNext(p: Pool, run: seq<Event>)
    requires run != [] && Exec(p, run).Some?
    ensures Enabled(p, run[0]) && Exec(p, run) == Exec(Step(p, run[0]), run[1..])
    ensures Placings(p, run) == Filled(p, Step(p, run[0])) + Placings(Step(p, run[0]), run[1..])
    ensures Jobs(p, run) == Started(Step(p, run[0]), run[0]) + Jobs(Step(p, run[0]), run[1..])
  {
  }

  lemma {:induction false} JobsArePlacings(p: Pool, run: seq<Event>, last: Pool)
    requires Exec(p, run) == Some(last)
    ensures SlotSeq(p.slot) + Placings(p, run) == Jobs(p, run) + SlotSeq(last.slot)
    decreases |run|
  {
    if run == [] {
      assert SlotSeq(p.slot) + [] == [] + SlotSeq(p.slot);
    } else {
      RunNext(p, run);
      var q, rest := Step(p, run[0]), run[1..];
      SlotIsHandedOn(p, run[0]);
      JobsArePlacings(q, rest, last);
      Handed(SlotSeq(p.slot), Filled(p, q), Started(q, run[0]), SlotSeq(q.slot), Placings(q, rest), Jobs(q, rest),
             SlotSeq(last.slot));
    }
  }

  /** The log of placed tasks is what came into the slot. */
  lemma {:induction false} PlacedIsPlacings(p: Pool, run: seq<Event>, last: Pool)
    requires Exec(p, run) == Some(last)
    ensures last.placed == p.placed + Placings(p, run)
    decreases |run|
  {
    if run == [] {
      assert p.placed + [] == p.placed;
    } else {
      RunNext(p, run);
      var q, rest := Step(p, run[0]), run[1..];
      SlotIsHandedOn(p, run[0]);
      PlacedIsPlacings(q, rest, last);
      assert p.placed + Filled(p, q) + Placings(q, rest) == p.placed + (Filled(p, q) + Placings(q, rest));
    }
  }

  /**
   * Over every run, the tasks the workers start to run are, in order and each once, the
   * tasks that came into the slot, without the one that is still in it.
   */
  lemma {:induction false} EveryTaskRunsOnce(run: seq<Event>)
    requires Exec(INITIAL, run).Some?
    ensures Placings(INITIAL, run) == Jobs(INITIAL, run) + SlotSeq(Exec(INITIAL, run).value.slot)
    ensures NoDuplicates(Jobs(INITIAL, run))
    ensures forall s :: s in Exec(INITIAL, run).value.called <==>
              s in Exec(INITIAL, run).value.submitters || s in Placings(INITIAL, run)
  {
    JobsArePlacings(INITIAL, run, Exec(INITIAL, run).value);
    PlacedIsPlacings(INITIAL, run, Exec(INITIAL, run).value);
    InitialInv();
    EveryRunKeepsInv(INITIAL, run);
    var all, jobs := Placings(INITIAL, run), Jobs(INITIAL, run);
    assert all == Exec(INITIAL, run).value.placed;
    assert forall i :: 0 <= i < |jobs| ==> jobs[i] == all[i];
  }

  /**
   * A waiting task is never stuck behind sleeping threads: some existing thread,
   * needing no notification, hands it over at its next lock acquisition.
   */
  lemma {:induction false} TaskCanAlwaysBeTaken(p: Pool)
    requires Reachable(p) && p.slot.Some?
    ensures exists e: Event :: (e.Enter? || e.Resume?) && Enabled(p, e)
              && Step(p, e).slot == None && Step(p, e).taken == p.placed
  {
    ReachableInv(p);
    var t :| t in p.workers && Awake(p.workers[t]);
    var choice := AnySubmitterChoice(p.submitters);
    var e := if p.workers[t].state.Notified? then Resume(t, choice) else Enter(t, choice);
    assert Enabled(p, e) && Step(p, e).taken == p.placed;
  }

  /** A free slot is never withheld from blocked callers: a woken one places its task next. */
  lemma {:induction false} BlockedCallersProgress(p: Pool, s: Task)
    requires Reachable(p) && p.slot.None? && s in p.submitters && p.submitters[s].Blocked?
    ensures exists e: Event :: e.Submit? && Enabled(p, e) && p.submitters[e.s].Woken?
              && Step(p, e).slot == Some(e.s)
  {
    ReachableInv(p);
    var w :| w in p.submitters && p.submitters[w].Woken?;
    var tid := UnusedThread(p.workers.Keys);
    var choice := AnyWorkerChoice(p.workers);
    var e := Submit(w, choice, tid);
    assert Enabled(p, e) && Step(p, e).slot == Some(w);
  }

  ghost function AnySubmitterChoice(ss: map<Task, Submitter>): (c: Option<Task>)
    ensures WakesSubmitter(ss, c)
  {
    if s :| s in ss && ss[s].Blocked? then Some(s) else None
  }

  ghost function AnyWorkerChoice(ws: map<nat, Worker>): (c: Option<nat>)
    ensures WakesWorker(ws, c)
  {
    if t :| t in ws && ws[t].state.Waiting? then Some(t) else None
  }

  /** Thread ids never run out. */
  lemma {:induction false} UnusedThread(used: set<nat>) returns (tid: nat)
    ensures forall t :: t in used ==> t < tid
  {
    if used == {} {
      tid := 0;
    } else {
      var x :| x in used;
      tid := UnusedThread(used - {x});
      assert forall t :: t in used ==> t == x || t in used - {x};
      tid := if tid <= x then x + 1 else tid;
    }
  }

  // ---------------------------------------------------------------------
  // The idle timeout can still swallow a notification
  // ---------------------------------------------------------------------

  /** The threads doing a task, when all of them are. */
  ghost predicate AllBusyCore(p: Pool) {
    forall t :: t in p.workers ==> p.workers[t].core && p.workers[t].state.Running? && p.workers[t].state.job.Some?
  }

  /** Workers 0, 1, ..., n - 1, worker t busy with task t. */
  function Busy(n: nat): map<nat, Worker> {
    map t: nat | 0 <= t < n :: Worker(t < 3, Running(Some(t)))
  }

  function BusyPool(n: nat): Pool {
    Pool(0, n, None, Busy(n), map[], Busy(n).Keys, seq(n, i => i), seq(n, i => i))
  }

  /** One more call, when everybody is busy, brings one more thread. */
  lemma {:induction false} OneMoreBusy(n: nat)
    ensures Exec(BusyPool(n), [Call(n), Submit(n, None, n), Enter(n, None)]) == Some(BusyPool(n + 1))
  {
    var p := BusyPool(n);
    var run := [Call(n), Submit(n, None, n), Enter(n, None)];
    var p1 := Step(p, run[0]);
    assert run[1..] == [run[1], run[2]] && run[1..][1..] == [run[2]];
    var p2 := Step(p1, run[1]);
    assert p2.workers == Busy(n)[n := Worker(n + 1 <= 3, Starting)];
    assert p2.submitters == map[];
    var p3 := Step(p2, run[2]);
    assert p3.workers == Busy(n + 1);
    assert p3.submitters == map[];
    assert p3.called == BusyPool(n + 1).called;
    assert p3.placed == p3.taken == seq(n + 1, i => i);
    assert p3 == BusyPool(n + 1);
    assert run[1..][1..][1..] == [];
    assert Exec(p3, run[1..][1..][1..]) == Some(p3);
    assert Exec(p2, run[1..][1..]) == Some(p3);
    assert Exec(p1, run[1..]) == Some(p3);
  }

  lemma {:induction false} ExecAppend(p: Pool, a: seq<Event>, b: seq<Event>)
    requires Exec(p, a).Some?
    ensures Exec(p, a + b) == Exec(Exec(p, a).value, b)
    decreases |a|
  {
    if a == [] {
      assert a + b == b;
    } else {
      assert (a + b)[1..] == a[1..] + b;
      ExecAppend(Step(p, a[0]), a[1..], b);
    }
  }

  lemma {:induction false} BusyReachable(n: nat)
    ensures Reachable(BusyPool(n))
  {
    if n == 0 {
      assert BusyPool(0) == INITIAL;
      assert Exec(INITIAL, []) == Some(INITIAL);
    } else {
      BusyReachable(n - 1);
      var run :| Exec(INITIAL, run) == Some(BusyPool(n - 1));
      OneMoreBusy(n - 1);
      var more := [Call(n - 1), Submit(n - 1, None, n - 1), Enter(n - 1, None)];
      ExecAppend(INITIAL, run, more);
      assert Exec(INITIAL, run + more) == Some(BusyPool(n));
    }
  }

  lemma {:induction false} ReachableStep(p: Pool, e: Event)
    requires Reachable(p) && Enabled(p, e)
    ensures Reachable(Step(p, e))
  {
    var run :| Exec(INITIAL, run) == Some(p);
    ExecAppend(INITIAL, run, [e]);
    assert [e][1..] == [];
    assert Exec(Step(p, e), []) == Some(Step(p, e));
    assert Exec(p, [e]) == Some(Step(p, e));
  }

  /**
   * A reachable pool in which a task waits behind three busy core threads, although
   * the pool starts a new thread whenever it sees nobody idle: the fourth thread
   * timed out, the caller still counted it as idle and notified nobody, and then it left.
   */
  lemma {:induction false} TimeoutCanSwallowNotification() returns (p: Pool)
    ensures Reachable(p) && p.slot.Some? && p.idle == 0 && p.total == 3 && AllBusyCore(p)
  {
    BusyReachable(4);
    p := FourthLeaves(BusyPool(4));
  }

  lemma {:induction false} FourthLeaves(p0: Pool) returns (p: Pool)
    requires Reachable(p0) && p0 == BusyPool(4)
    ensures Reachable(p) && p.slot.Some? && p.idle == 0 && p.total == 3 && AllBusyCore(p)
  {
    ReachableStep(p0, Enter(3, None));
    var p1 := Step(p0, Enter(3, None));
    ReachableStep(p1, IdleTimeout(3));
    var p2 := Step(p1, IdleTimeout(3));
    ReachableStep(p2, Call(4));
    var p3 := Step(p2, Call(4));
    ReachableStep(p3, Submit(4, None, 4));
    var p4 := Step(p3, Submit(4, None, 4));
    ReachableStep(p4, Expire(3));
    p := Step(p4, Expire(3));
  }

  /** A worker on its way to the slot that no task keeps busy. */
  predicate Coming(w: Worker) {
    w.state.Starting? || w.state.Notified?
  }

  ghost predicate SomebodyComing(p: Pool) {
    exists t :: t in p.workers && Coming(p.workers[t])
  }

  /**
   * Exactly when that happens: a placed task has a free worker on its way, unless
   * the pool counts idle workers and none of its workers is on its way or asleep.
   */
  lemma {:induction false} PlacementReachesWorkerIff(p: Pool, e: Event)
    requires e.Submit? && Enabled(p, e) && p.slot.None?
    ensures SomebodyComing(Step(p, e)) <==>
            p.idle == 0 || exists t :: t in p.workers && (Coming(p.workers[t]) || p.workers[t].state.Waiting?)
  {
    var q := Step(p, e);
    if p.idle == 0 {
      assert Coming(q.workers[e.tid]);
    } else if e.wakeWorker.Some? {
      assert Coming(q.workers[e.wakeWorker.value]);
    } else {
      assert q.workers == p.workers;
    }
  }

  /** A free worker on its way to a full slot is not lost: until the slot is emptied there is one. */
  lemma {:induction false} ComingStays(p: Pool, e: Event)
    requires Enabled(p, e) && p.slot.Some? && SomebodyComing(p)
    ensures Step(p, e).slot == None || (Step(p, e).slot == p.slot && SomebodyComing(Step(p, e)))
  {
    var q := Step(p, e);
    var t :| t in p.workers && Coming(p.workers[t]);
    if q.slot.Some? {
      assert t in q.workers && Coming(q.workers[t]);
    }
  }

  /** Without one, only a thread that comes back from its task or a spurious wake-up brings one. */
  lemma {:induction false} StuckUntil(p: Pool, e: Event)
    requires Enabled(p, e) && p.slot.Some? && !SomebodyComing(p)
    ensures (Step(p, e).slot.None? <==> e.Enter?)
    ensures e.Enter? ==> p.workers[e.t].state.Running?
    ensures Step(p, e).slot.Some? ==> Step(p, e).slot == p.slot
    ensures SomebodyComing(Step(p, e)) <==> e.SpuriousWorker?
  {
    var q := Step(p, e);
    if e.SpuriousWorker? {
      assert Coming(q.workers[e.t]);
    } else {
      forall t | t in q.workers ensures !Coming(q.workers[t]) {
        if t in p.workers {
          assert !Coming(p.workers[t]);
        }
      }
    }
  }

  // ---------------------------------------------------------------------
  // The critical sections, as the source runs them
  // ---------------------------------------------------------------------

  /** The shared pool. Each method is one stretch of code under the lock. */
  class ThreadPool {
    var idleThreads: int
    var totalThreads: int
    var task: Option<Task>
    var workers: map<nat, Worker>
    var submitters: map<Task, Submitter>
    var called: set<Task>
    var placed: seq<Task>
    var taken: seq<Task>

    function View(): Pool
      reads this
    {
      Pool(idleThreads, totalThreads, task, workers, submitters, called, placed, taken)
    }

    constructor ()
      ensures View() == INITIAL && Inv(View())
    {
      idleThreads, totalThreads, task := 0, 0, None;
      workers, submitters, called, placed, taken := map[], map[], {}, [], [];
      InitialInv();
    }

    /** The tail of the locked block in pool_loop. */
    method TakeTask(t: nat, wake: Option<Task>)
      requires t in workers && WakesSubmitter(submitters, wake)
      modifies this
      ensures View() == Take(old(View()), t, wake)
    {
      workers := workers[t := workers[t].(state := Running(task))];
      if task.Some? {
        taken := taken + [task.value];
      }
      task := None;
      if wake.Some? {
        submitters := submitters[wake.value := Woken];
      }
      idleThreads := idleThreads - 1;
    }

    /** A worker takes the lock at the top of the loop. */
    method PoolLoopEnter(t: nat, wake: Option<Task>)
      requires Inv(View()) && Enabled(View(), Enter(t, wake))
      modifies this
      ensures View() == Step(old(View()), Enter(t, wake)) && Inv(View())
    {
      StepInv(View(), Enter(t, wake));
      idleThreads := idleThreads + 1;
      if task.None? {
        workers := workers[t := workers[t].(state := Waiting)];
      } else {
        TakeTask(t, wake);
      }
    }

    /** A worker returns from its wait and has the lock again. */
    method PoolLoopResume(t: nat, wake: Option<Task>) returns (exits: bool)
      requires Inv(View()) && t in workers
      requires if workers[t].state.TimedOut? then Enabled(View(), Expire(t)) else Enabled(View(), Resume(t, wake))
      modifies this
      ensures exits == old(workers[t].state.TimedOut?)
      ensures View() == Step(old(View()), if exits then Expire(t) else Resume(t, wake)) && Inv(View())
    {
      StepInv(View(), if workers[t].state.TimedOut? then Expire(t) else Resume(t, wake));
      exits := workers[t].state.TimedOut?;
      if exits {
        idleThreads := idleThreads - 1;
        totalThreads := totalThreads - 1;
        workers := workers - {t};
      } else {
        TakeTask(t, wake);
      }
    }

    /** A caller of exec_task has the lock, first or after a wait. */
    method ExecTask(s: Task, wake: Option<nat>, tid: nat)
      requires Inv(View()) && Enabled(View(), Submit(s, wake, tid))
      modifies this
      ensures View() == Step(old(View()), Submit(s, wake, tid)) && Inv(View())
    {
      StepInv(View(), Submit(s, wake, tid));
      if task.Some? {
        submitters := submitters[s := Blocked];
      } else {
        task := Some(s);
        submitters := submitters - {s};
        placed := placed + [s];
        if idleThreads == 0 {
          totalThreads := totalThreads + 1;
          var isCoreThread := totalThreads <= CORE_POOL_SIZE;
          workers := workers[tid := Worker(isCoreThread, Starting)];
        } else if wake.Some? {
          workers := workers[wake.value := workers[wake.value].(state := Notified)];
        }
      }
    }
  }
}
