/**
 * What the denylist check finds over whole runs (native/src/core/deny/utils.cpp): the
 * reverse index is rebuilt by scans, which leave locked packages out, and added to by
 * requests in between.
 */
module DenyLookup {
  import opened Options
  import opened Denylist

  /** The request rebuilds the index: it lists, the zygote restarted, or it loads the data. */
  predicate Scans(s: State, e: Event) {
    || e.req.ListReq?
    || (e.req.ZygoteReq? && s.mem.Some?)
    || (s.mem.None? && Step(s, e).mem.Some?)
  }

  /** The request adds a process of the package. */
  predicate Adds(s: State, e: Event, p: string) {
    e.req.AddReq? && e.req.pkg == p && Add(s, p, e.req.proc, e.ids).1 == OK
  }

  predicate UnlockedIn(s: State, e: Event, p: string) {
    p !in Ensure(s, e.ids).mem.value.locked
  }

  predicate Entered(m: Mem, ids: Ids, p: string) {
    HasEntry(m.index, AppId(ids, p), p)
  }

  /** An installed app. */
  predicate App(ids: Ids, p: string) {
    p != ISOLATED && AppId(ids, p) > 0
  }

  // ---------------------------------------------------------------------
  // One request
  // ---------------------------------------------------------------------

  lemma {:induction false} ScanEnters(m: Mem, rows: Rows, ids: Ids, p: string)
    requires App(ids, p) && p in Scan(m, rows, ids).mem.value.procs
    ensures Entered(Scan(m, rows, ids).mem.value, ids, p) <==> p !in m.locked
  {
    if p !in m.locked {
      assert Indexed(m.locked, ids, p) && p in m.procs.Keys;
      assert AppId(ids, p) in IdsSeen(m, ids, m.procs.Keys);
    }
  }

  lemma {:induction false} EnsureEnters(s: State, ids: Ids, p: string)
    requires App(ids, p) && p in Ensure(s, ids).mem.value.procs
    ensures Entered(Ensure(s, ids).mem.value, ids, p) <==>
            if s.mem.Some? then Entered(s.mem.value, ids, p) else p !in Ensure(s, ids).mem.value.locked
  {
    if s.mem.None? {
      ScanEnters(Mem(ProcsOf(s.rows), map[], LockedOf(s.rows)), s.rows, ids, p);
    }
  }

  lemma {:induction false} AddEnters(t: State, pkg: string, proc: string, ids: Ids, p: string)
    requires t.mem.Some? && App(ids, p) && AddTo(t, pkg, proc, AppId(ids, pkg)).1 != ERROR
    requires p in AddTo(t, pkg, proc, AppId(ids, pkg)).0.mem.value.procs
    ensures var r := AddTo(t, pkg, proc, AppId(ids, pkg));
            && (p in t.mem.value.procs || (pkg == p && r.1 == OK))
            && (Entered(r.0.mem.value, ids, p) <==> (pkg == p && r.1 == OK) || Entered(t.mem.value, ids, p))
  {
  }

  lemma {:induction false} RmEnters(t: State, pkg: string, proc: string, ids: Ids, p: string)
    requires t.mem.Some? && App(ids, p) && Filled(t.mem.value)
    requires p in RmFrom(t, pkg, proc, AppId(ids, pkg)).0.mem.value.procs
    ensures p in t.mem.value.procs
    ensures Entered(RmFrom(t, pkg, proc, AppId(ids, pkg)).0.mem.value, ids, p) <==> Entered(t.mem.value, ids, p)
  {
  }

  lemma {:induction false} LockEnters(t: State, pkg: string, lock: bool)
    requires t.mem.Some?
    ensures var u := LockIn(t, pkg, lock).0.mem.value;
            u.procs == t.mem.value.procs && u.index == t.mem.value.index
  {
  }

  /** The state a request finds, and what the entry of the package is in it. */
  ghost predicate Found(s: State, ids: Ids, p: string) {
    if s.mem.Some? then Entered(s.mem.value, ids, p) else p !in Ensure(s, ids).mem.value.locked
  }

  lemma {:induction false} AddStepEnters(s: State, e: Event, p: string)
    requires e.req.AddReq? && InSync(s) && App(e.ids, p) && Step(s, e).mem.Some? && p in Step(s, e).mem.value.procs
    ensures Entered(Step(s, e).mem.value, e.ids, p) <==> Adds(s, e, p) || Found(s, e.ids, p)
  {
    var pkg, proc := e.req.pkg, ProcName(e.req.pkg, e.req.proc);
    if Validate(pkg, proc) {
      EnsureInSync(s, e.ids);
      ProcNameValid(pkg, e.req.proc);
      AddInSync(Ensure(s, e.ids), pkg, proc, AppId(e.ids, pkg));
      AddEnters(Ensure(s, e.ids), pkg, proc, e.ids, p);
      if p in Ensure(s, e.ids).mem.value.procs {
        EnsureEnters(s, e.ids, p);
      }
    }
  }

  lemma {:induction false} RmStepEnters(s: State, e: Event, p: string)
    requires e.req.RmReq? && Sound(s, e.ids) && App(e.ids, p) && p in Step(s, e).mem.value.procs
    ensures Entered(Step(s, e).mem.value, e.ids, p) <==> Found(s, e.ids, p)
  {
    EnsureSound(s, e.ids);
    RmEnters(Ensure(s, e.ids), e.req.pkg, e.req.proc, e.ids, p);
    EnsureEnters(s, e.ids, p);
  }

  lemma {:induction false} LockStepEnters(s: State, e: Event, p: string)
    requires (e.req.LockReq? || e.req.UnlockReq?) && App(e.ids, p)
    requires Step(s, e).mem.Some? && p in Step(s, e).mem.value.procs
    ensures Entered(Step(s, e).mem.value, e.ids, p) <==> Found(s, e.ids, p)
  {
    if e.req.pkg != ISOLATED {
      LockEnters(Ensure(s, e.ids), e.req.pkg, e.req.LockReq?);
      EnsureEnters(s, e.ids, p);
    }
  }

  lemma {:induction false} ScanStepEnters(s: State, e: Event, p: string)
    requires (e.req.ListReq? || (e.req.ZygoteReq? && s.mem.Some?)) && App(e.ids, p)
    requires p in Step(s, e).mem.value.procs
    ensures Entered(Step(s, e).mem.value, e.ids, p) <==> UnlockedIn(s, e, p)
  {
    var t := Ensure(s, e.ids);
    ScanEnters(t.mem.value, t.rows, e.ids, p);
  }

  /**
   * A listed app is in the index after a request exactly when the request adds a process of
   * it, or it scans and the app is not locked, or it does not scan and the app was there.
   */
  lemma {:induction false} StepEntersIff(s: State, e: Event, p: string)
    requires Sound(s, e.ids) && InSync(s) && App(e.ids, p)
    requires Step(s, e).mem.Some? && p in Step(s, e).mem.value.procs
    ensures Entered(Step(s, e).mem.value, e.ids, p) <==>
            Adds(s, e, p) || if Scans(s, e) then UnlockedIn(s, e, p) else Entered(s.mem.value, e.ids, p)
  {
    match e.req {
      case AddReq(_, _) => AddStepEnters(s, e, p);
      case RmReq(_, _) => RmStepEnters(s, e, p);
      case LockReq(_) => LockStepEnters(s, e, p);
      case UnlockReq(_) => LockStepEnters(s, e, p);
      case ListReq => ScanStepEnters(s, e, p);
      case QueryReq => EnsureEnters(s, e.ids, p);
      case ZygoteReq => ScanStepEnters(s, e, p);
      case RestartReq =>
    }
  }

  /** Between scans a package gets into memory only by being added. */
  lemma {:induction false} StaysListed(s: State, e: Event, p: string)
    requires Sound(s, e.ids) && InSync(s) && App(e.ids, p) && !Scans(s, e) && !Adds(s, e, p)
    requires Step(s, e).mem.Some? && p in Step(s, e).mem.value.procs
    ensures s.mem.Some? && p in s.mem.value.procs
  {
    var t := Ensure(s, e.ids);
    match e.req {
      case AddReq(pkg, name) =>
        if Validate(pkg, ProcName(pkg, name)) {
          EnsureInSync(s, e.ids);
          ProcNameValid(pkg, name);
          AddInSync(t, pkg, ProcName(pkg, name), AppId(e.ids, pkg));
          AddEnters(t, pkg, ProcName(pkg, name), e.ids, p);
        }
      case RmReq(pkg, proc) =>
        EnsureSound(s, e.ids);
        RmEnters(t, pkg, proc, e.ids, p);
      case LockReq(pkg) => LockEnters(t, pkg, true);
      case UnlockReq(pkg) => LockEnters(t, pkg, false);
      case _ =>
    }
  }

  // ---------------------------------------------------------------------
  // Whole runs
  // ---------------------------------------------------------------------

  function At(rows: Rows, es: seq<Event>, k: nat): State
    requires k <= |es|
  {
    Run(State(None, rows), es, k)
  }

  ghost predicate ScansAt(rows: Rows, es: seq<Event>, k: nat)
    requires k < |es|
  {
    Scans(At(rows, es, k), es[k])
  }

  ghost predicate AddsAt(rows: Rows, es: seq<Event>, k: nat, p: string)
    requires k < |es|
  {
    Adds(At(rows, es, k), es[k], p)
  }

  ghost predicate UnlockedAt(rows: Rows, es: seq<Event>, k: nat, p: string)
    requires k < |es|
  {
    UnlockedIn(At(rows, es, k), es[k], p)
  }

  /** The last of the first `n` requests that scans. */
  ghost predicate LastScan(rows: Rows, es: seq<Event>, n: nat, k: nat)
    requires n <= |es|
  {
    k < n && ScansAt(rows, es, k) && forall j :: k < j < n ==> !ScansAt(rows, es, j)
  }

  ghost predicate AddedSince(rows: Rows, es: seq<Event>, n: nat, k: nat, p: string)
    requires n <= |es|
  {
    exists j :: k <= j < n && AddsAt(rows, es, j, p)
  }

  /** The package was not locked at the last scan, or a process of it was added since. */
  ghost predicate Findable(rows: Rows, es: seq<Event>, n: nat, p: string)
    requires n <= |es|
  {
    exists k :: 0 <= k < n && LastScan(rows, es, n, k) &&
                (UnlockedAt(rows, es, k, p) || AddedSince(rows, es, n, k, p))
  }

  lemma {:induction false} RestartsOrKeeps(s: State, e: Event)
    requires s.mem.Some?
    ensures Step(s, e).mem.Some? || e.req.RestartReq?
  {
  }

  /** Where there is data, a scan made its index. */
  lemma {:induction false} HasScan(rows: Rows, es: seq<Event>, n: nat) returns (k: nat)
    requires n <= |es| && At(rows, es, n).mem.Some?
    ensures LastScan(rows, es, n, k)
  {
    if ScansAt(rows, es, n - 1) {
      k := n - 1;
    } else {
      assert At(rows, es, n) == Step(At(rows, es, n - 1), es[n - 1]);
      k := HasScan(rows, es, n - 1);
    }
  }

  lemma {:induction false} OneLastScan(rows: Rows, es: seq<Event>, n: nat, k: nat, p: string)
    requires n <= |es| && LastScan(rows, es, n, k)
    ensures Findable(rows, es, n, p) <==> UnlockedAt(rows, es, k, p) || AddedSince(rows, es, n, k, p)
  {
  }

  lemma {:induction false} FindableNext(rows: Rows, es: seq<Event>, n: nat, p: string)
    requires n < |es| && At(rows, es, n + 1).mem.Some?
    ensures Findable(rows, es, n + 1, p) <==>
            AddsAt(rows, es, n, p) ||
            if ScansAt(rows, es, n) then UnlockedAt(rows, es, n, p) else Findable(rows, es, n, p)
  {
    var k := HasScan(rows, es, n + 1);
    SinceNext(rows, es, n, k, p);
    OneLastScan(rows, es, n + 1, k, p);
    if ScansAt(rows, es, n) {
      assert k == n && !AddedSince(rows, es, n, n, p);
    } else {
      OneLastScan(rows, es, n, k, p);
    }
  }

  lemma {:induction false} SinceNext(rows: Rows, es: seq<Event>, n: nat, k: nat, p: string)
    requires k <= n < |es|
    ensures AddedSince(rows, es, n + 1, k, p) <==> AddsAt(rows, es, n, p) || AddedSince(rows, es, n, k, p)
  {
  }

  lemma {:induction false} EntersNext(rows: Rows, es: seq<Event>, n: nat, ids: Ids, p: string, s: State, e: Event)
    requires n < |es| && s == At(rows, es, n) && e == es[n] && e.ids == ids && App(ids, p)
    requires Sound(s, ids) && InSync(s)
    requires At(rows, es, n + 1).mem.Some? && p in At(rows, es, n + 1).mem.value.procs
    requires s.mem.Some? && p in s.mem.value.procs ==>
      (Entered(s.mem.value, ids, p) <==> Findable(rows, es, n, p))
    ensures Entered(At(rows, es, n + 1).mem.value, ids, p) <==> Findable(rows, es, n + 1, p)
  {
    StepEntersIff(s, e, p);
    FindableNext(rows, es, n, p);
    if !Scans(s, e) && !Adds(s, e, p) {
      StaysListed(s, e, p);
    }
  }

  lemma {:induction false} RunIsSound(rows: Rows, es: seq<Event>, n: nat, ids: Ids)
    requires n <= |es| && forall k :: 0 <= k < n ==> es[k].ids == ids
    ensures Sound(At(rows, es, n), ids) && InSync(At(rows, es, n))
  {
    RunIndexSound(rows, es, n, ids);
    RunInSync(rows, es, n);
  }

  /** With app ids that do not change, a listed app is in the index exactly when it is findable. */
  lemma {:induction false} RunEntersIff(rows: Rows, es: seq<Event>, n: nat, ids: Ids, p: string)
    requires n <= |es| && (forall k :: 0 <= k < n ==> es[k].ids == ids) && App(ids, p)
    requires At(rows, es, n).mem.Some? && p in At(rows, es, n).mem.value.procs
    ensures Entered(At(rows, es, n).mem.value, ids, p) <==> Findable(rows, es, n, p)
  {
    if n > 0 {
      var s := At(rows, es, n - 1);
      if s.mem.Some? && p in s.mem.value.procs {
        RunEntersIff(rows, es, n - 1, ids, p);
      }
      RunIsSound(rows, es, n - 1, ids);
      EntersNext(rows, es, n - 1, ids, p, s, es[n - 1]);
    }
  }

  /**
   * With app ids that do not change, at every moment of every run: a process is taken for a
   * target exactly when it is listed for an installed app with the uid's app id that was
   * not locked at the last scan or was added to since.
   */
  lemma {:induction false} RunFindsIff(rows: Rows, es: seq<Event>, n: nat, ids: Ids, uid: int, process: string)
    requires n <= |es| && (forall k :: 0 <= k < n ==> es[k].ids == ids)
    requires At(rows, es, n).mem.Some? && ToAppId(uid) < 90000
    ensures var m := At(rows, es, n).mem.value;
            && Defined(m)
            && (IsDenyTarget(m, uid, process) <==>
                exists p :: p in m.procs && App(ids, p) && AppId(ids, p) == ToAppId(uid) && process in m.procs[p] &&
                            Findable(rows, es, n, p))
  {
    var m := At(rows, es, n).mem.value;
    RunIndexSound(rows, es, n, ids);
    forall p | p in m.procs && App(ids, p)
      ensures HasEntry(m.index, AppId(ids, p), p) <==> Findable(rows, es, n, p)
    {
      RunEntersIff(rows, es, n, ids, p);
    }
    if IsDenyTarget(m, uid, process) {
      var p :| HasEntry(m.index, ToAppId(uid), p) && process in m.procs[p];
      NotIsolated(ids, p, ToAppId(uid));
      assert Findable(rows, es, n, p);
    }
  }

  lemma {:induction false} NotIsolated(ids: Ids, p: string, id: int)
    requires id > 0 && AppId(ids, p) == id
    ensures App(ids, p)
  {
  }

  // ---------------------------------------------------------------------
  // Listed, installed, unlocked, and not found
  // ---------------------------------------------------------------------

  function AddLockListUnlock(pkg: string, ids: Ids): seq<Event> {
    [Event(AddReq(pkg, pkg), ids), Event(LockReq(pkg), ids), Event(ListReq, ids), Event(UnlockReq(pkg), ids)]
  }

  lemma {:induction false} FirstAdd(pkg: string, id: int, s0: State, s1: State)
    requires id > 0 && s0 == State(Some(Mem(map[], map[], {})), map[])
    requires s1 == State(Some(Mem(map[pkg := {pkg}], map[id := {pkg}], {})), map[(pkg, pkg) := false])
    ensures AddTo(s0, pkg, pkg, id).0 == s1
  {
    var none: set<string> := {};
    assert none + {pkg} == {pkg};
  }

  lemma {:induction false} LockListed(pkg: string, s1: State, s2: State)
    requires Validate(pkg, "") && s1.mem.Some? && pkg in s1.mem.value.procs && s1.mem.value.locked == {}
    requires s1.rows == map[(pkg, pkg) := false] && s2.rows == map[(pkg, pkg) := true]
    requires s2.mem == Some(s1.mem.value.(locked := {pkg}))
    ensures LockIn(s1, pkg, true).0 == s2
  {
    var none: set<string> := {};
    assert none + {pkg} == {pkg};
    assert Flagged(s1.rows, pkg, true) == s2.rows;
  }

  lemma {:induction false} ScanLocked(pkg: string, ids: Ids, s2: State, s3: State)
    requires s2.mem.Some? && s2.mem.value.procs == map[pkg := {pkg}] && s2.mem.value.locked == {pkg}
    requires s3 == State(Some(s2.mem.value.(index := map[])), s2.rows) && s2.rows == map[(pkg, pkg) := true]
    ensures Scan(s2.mem.value, s2.rows, ids) == s3
  {
    var m := s2.mem.value;
    assert IdsSeen(m, ids, m.procs.Keys) == {};
    assert ScanIndex(m, ids, m.procs.Keys) == map[];
    assert ScanProcs(m, ids, m.procs.Keys) == m.procs;
    assert ScanRows(m, s2.rows, ids, m.procs.Keys) == s2.rows;
  }

  lemma {:induction false} UnlockListed(pkg: string, s3: State, s4: State)
    requires Validate(pkg, "") && s3.mem.Some? && pkg in s3.mem.value.procs && s3.mem.value.locked == {pkg}
    requires s3.rows == map[(pkg, pkg) := true] && s4.rows == map[(pkg, pkg) := false]
    requires s4.mem == Some(s3.mem.value.(locked := {}))
    ensures LockIn(s3, pkg, false).0 == s4
  {
    assert {pkg} - {pkg} == {};
    assert Flagged(s3.rows, pkg, false) == s4.rows;
  }

  lemma {:induction false} FourRequests(s: State, s1: State, s2: State, s3: State, s4: State, pkg: string, ids: Ids)
    requires pkg != ISOLATED && pkg != "" && Validate(pkg, pkg) && s1.mem.Some? && s2.mem.Some? && s3.mem.Some?
    requires AddTo(Ensure(s, ids), pkg, pkg, AppId(ids, pkg)).0 == s1 && LockIn(s1, pkg, true).0 == s2
    requires Scan(s2.mem.value, s2.rows, ids) == s3 && LockIn(s3, pkg, false).0 == s4
    ensures Run(s, AddLockListUnlock(pkg, ids), 4) == s4
  {
    var es := AddLockListUnlock(pkg, ids);
    assert Run(s, es, 1) == s1 by { assert Run(s, es, 0) == s; }
    assert Run(s, es, 2) == s2;
    assert Run(s, es, 3) == s3;
  }

  /** The process is listed for an installed app that is not locked, and is not found until the next scan. */
  ghost predicate Overlooked(t: State, pkg: string, ids: Ids, uid: int) {
    && t.mem.Some? && Defined(t.mem.value)
    && pkg in t.mem.value.procs && pkg in t.mem.value.procs[pkg] && pkg !in t.mem.value.locked
    && !IsDenyTarget(t.mem.value, uid, pkg)
    && Defined(Rescan(t, ids).mem.value) && IsDenyTarget(Rescan(t, ids).mem.value, uid, pkg)
  }

  lemma {:induction false} EmptyIndexOverlooks(t: State, pkg: string, ids: Ids, uid: int)
    requires t.mem == Some(Mem(map[pkg := {pkg}], map[], {})) && pkg in ids && pkg != ISOLATED
    requires 0 < ids[pkg] == ToAppId(uid) < 90000
    ensures Overlooked(t, pkg, ids, uid)
  {
    var m := t.mem.value;
    ScanSound(m, t.rows, ids);
    assert !Stale(m.locked, ids, pkg);
    assert pkg in Scan(m, t.rows, ids).mem.value.procs;
    ScanEnters(m, t.rows, ids, pkg);
    assert HasEntry(Scan(m, t.rows, ids).mem.value.index, ToAppId(uid), pkg);
  }

  /** Add, lock, list, unlock leads there. */
  lemma {:induction false} UnlockedIsNotFound(pkg: string, ids: Ids, uid: int)
    requires pkg != ISOLATED && pkg != "" && Validate(pkg, "") && Validate(pkg, pkg) && pkg in ids
    requires 0 < ids[pkg] == ToAppId(uid) < 90000
    ensures Overlooked(Run(State(None, map[]), AddLockListUnlock(pkg, ids), 4), pkg, ids, uid)
  {
    var id, s0 := ids[pkg], State(Some(Mem(map[], map[], {})), map[]);
    var s1 := State(Some(Mem(map[pkg := {pkg}], map[id := {pkg}], {})), map[(pkg, pkg) := false]);
    var s2 := State(Some(Mem(map[pkg := {pkg}], map[id := {pkg}], {pkg})), map[(pkg, pkg) := true]);
    var s3 := State(Some(Mem(map[pkg := {pkg}], map[], {pkg})), map[(pkg, pkg) := true]);
    var s4 := State(Some(Mem(map[pkg := {pkg}], map[], {})), map[(pkg, pkg) := false]);
    EmptyTable(ids);
    FirstAdd(pkg, id, s0, s1);
    LockListed(pkg, s1, s2);
    ScanLocked(pkg, ids, s2, s3);
    UnlockListed(pkg, s3, s4);
    FourRequests(State(None, map[]), s1, s2, s3, s4, pkg, ids);
    EmptyIndexOverlooks(s4, pkg, ids, uid);
  }
}
