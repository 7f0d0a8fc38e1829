/**
 * What the denylist requests of native/src/core/deny/utils.cpp come to, read off the table
 * before and after: the answers, the rows that change, and what is listed and locked over
 * whole runs.
 */
module DenyRequests {
  import opened Options
  import opened Denylist
  import opened DenyLookup

  predicate Lists(rows: Rows, p: string, x: string) {
    x != "" && (p, x) in rows
  }

  ghost predicate Locks(rows: Rows, p: string) {
    exists x :: (p, x) in rows && rows[(p, x)]
  }

  predicate Remembers(m: Mem, p: string, x: string) {
    p in m.procs && x in m.procs[p]
  }

  predicate Installed(ids: Ids, p: string) {
    p in ids && ids[p] != 0
  }

  /** A package a scan drops. */
  ghost predicate Gone(rows: Rows, ids: Ids, p: string) {
    p != ISOLATED && !Locks(rows, p) && !Installed(ids, p)
  }

  lemma {:induction false} SyncReads(s: State, p: string, x: string)
    requires InSync(s) && s.mem.Some?
    ensures Remembers(s.mem.value, p, x) <==> Lists(s.rows, p, x)
    ensures p in s.mem.value.locked <==> Locks(s.rows, p)
    ensures p in s.mem.value.procs ==> s.mem.value.procs[p] != {}
  {
    ReadsOf(s.rows);
  }

  lemma {:induction false} ScanRead(m: Mem, rows: Rows, ids: Ids, p: string, x: string)
    requires Reads(rows, m.procs, m.locked)
    ensures Lists(Scan(m, rows, ids).rows, p, x) <==> Lists(rows, p, x) && !Gone(rows, ids, p)
    ensures Locks(Scan(m, rows, ids).rows, p) <==> Locks(rows, p)
  {
    assert Remembers(m, p, x) <==> Lists(rows, p, x);
    if Locks(rows, p) {
      var y :| (p, y) in rows && rows[(p, y)];
      assert (p, y) in Scan(m, rows, ids).rows;
    }
  }

  /** Loading drops what is gone; data already loaded stays. */
  lemma {:induction false} EnsureRead(s: State, ids: Ids, p: string, x: string)
    requires InSync(s)
    ensures var t := Ensure(s, ids);
            && InSync(t) && (Locks(t.rows, p) <==> Locks(s.rows, p))
            && (Lists(t.rows, p, x) <==> Lists(s.rows, p, x) && !(s.mem.None? && Gone(s.rows, ids, p)))
  {
    EnsureInSync(s, ids);
    ReadsOf(s.rows);
    if s.mem.None? {
      ScanRead(Mem(ProcsOf(s.rows), map[], LockedOf(s.rows)), s.rows, ids, p, x);
    }
  }

  lemma {:induction false} RescanRead(s: State, ids: Ids, p: string, x: string)
    requires InSync(s)
    ensures var t := Rescan(s, ids);
            && (Locks(t.rows, p) <==> Locks(s.rows, p))
            && (Lists(t.rows, p, x) <==> Lists(s.rows, p, x) && !(s.mem.Some? && Gone(s.rows, ids, p)))
  {
    ReadsOf(s.rows);
    if s.mem.Some? {
      ScanRead(s.mem.value, s.rows, ids, p, x);
    }
  }

  // ---------------------------------------------------------------------
  // Removing
  // ---------------------------------------------------------------------

  /** The name given stands for this process; no name stands for all. */
  predicate Means(proc: string, x: string) {
    proc == "" || proc == x
  }

  ghost predicate Matching(rows: Rows, pkg: string, proc: string) {
    exists x :: Lists(rows, pkg, x) && Means(proc, x)
  }

  /** When each answer to a remove is given. */
  lemma {:induction false} RemoveAnswers(s: State, pkg: string, proc: string, ids: Ids)
    requires InSync(s)
    ensures var t, r := Ensure(s, ids), Rm(s, pkg, proc, ids).1;
            && r in {OK, ITEM_LOCKED, ITEM_NOT_EXIST}
            && (r == ITEM_LOCKED <==> Locks(s.rows, pkg))
            && (r == OK <==> !Locks(s.rows, pkg) && Matching(t.rows, pkg, proc))
  {
    var t := Ensure(s, ids);
    EnsureRead(s, ids, pkg, proc);
    SyncReads(t, pkg, proc);
    var m := t.mem.value;
    if pkg in m.procs && proc == "" {
      var x :| x in m.procs[pkg];
      SyncReads(t, pkg, x);
      assert Lists(t.rows, pkg, x) && Means(proc, x);
    }
    if Matching(t.rows, pkg, proc) {
      var x :| Lists(t.rows, pkg, x) && Means(proc, x);
      SyncReads(t, pkg, x);
    } else {
      assert Remembers(m, pkg, proc) ==> Lists(t.rows, pkg, proc) && Means(proc, proc);
    }
  }

  /** The rows the name stands for are gone, and no other has changed. */
  ghost predicate RowsTaken(before: Rows, after: Rows, pkg: string, proc: string) {
    && (forall q :: q in after <==> q in before && !(q.0 == pkg && Means(proc, q.1)))
    && (forall q :: q in after ==> after[q] == before[q])
  }

  ghost predicate ProcsTaken(before: Mem, after: Mem, pkg: string, proc: string) {
    && (forall p, x :: Remembers(after, p, x) <==> Remembers(before, p, x) && !(p == pkg && Means(proc, x)))
    && (forall p :: p in after.procs ==> after.procs[p] != {})
    && after.locked == before.locked
  }

  lemma {:induction false} RmTakesRows(t: State, pkg: string, proc: string, id: int)
    requires t.mem.Some? && RmFrom(t, pkg, proc, id).1 == OK
    ensures RowsTaken(t.rows, RmFrom(t, pkg, proc, id).0.rows, pkg, proc)
  {
  }

  lemma {:induction false} RmTakesProcs(t: State, pkg: string, proc: string, id: int)
    requires t.mem.Some? && RmFrom(t, pkg, proc, id).1 == OK && RmFrom(t, pkg, proc, id).0.mem.Some?
    requires forall p :: p in t.mem.value.procs ==> t.mem.value.procs[p] != {}
    ensures ProcsTaken(t.mem.value, RmFrom(t, pkg, proc, id).0.mem.value, pkg, proc)
  {
  }

  /** A remove that answers OK takes the processes and rows it names and no other; any other answer takes nothing. */
  lemma {:induction false} RemoveTakes(s: State, pkg: string, proc: string, ids: Ids)
    requires InSync(s)
    ensures var t, u, r := Ensure(s, ids), Rm(s, pkg, proc, ids).0, Rm(s, pkg, proc, ids).1;
            && u.mem.Some?
            && (r != OK ==> u == t)
            && (r == OK ==> RowsTaken(t.rows, u.rows, pkg, proc) && ProcsTaken(t.mem.value, u.mem.value, pkg, proc))
  {
    var t := Ensure(s, ids);
    EnsureInSync(s, ids);
    if Rm(s, pkg, proc, ids).1 == OK {
      RmTakesRows(t, pkg, proc, AppId(ids, pkg));
      RmTakesProcs(t, pkg, proc, AppId(ids, pkg));
    }
  }

  // ---------------------------------------------------------------------
  // Adding
  // ---------------------------------------------------------------------

  /** When each answer to an add is given. */
  lemma {:induction false} AddAnswers(s: State, pkg: string, name: string, ids: Ids)
    requires InSync(s)
    ensures var x, r := if name == "" then pkg else name, Add(s, pkg, name, ids).1;
            && r in {OK, INVALID_PKG, ITEM_EXIST}
            && (r == INVALID_PKG <==> !Validate(pkg, x) || (pkg != ISOLATED && !Installed(ids, pkg)))
            && (r == OK <==> r != INVALID_PKG && !Lists(s.rows, pkg, x))
  {
    var x := ProcName(pkg, name);
    if Validate(pkg, x) {
      ProcNameValid(pkg, name);
      EnsureInSync(s, ids);
      EnsureRead(s, ids, pkg, x);
      SyncReads(Ensure(s, ids), pkg, x);
      AddInSync(Ensure(s, ids), pkg, x, AppId(ids, pkg));
    }
  }

  ghost predicate ProcPut(before: Mem, after: Mem, pkg: string, x: string) {
    && (forall p, y :: Remembers(after, p, y) <==> Remembers(before, p, y) || (p == pkg && y == x))
    && after.locked == before.locked
  }

  lemma {:induction false} WithProcHas(procs: Procs, pkg: string, x: string, more: Procs, p: string, y: string)
    requires more == WithProc(procs, pkg, x)
    ensures p in more && y in more[p] <==> (p in procs && y in procs[p]) || (p == pkg && y == x)
  {
  }

  lemma {:induction false} AddToPuts(t: State, pkg: string, x: string, id: int, u: State)
    requires t.mem.Some? && AddTo(t, pkg, x, id) == (u, OK)
    ensures (pkg, x) !in t.rows && u.rows == t.rows[(pkg, x) := false]
    ensures u.mem.Some? && ProcPut(t.mem.value, u.mem.value, pkg, x)
  {
    forall p, y ensures Remembers(u.mem.value, p, y) <==> Remembers(t.mem.value, p, y) || (p == pkg && y == x) {
      WithProcHas(t.mem.value.procs, pkg, x, u.mem.value.procs, p, y);
    }
  }

  /** An add that answers OK puts that process and its row there, unlocked, and no other; else nothing is put. */
  lemma {:induction false} AddPuts(s: State, pkg: string, name: string, ids: Ids)
    requires InSync(s)
    ensures var x := if name == "" then pkg else name;
            var t := if Validate(pkg, x) then Ensure(s, ids) else s;
            var u, r := Add(s, pkg, name, ids).0, Add(s, pkg, name, ids).1;
            && (r != OK ==> u == t)
            && (r == OK ==>
                && (pkg, x) !in t.rows && u.rows == t.rows[(pkg, x) := false]
                && u.mem.Some? && t.mem.Some? && ProcPut(t.mem.value, u.mem.value, pkg, x))
  {
    var x := ProcName(pkg, name);
    if Validate(pkg, x) {
      var t := Ensure(s, ids);
      ProcNameValid(pkg, name);
      EnsureInSync(s, ids);
      AddInSync(t, pkg, x, AppId(ids, pkg));
      if AddTo(t, pkg, x, AppId(ids, pkg)).1 == OK {
        AddToPuts(t, pkg, x, AppId(ids, pkg), AddTo(t, pkg, x, AppId(ids, pkg)).0);
      }
    }
  }

  // ---------------------------------------------------------------------
  // Locking
  // ---------------------------------------------------------------------

  /** All the table has of the package is a sentinel row that is not locked. */
  ghost predicate Leftover(rows: Rows, p: string) {
    (p, "") in rows && !Locks(rows, p) && forall x :: (p, x) in rows ==> x == ""
  }

  predicate Lockable(pkg: string) {
    pkg != ISOLATED && Validate(pkg, "")
  }

  lemma {:induction false} LeftoverStays(s: State, ids: Ids, p: string)
    requires InSync(s)
    ensures Leftover(Ensure(s, ids).rows, p) <==> Leftover(s.rows, p)
  {
    EnsureRead(s, ids, p, "");
    ReadsOf(s.rows);
    var t := Ensure(s, ids);
    if s.mem.None? && !Leftover(s.rows, p) && (p, "") in s.rows && !Locks(s.rows, p) {
      var x :| (p, x) in s.rows && x != "";
      assert Lists(s.rows, p, x);
      assert (p, "") in t.rows ==> (p, x) in t.rows;
    }
  }

  lemma {:induction false} NothingListedIff(t: State, pkg: string)
    requires InSync(t) && t.mem.Some?
    ensures pkg !in t.mem.value.procs <==> forall x :: (pkg, x) in t.rows ==> x == ""
  {
    if pkg in t.mem.value.procs {
      SyncReads(t, pkg, "");
      var x :| x in t.mem.value.procs[pkg];
      SyncReads(t, pkg, x);
    } else {
      forall x | (pkg, x) in t.rows ensures x == "" {
        SyncReads(t, pkg, x);
      }
    }
  }

  lemma {:induction false} LockInAnswers(t: State, pkg: string, lock: bool)
    requires t.mem.Some?
    requires pkg in t.mem.value.locked <==> Locks(t.rows, pkg)
    requires pkg !in t.mem.value.procs <==> forall x :: (pkg, x) in t.rows ==> x == ""
    ensures var r := LockIn(t, pkg, lock).1;
            && r in {OK, INVALID_PKG, ERROR}
            && (r == INVALID_PKG <==> !Validate(pkg, ""))
            && (r == ERROR <==> Validate(pkg, "") && lock && Leftover(t.rows, pkg))
  {
  }

  /** When each answer to a lock change is given. */
  lemma {:induction false} LockAnswers(s: State, pkg: string, lock: bool, ids: Ids)
    requires InSync(s)
    ensures var r := SetLocked(s, pkg, lock, ids).1;
            && r in {OK, INVALID_PKG, ERROR}
            && (r == INVALID_PKG <==> !Lockable(pkg))
            && (r == ERROR <==> Lockable(pkg) && lock && Leftover(s.rows, pkg))
  {
    var t := Ensure(s, ids);
    LeftoverStays(s, ids, pkg);
    EnsureInSync(s, ids);
    SyncReads(t, pkg, "");
    NothingListedIff(t, pkg);
    LockInAnswers(t, pkg, lock);
  }

  /** A lock change leaves other packages and all processes alone and gives every row of its package the new flag. */
  ghost predicate Relocked(before: Rows, after: Rows, pkg: string, lock: bool) {
    && (forall q: (string, string) :: q.0 != pkg || q.1 != "" ==> (q in after <==> q in before))
    && (forall q :: q in after ==> after[q] == if q.0 == pkg then lock else before[q])
  }

  lemma {:induction false} LockInSets(t: State, pkg: string, lock: bool, u: State)
    requires t.mem.Some? && LockIn(t, pkg, lock) == (u, OK)
    ensures Relocked(t.rows, u.rows, pkg, lock)
    ensures u.mem == Some(t.mem.value.(locked := if lock then t.mem.value.locked + {pkg}
                                                 else t.mem.value.locked - {pkg}))
  {
  }

  /** One that answers OK changes the lock of its package and nothing else; any other answer changes nothing. */
  lemma {:induction false} LockSets(s: State, pkg: string, lock: bool, ids: Ids)
    requires InSync(s)
    ensures var t, u, r := Ensure(s, ids), SetLocked(s, pkg, lock, ids).0, SetLocked(s, pkg, lock, ids).1;
            && (r != OK ==> u == if pkg == ISOLATED then s else t)
            && (r == OK ==>
                && u.mem == Some(t.mem.value.(locked := if lock then t.mem.value.locked + {pkg}
                                                        else t.mem.value.locked - {pkg}))
                && Relocked(t.rows, u.rows, pkg, lock) && (Locks(u.rows, pkg) <==> lock))
  {
    var t, u := Ensure(s, ids), SetLocked(s, pkg, lock, ids).0;
    if SetLocked(s, pkg, lock, ids).1 == OK {
      EnsureInSync(s, ids);
      LockInSets(t, pkg, lock, u);
      LockInSync(t, pkg, lock);
      SyncReads(u, pkg, "");
    }
  }

  // ---------------------------------------------------------------------
  // One request
  // ---------------------------------------------------------------------

  predicate NeedsData(e: Event) {
    match e.req
    case AddReq(pkg, name) => Validate(pkg, if name == "" then pkg else name)
    case LockReq(pkg) => pkg != ISOLATED
    case UnlockReq(pkg) => pkg != ISOLATED
    case ZygoteReq => false
    case RestartReq => false
    case _ => true
  }

  /** The request lists, reports a zygote restart while data is loaded, or loads it. */
  predicate Cleans(s: State, e: Event) {
    e.req.ListReq? || if s.mem.Some? then e.req.ZygoteReq? else NeedsData(e)
  }

  predicate Puts(e: Event, p: string, x: string) {
    && e.req.AddReq? && e.req.pkg == p && x == (if e.req.proc == "" then p else e.req.proc)
    && Validate(p, x) && (p == ISOLATED || Installed(e.ids, p))
  }

  /** The request names the process and its package is not locked, or it cleans and the package is gone. */
  ghost predicate Takes(s: State, e: Event, p: string, x: string) {
    || (e.req.RmReq? && e.req.pkg == p && Means(e.req.proc, x) && !Locks(s.rows, p))
    || (Cleans(s, e) && Gone(s.rows, e.ids, p))
  }

  lemma {:induction false} AddLists(s: State, e: Event, p: string, x: string)
    requires InSync(s) && e.req.AddReq? && x != ""
    ensures Lists(Step(s, e).rows, p, x) <==> Puts(e, p, x) || (Lists(s.rows, p, x) && !Takes(s, e, p, x))
  {
    EnsureRead(s, e.ids, p, x);
    AddAnswers(s, e.req.pkg, e.req.proc, e.ids);
    AddPuts(s, e.req.pkg, e.req.proc, e.ids);
  }

  lemma {:induction false} RmLists(s: State, e: Event, p: string, x: string)
    requires InSync(s) && e.req.RmReq? && x != ""
    ensures Lists(Step(s, e).rows, p, x) <==> Lists(s.rows, p, x) && !Takes(s, e, p, x)
  {
    var t, pkg, proc := Ensure(s, e.ids), e.req.pkg, e.req.proc;
    EnsureRead(s, e.ids, p, x);
    RemoveAnswers(s, pkg, proc, e.ids);
    RemoveTakes(s, pkg, proc, e.ids);
    if Rm(s, pkg, proc, e.ids).1 == OK {
      assert (p, x) in Step(s, e).rows <==> (p, x) in t.rows && !((p, x).0 == pkg && Means(proc, (p, x).1));
    } else if p == pkg && Means(proc, x) && Lists(t.rows, p, x) {
      assert Matching(t.rows, pkg, proc);
    }
  }

  lemma {:induction false} LockLists(s: State, e: Event, p: string, x: string)
    requires InSync(s) && (e.req.LockReq? || e.req.UnlockReq?) && x != ""
    ensures Lists(Step(s, e).rows, p, x) <==> Lists(s.rows, p, x) && !Takes(s, e, p, x)
  {
    EnsureRead(s, e.ids, p, x);
    LockSets(s, e.req.pkg, e.req.LockReq?, e.ids);
    if SetLocked(s, e.req.pkg, e.req.LockReq?, e.ids).1 == OK {
      assert (p, x).1 != "" && ((p, x) in Step(s, e).rows <==> (p, x) in Ensure(s, e.ids).rows);
    }
  }

  /** A process is listed after a request exactly when the request puts it, or it was listed and is not taken. */
  lemma {:induction false} StepListsIff(s: State, e: Event, p: string, x: string)
    requires InSync(s) && x != ""
    ensures Lists(Step(s, e).rows, p, x) <==> Puts(e, p, x) || (Lists(s.rows, p, x) && !Takes(s, e, p, x))
  {
    EnsureRead(s, e.ids, p, x);
    match e.req {
      case AddReq(_, _) => AddLists(s, e, p, x);
      case RmReq(_, _) => RmLists(s, e, p, x);
      case LockReq(_) => LockLists(s, e, p, x);
      case UnlockReq(_) => LockLists(s, e, p, x);
      case ListReq => RescanRead(Ensure(s, e.ids), e.ids, p, x);
      case ZygoteReq => RescanRead(s, e.ids, p, x);
      case _ =>
    }
  }

  ghost predicate Raises(s: State, e: Event, p: string) {
    e.req == LockReq(p) && Lockable(p) && !Leftover(s.rows, p)
  }

  predicate Lowers(e: Event, p: string) {
    e.req == UnlockReq(p) && Lockable(p)
  }

  lemma {:induction false} AddLocks(s: State, e: Event, p: string)
    requires InSync(s) && e.req.AddReq?
    ensures Locks(Step(s, e).rows, p) <==> Locks(s.rows, p)
  {
    EnsureRead(s, e.ids, p, "");
    AddPuts(s, e.req.pkg, e.req.proc, e.ids);
    var t := if NeedsData(e) then Ensure(s, e.ids) else s;
    if x :| (p, x) in t.rows && t.rows[(p, x)] {
      assert (p, x) in Step(s, e).rows && Step(s, e).rows[(p, x)];
    }
    if x :| (p, x) in Step(s, e).rows && Step(s, e).rows[(p, x)] {
      assert (p, x) in t.rows && t.rows[(p, x)];
    }
  }

  lemma {:induction false} RmLocks(s: State, e: Event, p: string)
    requires InSync(s) && e.req.RmReq?
    ensures Locks(Step(s, e).rows, p) <==> Locks(s.rows, p)
  {
    EnsureRead(s, e.ids, p, "");
    StepInSync(s, e);
    RemoveTakes(s, e.req.pkg, e.req.proc, e.ids);
    SyncReads(Ensure(s, e.ids), p, "");
    SyncReads(Step(s, e), p, "");
  }

  lemma {:induction false} LockLocks(s: State, e: Event, p: string)
    requires InSync(s) && (e.req.LockReq? || e.req.UnlockReq?)
    ensures Locks(Step(s, e).rows, p) <==> Raises(s, e, p) || (Locks(s.rows, p) && !Lowers(e, p))
  {
    EnsureRead(s, e.ids, p, "");
    StepInSync(s, e);
    LockAnswers(s, e.req.pkg, e.req.LockReq?, e.ids);
    LockSets(s, e.req.pkg, e.req.LockReq?, e.ids);
    if SetLocked(s, e.req.pkg, e.req.LockReq?, e.ids).1 == OK {
      SyncReads(Ensure(s, e.ids), p, "");
      SyncReads(Step(s, e), p, "");
    }
  }

  /** A package is locked after a request exactly when the request raises the lock, or it was locked and stays so. */
  lemma {:induction false} StepLocksIff(s: State, e: Event, p: string)
    requires InSync(s)
    ensures Locks(Step(s, e).rows, p) <==> Raises(s, e, p) || (Locks(s.rows, p) && !Lowers(e, p))
  {
    EnsureRead(s, e.ids, p, "");
    match e.req {
      case AddReq(_, _) => AddLocks(s, e, p);
      case RmReq(_, _) => RmLocks(s, e, p);
      case LockReq(_) => LockLocks(s, e, p);
      case UnlockReq(_) => LockLocks(s, e, p);
      case ListReq => RescanRead(Ensure(s, e.ids), e.ids, p, "");
      case ZygoteReq => RescanRead(s, e.ids, p, "");
      case _ =>
    }
  }

  // ---------------------------------------------------------------------
  // Whole runs
  // ---------------------------------------------------------------------

  ghost predicate TakesAt(rows: Rows, es: seq<Event>, k: nat, p: string, x: string)
    requires k < |es|
  {
    Takes(At(rows, es, k), es[k], p, x)
  }

  ghost predicate NoneTakes(rows: Rows, es: seq<Event>, from: nat, n: nat, p: string, x: string)
    requires n <= |es|
  {
    forall k :: from <= k < n ==> !TakesAt(rows, es, k, p, x)
  }

  ghost predicate PutLast(rows: Rows, es: seq<Event>, j: nat, n: nat, p: string, x: string)
    requires j < n <= |es|
  {
    Puts(es[j], p, x) && NoneTakes(rows, es, j + 1, n, p, x)
  }

  /** Put by some request, or there from the start, and taken by none since. */
  ghost predicate ListedSince(rows: Rows, es: seq<Event>, n: nat, p: string, x: string)
    requires n <= |es|
  {
    || (exists j :: 0 <= j < n && PutLast(rows, es, j, n, p, x))
    || (Lists(rows, p, x) && NoneTakes(rows, es, 0, n, p, x))
  }

  lemma {:induction false} SinceGrows(rows: Rows, es: seq<Event>, n: nat, p: string, x: string)
    requires n < |es|
    ensures ListedSince(rows, es, n + 1, p, x) <==>
            Puts(es[n], p, x) || (ListedSince(rows, es, n, p, x) && !TakesAt(rows, es, n, p, x))
  {
    var m := n + 1;
    if j :| 0 <= j < m && PutLast(rows, es, j, m, p, x) {
      assert j == n || PutLast(rows, es, j, n, p, x);
    }
    if Puts(es[n], p, x) {
      assert PutLast(rows, es, n, n + 1, p, x);
    }
    if ListedSince(rows, es, n, p, x) && !TakesAt(rows, es, n, p, x) {
      if j :| 0 <= j < n && PutLast(rows, es, j, n, p, x) {
        assert PutLast(rows, es, j, n + 1, p, x);
      }
    }
  }

  /**
   * At every moment of every run: a process is listed exactly when it was listed or added and no
   * remove and no cleaning has taken it since; loaded memory lists the same.
   */
  lemma {:induction false} RunListsIff(rows: Rows, es: seq<Event>, n: nat, p: string, x: string)
    requires n <= |es| && x != ""
    ensures var s := At(rows, es, n);
            && (Lists(s.rows, p, x) <==> ListedSince(rows, es, n, p, x))
            && (s.mem.Some? ==> (Remembers(s.mem.value, p, x) <==> ListedSince(rows, es, n, p, x)))
  {
    RunInSync(rows, es, n);
    if n > 0 {
      RunListsIff(rows, es, n - 1, p, x);
      RunInSync(rows, es, n - 1);
      StepListsIff(At(rows, es, n - 1), es[n - 1], p, x);
      SinceGrows(rows, es, n - 1, p, x);
    }
    if At(rows, es, n).mem.Some? {
      SyncReads(At(rows, es, n), p, x);
    }
  }

  ghost predicate RaisesAt(rows: Rows, es: seq<Event>, k: nat, p: string)
    requires k < |es|
  {
    Raises(At(rows, es, k), es[k], p)
  }

  ghost predicate NoneLowers(es: seq<Event>, from: nat, n: nat, p: string)
    requires n <= |es|
  {
    forall k :: from <= k < n ==> !Lowers(es[k], p)
  }

  ghost predicate RaisedLast(rows: Rows, es: seq<Event>, j: nat, n: nat, p: string)
    requires j < n <= |es|
  {
    RaisesAt(rows, es, j, p) && NoneLowers(es, j + 1, n, p)
  }

  ghost predicate LockedSince(rows: Rows, es: seq<Event>, n: nat, p: string)
    requires n <= |es|
  {
    || (exists j :: 0 <= j < n && RaisedLast(rows, es, j, n, p))
    || (Locks(rows, p) && NoneLowers(es, 0, n, p))
  }

  lemma {:induction false} LockGrows(rows: Rows, es: seq<Event>, n: nat, p: string)
    requires n < |es|
    ensures LockedSince(rows, es, n + 1, p) <==>
            RaisesAt(rows, es, n, p) || (LockedSince(rows, es, n, p) && !Lowers(es[n], p))
  {
    var m := n + 1;
    if j :| 0 <= j < m && RaisedLast(rows, es, j, m, p) {
      assert j == n || RaisedLast(rows, es, j, n, p);
    }
    if RaisesAt(rows, es, n, p) {
      assert RaisedLast(rows, es, n, n + 1, p);
    }
    if LockedSince(rows, es, n, p) && !Lowers(es[n], p) {
      if j :| 0 <= j < n && RaisedLast(rows, es, j, n, p) {
        assert RaisedLast(rows, es, j, n + 1, p);
      }
    }
  }

  /** At every moment of every run: a package is locked exactly when it was or was made so, and not unlocked since. */
  lemma {:induction false} RunLocksIff(rows: Rows, es: seq<Event>, n: nat, p: string)
    requires n <= |es|
    ensures var s := At(rows, es, n);
            && (Locks(s.rows, p) <==> LockedSince(rows, es, n, p))
            && (s.mem.Some? ==> (p in s.mem.value.locked <==> LockedSince(rows, es, n, p)))
  {
    RunInSync(rows, es, n);
    if n > 0 {
      RunLocksIff(rows, es, n - 1, p);
      RunInSync(rows, es, n - 1);
      StepLocksIff(At(rows, es, n - 1), es[n - 1], p);
      LockGrows(rows, es, n - 1, p);
    }
    if At(rows, es, n).mem.Some? {
      SyncReads(At(rows, es, n), p, "");
    }
  }

  // ---------------------------------------------------------------------
  // The check
  // ---------------------------------------------------------------------

  /** The uid of an app for a user. */
  lemma {:induction false} UidOf(user: nat, app: nat)
    requires app < 100000
    ensures ToAppId(user * 100000 + app) == app
  {
  }

  /** An isolated process is taken for a target exactly when a beginning of its name is listed as isolated. */
  lemma {:induction false} RunFindsIsolatedIff(rows: Rows, es: seq<Event>, n: nat, user: nat, app: nat,
      process: string)
    requires n <= |es| && At(rows, es, n).mem.Some? && 90000 <= app < 100000
    ensures var m := At(rows, es, n).mem.value;
            IsDenyTarget(m, user * 100000 + app, process) <==>
            exists k :: 0 < k <= |process| && ListedSince(rows, es, n, "isolated", process[..k])
  {
    var m := At(rows, es, n).mem.value;
    UidOf(user, app);
    RunInSync(rows, es, n);
    if IsDenyTarget(m, user * 100000 + app, process) {
      var p :| p in m.procs[ISOLATED] && StartsWith(process, p);
      SyncReads(At(rows, es, n), ISOLATED, p);
      RunListsIff(rows, es, n, ISOLATED, p);
      assert process[..|p|] == p;
    }
    if k :| 0 < k <= |process| && ListedSince(rows, es, n, "isolated", process[..k]) {
      RunListsIff(rows, es, n, ISOLATED, process[..k]);
      assert StartsWith(process, process[..k]);
    }
  }

  /**
   * With app ids that do not change, the process of an app is taken for a target exactly when it was
   * listed or added for an installed package with that app id, nothing has taken it since, and the
   * package was not locked at the last scan or was added to after it.
   */
  lemma {:induction false} RunFindsAppIff(rows: Rows, es: seq<Event>, n: nat, ids: Ids, user: nat, app: nat,
      process: string)
    requires n <= |es| && (forall k :: 0 <= k < n ==> es[k].ids == ids)
    requires At(rows, es, n).mem.Some? && 0 < app < 90000 && process != ""
    ensures var m := At(rows, es, n).mem.value;
            && Defined(m)
            && (IsDenyTarget(m, user * 100000 + app, process) <==>
                exists p :: p in ids && p != "isolated" && ids[p] == app && ListedSince(rows, es, n, p, process) &&
                            Findable(rows, es, n, p))
  {
    var s := At(rows, es, n);
    UidOf(user, app);
    RunFindsIff(rows, es, n, ids, user * 100000 + app, process);
    forall p ensures Remembers(s.mem.value, p, process) <==> ListedSince(rows, es, n, p, process) {
      RunListsIff(rows, es, n, p, process);
    }
    forall p ensures p in ids && p != "isolated" && ids[p] == app <==> App(ids, p) && AppId(ids, p) == app {
    }
  }
}
