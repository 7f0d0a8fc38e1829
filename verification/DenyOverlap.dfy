/**
 * Overlapping denylist requests (native/src/core/deny/utils.cpp): they are served on
 * several threads, and an add, a remove or a lock change leaves the lock before it
 * writes the table.
 */
module DenyOverlap {
  import opened Options
  import opened Denylist

  function ExecAll(rows: Rows, ws: seq<Write>): Rows
    decreases |ws|
  {
    if ws == [] then rows else ExecAll(Exec(rows, ws[0]), ws[1..])
  }

  lemma {:induction false} ExecSnoc(rows: Rows, ws: seq<Write>, w: Write)
    ensures ExecAll(rows, ws + [w]) == Exec(ExecAll(rows, ws), w)
    decreases |ws|
  {
    if ws == [] {
      assert [w][1..] == [];
    } else {
      assert (ws + [w])[1..] == ws[1..] + [w];
      ExecSnoc(Exec(rows, ws[0]), ws[1..], w);
    }
  }

  function Once(w: Option<Write>): seq<Write> {
    if w.Some? then [w.value] else []
  }

  lemma {:induction false} ExecOnce(rows: Rows, ws: seq<Write>, w: Option<Write>)
    ensures ExecAll(rows, ws + Once(w)) == ExecSome(ExecAll(rows, ws), w)
  {
    if w.Some? {
      ExecSnoc(rows, ws, w.value);
    } else {
      assert ws + Once(w) == ws;
    }
  }

  // ---------------------------------------------------------------------
  // The section of each request
  // ---------------------------------------------------------------------

  function Stales(m: Mem, ids: Ids): set<string> {
    set p | p in m.procs && Stale(m.locked, ids, p)
  }

  function ScanSection(m: Mem, ids: Ids): Section {
    var all := m.procs.Keys;
    Section(Mem(ScanProcs(m, ids, all), ScanIndex(m, ids, all), m.locked), Some(Drop(Stales(m, ids))), None, OK)
  }

  lemma {:induction false} ScanIsSection(m: Mem, rows: Rows, ids: Ids)
    ensures Scan(m, rows, ids) == Finished(rows, ScanSection(m, ids)).0
  {
    assert ScanRows(m, rows, ids, m.procs.Keys) == Without(rows, Stales(m, ids));
  }

  /** The state in which the section of a request runs: with the data loaded, where the request needs it. */
  function Opened(s: State, e: Event): State {
    match e.req
    case AddReq(pkg, name) => if Validate(pkg, ProcName(pkg, name)) then Ensure(s, e.ids) else s
    case LockReq(pkg) => if pkg == ISOLATED then s else Ensure(s, e.ids)
    case UnlockReq(pkg) => if pkg == ISOLATED then s else Ensure(s, e.ids)
    case ZygoteReq => s
    case RestartReq => State(None, s.rows)
    case _ => Ensure(s, e.ids)
  }

  /** The section, or None where the request does nothing more. */
  function SectionOf(t: State, e: Event): Option<Section> {
    if t.mem.None? then None
    else
      var m := t.mem.value;
      match e.req
      case AddReq(pkg, name) =>
        var proc := ProcName(pkg, name);
        if Validate(pkg, proc) then Some(AddSection(m, pkg, proc, AppId(e.ids, pkg))) else None
      case RmReq(pkg, proc) => Some(RmSection(m, pkg, proc, AppId(e.ids, pkg)))
      case LockReq(pkg) => if pkg == ISOLATED then None else Some(LockSection(m, t.rows, pkg, true))
      case UnlockReq(pkg) => if pkg == ISOLATED then None else Some(LockSection(m, t.rows, pkg, false))
      case ListReq => Some(ScanSection(m, e.ids))
      case ZygoteReq => Some(ScanSection(m, e.ids))
      case _ => None
  }

  function Whole(t: State, sec: Option<Section>): State {
    if sec.None? then t else Finished(t.rows, sec.value).0
  }

  /** Section and statement together are the request. */
  lemma {:induction false} SectionThenStatement(s: State, e: Event)
    ensures Step(s, e) == Whole(Opened(s, e), SectionOf(Opened(s, e), e))
  {
    var t := Opened(s, e);
    if (e.req.ListReq? || e.req.ZygoteReq?) && t.mem.Some? {
      ScanIsSection(t.mem.value, t.rows, e.ids);
    }
  }

  /** The state when the lock is released. */
  function Released(t: State, sec: Option<Section>): State {
    if sec.None? then t else State(Some(sec.value.mem), ExecSome(t.rows, sec.value.early))
  }

  function Early(sec: Option<Section>): Option<Write> {
    if sec.None? then None else sec.value.early
  }

  function Late(sec: Option<Section>): Option<Write> {
    if sec.None? then None else sec.value.late
  }

  // ---------------------------------------------------------------------
  // Runs with overlapping requests
  // ---------------------------------------------------------------------

  /** Memory and table, and the statements to come in the order their sections ran. */
  datatype System = System(now: State, pending: seq<Write>)

  /** A section runs, or one of the statements to come does. A daemon that dies takes those with it. */
  datatype Move = Begin(e: Event) | Finish(k: nat)

  function MoveStep(y: System, mv: Move): System {
    match mv
    case Begin(e) =>
      var t := Opened(y.now, e);
      var sec := SectionOf(t, e);
      System(Released(t, sec), if e.req.RestartReq? then [] else y.pending + Once(Late(sec)))
    case Finish(k) =>
      if k >= |y.pending| then y
      else System(State(y.now.mem, Exec(y.now.rows, y.pending[k])), y.pending[..k] + y.pending[k + 1..])
  }

  /** A daemon that has just started on a table. */
  function Started(rows: Rows): System {
    System(State(None, rows), [])
  }

  function MoveAll(y: System, mvs: seq<Move>, n: nat): System
    requires n <= |mvs|
  {
    if n == 0 then y else MoveStep(MoveAll(y, mvs, n - 1), mvs[n - 1])
  }

  // ---------------------------------------------------------------------
  // Two orders
  // ---------------------------------------------------------------------

  /**
   * What was written since the data was loaded from `base`: in the order of the sections,
   * and in the order the table saw it. What a section writes itself is in both at once.
   */
  datatype History = History(base: Rows, begun: seq<Write>, ran: seq<Write>)

  function Recorded(h: History, y: System, mv: Move): History {
    match mv
    case Begin(e) =>
      var t := Opened(y.now, e);
      var sec := SectionOf(t, e);
      var h' := if y.now.mem.None? || t.mem.None? then History(t.rows, [], []) else h;
      History(h'.base, h'.begun + Once(Early(sec)) + Once(Late(sec)), h'.ran + Once(Early(sec)))
    case Finish(k) => if k >= |y.pending| then h else h.(ran := h.ran + [y.pending[k]])
  }

  function HistoryAt(rows: Rows, mvs: seq<Move>, n: nat): History
    requires n <= |mvs|
  {
    if n == 0 then History(rows, [], [])
    else Recorded(HistoryAt(rows, mvs, n - 1), MoveAll(Started(rows), mvs, n - 1), mvs[n - 1])
  }

  /** The table is what was run made of it. */
  ghost predicate TableTraced(y: System, h: History) {
    y.now.rows == ExecAll(h.base, h.ran)
  }

  /** What was begun was run or is to come, and without data nothing is to come. */
  ghost predicate PendingTraced(y: System, h: History) {
    multiset(h.ran) + multiset(y.pending) == multiset(h.begun) && (y.now.mem.None? ==> y.pending == [])
  }

  /** Memory is what the table would be, had the statements run in the order of their sections. */
  ghost predicate MemTraced(y: System, h: History) {
    && InSync(State(y.now.mem, ExecAll(h.base, h.begun)))
    && (y.now.mem.Some? ==> LocksTraced(y.now.mem.value.locked, h))
  }

  ghost predicate LocksTraced(locked: set<string>, h: History) {
    forall p :: p in locked <==> LastIsLock(h.base, h.begun, p)
  }

  predicate ChangesLock(w: Write, pkg: string) {
    w.SetFlag? && w.pkg == pkg
  }

  /** The last lock change of the package is a lock, or there is none and it was locked before. */
  ghost predicate LastIsLock(base: Rows, ws: seq<Write>, pkg: string) {
    || (pkg in LockedOf(base) && forall j :: 0 <= j < |ws| ==> !ChangesLock(ws[j], pkg))
    || exists i :: 0 <= i < |ws| && ws[i] == SetFlag(pkg, true) && NoneLowers(ws, i, pkg)
  }

  ghost predicate NoneLowers(ws: seq<Write>, i: nat, pkg: string) {
    forall j :: i <= j < |ws| ==> ws[j] != SetFlag(pkg, false)
  }

  lemma {:induction false} NoneLowersSnoc(ws: seq<Write>, w: Write, i: nat, pkg: string)
    requires i <= |ws|
    ensures NoneLowers(ws + [w], i, pkg) <==> NoneLowers(ws, i, pkg) && w != SetFlag(pkg, false)
  {
    var all := ws + [w];
    assert all[|ws|] == w;
    assert forall j :: i <= j < |ws| ==> all[j] == ws[j];
  }

  lemma {:induction false} LastIsLockSnoc(base: Rows, ws: seq<Write>, w: Write, pkg: string)
    ensures LastIsLock(base, ws + [w], pkg) <==>
            if ChangesLock(w, pkg) then w.flag else LastIsLock(base, ws, pkg)
  {
    var all := ws + [w];
    assert all[|ws|] == w;
    assert forall j :: 0 <= j < |ws| ==> all[j] == ws[j];
    forall i | 0 <= i <= |ws|
      ensures NoneLowers(all, i, pkg) <==> NoneLowers(ws, i, pkg) && w != SetFlag(pkg, false)
    {
      NoneLowersSnoc(ws, w, i, pkg);
    }
    if w == SetFlag(pkg, true) {
      assert NoneLowers(all, |ws|, pkg);
    } else if !ChangesLock(w, pkg) {
      if i :| 0 <= i < |ws| && ws[i] == SetFlag(pkg, true) && NoneLowers(ws, i, pkg) {
        assert all[i] == SetFlag(pkg, true) && NoneLowers(all, i, pkg);
      }
    } else {
      forall i | 0 <= i <= |ws| ensures !NoneLowers(all, i, pkg) {
      }
    }
  }

  lemma {:induction false} LastIsLockOnce(base: Rows, ws: seq<Write>, w: Option<Write>, pkg: string)
    ensures LastIsLock(base, ws + Once(w), pkg) <==>
            if w.Some? && ChangesLock(w.value, pkg) then w.value.flag else LastIsLock(base, ws, pkg)
  {
    if w.Some? {
      LastIsLockSnoc(base, ws, w.value, pkg);
    } else {
      assert ws + Once(w) == ws;
    }
  }

  // A section, on any table that holds what memory does, whatever the real one is.

  lemma {:induction false} ScanKeepsSync(m: Mem, rows: Rows, ids: Ids)
    requires InSync(State(Some(m), rows))
    ensures InSync(Finished(rows, ScanSection(m, ids)).0)
  {
    ReadsOf(rows);
    ScanInSync(m, rows, ids);
    ScanIsSection(m, rows, ids);
  }

  lemma {:induction false} AddKeepsSync(m: Mem, rows: Rows, pkg: string, name: string, id: int)
    requires InSync(State(Some(m), rows)) && Validate(pkg, ProcName(pkg, name))
    ensures InSync(Finished(rows, AddSection(m, pkg, ProcName(pkg, name), id)).0)
  {
    ReadsOf(rows);
    ProcNameValid(pkg, name);
    AddInSync(State(Some(m), rows), pkg, ProcName(pkg, name), id);
  }

  lemma {:induction false} RmKeepsSync(m: Mem, rows: Rows, pkg: string, proc: string, id: int)
    requires InSync(State(Some(m), rows))
    ensures InSync(Finished(rows, RmSection(m, pkg, proc, id)).0)
  {
    ReadsOf(rows);
    RmInSync(State(Some(m), rows), pkg, proc, id);
  }

  lemma {:induction false} SectionKeepsSync(t: State, e: Event, sec: Section, rows: Rows)
    requires t.mem.Some? && SectionOf(t, e) == Some(sec) && InSync(State(t.mem, rows))
    ensures InSync(Finished(rows, sec).0)
  {
    var m := t.mem.value;
    match e.req {
      case AddReq(pkg, name) => AddKeepsSync(m, rows, pkg, name, AppId(e.ids, pkg));
      case RmReq(pkg, proc) => RmKeepsSync(m, rows, pkg, proc, AppId(e.ids, pkg));
      case LockReq(pkg) => LockSectionInSync(m, t.rows, pkg, true, rows);
      case UnlockReq(pkg) => LockSectionInSync(m, t.rows, pkg, false, rows);
      case ListReq => ScanKeepsSync(m, rows, e.ids);
      case ZygoteReq => ScanKeepsSync(m, rows, e.ids);
      case _ =>
    }
  }

  /** Only a lock change has a statement that changes flags, and memory follows it. */
  lemma {:induction false} SectionLocks(t: State, e: Event, sec: Section, p: string)
    requires t.mem.Some? && SectionOf(t, e) == Some(sec)
    ensures sec.early.Some? ==> !ChangesLock(sec.early.value, p)
    ensures p in sec.mem.locked <==>
            if sec.late.Some? && ChangesLock(sec.late.value, p) then sec.late.value.flag else p in t.mem.value.locked
  {
  }

  /** Loading and restarting begin a new history. */
  function Base(h: History, y: System, e: Event): History {
    var t := Opened(y.now, e);
    if y.now.mem.None? || t.mem.None? then History(t.rows, [], []) else h
  }

  lemma {:induction false} LoadedLocks(rows: Rows, p: string)
    ensures LastIsLock(rows, [], p) <==> p in LockedOf(rows)
  {
  }

  /** A request leaves loaded data alone, loads it, or leaves it unloaded. */
  lemma {:induction false} OpenedIs(s: State, e: Event)
    ensures var t := Opened(s, e);
            || t.mem.None?
            || (s.mem.Some? && t == s)
            || (s.mem.None? && t == Ensure(s, e.ids))
  {
  }

  lemma {:induction false} LoadedTraced(s: State, ids: Ids, pending: seq<Write>)
    requires s.mem.None?
    ensures MemTraced(System(Ensure(s, ids), pending), History(Ensure(s, ids).rows, [], []))
  {
    EnsureInSync(s, ids);
    var t := Ensure(s, ids);
    forall p ensures p in t.mem.value.locked <==> LastIsLock(t.rows, [], p) {
      LoadedLocks(t.rows, p);
    }
  }

  lemma {:induction false} BaseTraced(h: History, y: System, e: Event)
    requires MemTraced(y, h)
    ensures MemTraced(System(Opened(y.now, e), []), Base(h, y, e))
  {
    OpenedIs(y.now, e);
    var t := Opened(y.now, e);
    if t.mem.Some? && y.now.mem.None? {
      LoadedTraced(y.now, e.ids, []);
    }
  }

  lemma {:induction false} BeginMem(y: System, h: History, e: Event)
    requires MemTraced(y, h)
    ensures MemTraced(MoveStep(y, Begin(e)), Recorded(h, y, Begin(e)))
  {
    var t, b := Opened(y.now, e), Base(h, y, e);
    var sec := SectionOf(t, e);
    BaseTraced(h, y, e);
    ExecOnce(b.base, b.begun, Early(sec));
    ExecOnce(b.base, b.begun + Once(Early(sec)), Late(sec));
    if sec.Some? {
      SectionKeepsSync(t, e, sec.value, ExecAll(b.base, b.begun));
      var begun := b.begun + Once(Early(sec)) + Once(Late(sec));
      forall p ensures p in sec.value.mem.locked <==> LastIsLock(b.base, begun, p) {
        SectionLocks(t, e, sec.value, p);
        LastIsLockOnce(b.base, b.begun, Early(sec), p);
        LastIsLockOnce(b.base, b.begun + Once(Early(sec)), Late(sec), p);
      }
    } else {
      assert b.begun + Once(Early(sec)) + Once(Late(sec)) == b.begun;
    }
  }

  lemma {:induction false} BeginTable(y: System, h: History, e: Event)
    requires TableTraced(y, h)
    ensures TableTraced(MoveStep(y, Begin(e)), Recorded(h, y, Begin(e)))
  {
    var b := Base(h, y, e);
    ExecOnce(b.base, b.ran, Early(SectionOf(Opened(y.now, e), e)));
  }

  lemma {:induction false} Together(ran: seq<Write>, pending: seq<Write>, begun: seq<Write>, early: seq<Write>,
      late: seq<Write>)
    requires multiset(ran) + multiset(pending) == multiset(begun)
    ensures multiset(ran + early) + multiset(pending + late) == multiset(begun + early + late)
  {
  }

  lemma {:induction false} BeginPending(y: System, h: History, e: Event)
    requires PendingTraced(y, h)
    ensures PendingTraced(MoveStep(y, Begin(e)), Recorded(h, y, Begin(e)))
  {
    OpenedIs(y.now, e);
    var t, b := Opened(y.now, e), Base(h, y, e);
    var sec := SectionOf(t, e);
    if t.mem.None? {
      assert y.now.mem.None? || e.req.RestartReq?;
    } else {
      Together(b.ran, y.pending, b.begun, Once(Early(sec)), Once(Late(sec)));
    }
  }

  lemma {:induction false} TakenOut(ws: seq<Write>, k: nat)
    requires k < |ws|
    ensures multiset(ws[..k] + ws[k + 1..]) + multiset([ws[k]]) == multiset(ws)
  {
    assert ws == ws[..k] + [ws[k]] + ws[k + 1..];
  }

  lemma {:induction false} FinishTraced(y: System, h: History, k: nat)
    requires TableTraced(y, h) && PendingTraced(y, h)
    ensures TableTraced(MoveStep(y, Finish(k)), Recorded(h, y, Finish(k)))
    ensures PendingTraced(MoveStep(y, Finish(k)), Recorded(h, y, Finish(k)))
  {
    if k < |y.pending| {
      ExecSnoc(h.base, h.ran, y.pending[k]);
      TakenOut(y.pending, k);
    }
  }

  lemma {:induction false} FinishMem(y: System, h: History, k: nat)
    requires MemTraced(y, h)
    ensures MemTraced(MoveStep(y, Finish(k)), Recorded(h, y, Finish(k)))
  {
  }

  lemma {:induction false} StartedTraced(rows: Rows)
    ensures TableTraced(Started(rows), History(rows, [], [])) && PendingTraced(Started(rows), History(rows, [], []))
    ensures MemTraced(Started(rows), History(rows, [], []))
  {
  }

  ghost predicate Traced(y: System, h: History) {
    TableTraced(y, h) && PendingTraced(y, h) && MemTraced(y, h)
  }

  lemma {:induction false} NextTraced(y: System, h: History, mv: Move, y': System, h': History)
    requires Traced(y, h) && y' == MoveStep(y, mv) && h' == Recorded(h, y, mv)
    ensures Traced(y', h')
  {
    if mv.Begin? {
      BeginTable(y, h, mv.e);
      BeginPending(y, h, mv.e);
      BeginMem(y, h, mv.e);
    } else {
      FinishTraced(y, h, mv.k);
      FinishMem(y, h, mv.k);
    }
  }

  lemma {:induction false} MoveAllNext(y: System, mvs: seq<Move>, n: nat)
    requires 0 < n <= |mvs|
    ensures MoveAll(y, mvs, n) == MoveStep(MoveAll(y, mvs, n - 1), mvs[n - 1])
  {
  }

  lemma {:induction false} HistoryNext(rows: Rows, mvs: seq<Move>, n: nat)
    requires 0 < n <= |mvs|
    ensures HistoryAt(rows, mvs, n) ==
            Recorded(HistoryAt(rows, mvs, n - 1), MoveAll(Started(rows), mvs, n - 1), mvs[n - 1])
  {
  }

  lemma {:induction false} TracedUpTo(rows: Rows, mvs: seq<Move>, n: nat, y: System, h: History)
    requires n <= |mvs| && y == MoveAll(Started(rows), mvs, n) && h == HistoryAt(rows, mvs, n)
    ensures Traced(y, h)
  {
    if n == 0 {
      StartedTraced(rows);
    } else {
      var before, past := MoveAll(Started(rows), mvs, n - 1), HistoryAt(rows, mvs, n - 1);
      TracedUpTo(rows, mvs, n - 1, before, past);
      MoveAllNext(Started(rows), mvs, n);
      HistoryNext(rows, mvs, n);
      NextTraced(before, past, mvs[n - 1], y, h);
    }
  }

  lemma {:induction false} RunTraced(rows: Rows, mvs: seq<Move>, n: nat)
    requires n <= |mvs|
    ensures Traced(MoveAll(Started(rows), mvs, n), HistoryAt(rows, mvs, n))
  {
    TracedUpTo(rows, mvs, n, MoveAll(Started(rows), mvs, n), HistoryAt(rows, mvs, n));
  }

  // ---------------------------------------------------------------------
  // What the order decides
  // ---------------------------------------------------------------------

  predicate Puts(w: Write, r: (string, string)) {
    (w.Insert? && r == (w.pkg, w.proc)) || (w.Sentinel? && r == (w.pkg, ""))
  }

  predicate Takes(w: Write, r: (string, string)) {
    (w.Delete? && r == (w.pkg, w.proc)) || (w.Drop? && r.0 in w.pkgs)
  }

  ghost predicate NoneTakes(ws: seq<Write>, i: nat, r: (string, string)) {
    forall j :: i <= j < |ws| ==> !Takes(ws[j], r)
  }

  /** The row was there or was put there, and nothing takes it away behind that. */
  ghost predicate RowEnds(base: Rows, ws: seq<Write>, r: (string, string)) {
    || (r in base && NoneTakes(ws, 0, r))
    || exists i :: 0 <= i < |ws| && Puts(ws[i], r) && NoneTakes(ws, i, r)
  }

  /** The flag goes up on the row: with a sentinel, or with a lock that finds the row there. */
  ghost predicate Raises(base: Rows, ws: seq<Write>, i: nat, r: (string, string))
    requires i < |ws|
  {
    || (ws[i] == Sentinel(r.0) && r.1 == "")
    || (ws[i] == SetFlag(r.0, true) && RowEnds(base, ws[..i], r))
  }

  /** The row was locked or its flag went up, and nothing takes it away or lowers the flag behind that. */
  ghost predicate FlagEnds(base: Rows, ws: seq<Write>, r: (string, string)) {
    || (r in base && base[r] && NoneTakes(ws, 0, r) && NoneLowers(ws, 0, r.0))
    || exists i :: 0 <= i < |ws| && Raises(base, ws, i, r) && NoneTakes(ws, i, r) && NoneLowers(ws, i, r.0)
  }

  ghost predicate LockEnds(base: Rows, ws: seq<Write>, pkg: string) {
    exists x :: FlagEnds(base, ws, (pkg, x))
  }

  lemma {:induction false} NoneTakesSnoc(ws: seq<Write>, w: Write, i: nat, r: (string, string))
    requires i <= |ws|
    ensures NoneTakes(ws + [w], i, r) <==> NoneTakes(ws, i, r) && !Takes(w, r)
  {
    var all := ws + [w];
    assert all[|ws|] == w;
    assert forall j :: i <= j < |ws| ==> all[j] == ws[j];
  }

  lemma {:induction false} RowEndsSnoc(base: Rows, ws: seq<Write>, w: Write, r: (string, string))
    ensures RowEnds(base, ws + [w], r) <==> Puts(w, r) || (RowEnds(base, ws, r) && !Takes(w, r))
  {
    var all := ws + [w];
    NoneTakesSnoc(ws, w, 0, r);
    forall i | 0 <= i <= |ws| ensures NoneTakes(all, i, r) <==> NoneTakes(ws, i, r) && !Takes(w, r) {
      NoneTakesSnoc(ws, w, i, r);
    }
    assert forall i :: 0 <= i < |ws| ==> all[i] == ws[i];
    if Puts(w, r) {
      assert all[|ws|] == w && NoneTakes(all, |ws|, r);
    }
    if RowEnds(base, ws, r) && !Takes(w, r) && !(r in base && NoneTakes(ws, 0, r)) {
      var i :| 0 <= i < |ws| && Puts(ws[i], r) && NoneTakes(ws, i, r);
      assert Puts(all[i], r) && NoneTakes(all, i, r);
    }
  }

  /** The row is in the table at the end exactly when the order says so. */
  lemma {:induction false} RowEndsIff(base: Rows, ws: seq<Write>, r: (string, string))
    ensures r in ExecAll(base, ws) <==> RowEnds(base, ws, r)
    decreases |ws|
  {
    if ws != [] {
      var init, w := ws[..|ws| - 1], ws[|ws| - 1];
      assert ws == init + [w];
      RowEndsIff(base, init, r);
      ExecSnoc(base, init, w);
      RowEndsSnoc(base, init, w, r);
      assert r in Exec(ExecAll(base, init), w) <==> Puts(w, r) || (r in ExecAll(base, init) && !Takes(w, r));
    }
  }

  lemma {:induction false} FlagEndsSnoc(base: Rows, ws: seq<Write>, w: Write, r: (string, string))
    ensures FlagEnds(base, ws + [w], r) <==>
            || Raises(base, ws + [w], |ws|, r)
            || (FlagEnds(base, ws, r) && !Takes(w, r) && w != SetFlag(r.0, false))
  {
    var all := ws + [w];
    NoneTakesSnoc(ws, w, 0, r);
    NoneLowersSnoc(ws, w, 0, r.0);
    forall i | 0 <= i <= |ws|
      ensures NoneTakes(all, i, r) <==> NoneTakes(ws, i, r) && !Takes(w, r)
      ensures NoneLowers(all, i, r.0) <==> NoneLowers(ws, i, r.0) && w != SetFlag(r.0, false)
    {
      NoneTakesSnoc(ws, w, i, r);
      NoneLowersSnoc(ws, w, i, r.0);
    }
    forall i | 0 <= i < |ws| ensures Raises(base, all, i, r) <==> Raises(base, ws, i, r) {
      assert all[i] == ws[i] && all[..i] == ws[..i];
    }
    if Raises(base, all, |ws|, r) {
      assert all[|ws|] == w && NoneTakes(all, |ws|, r) && NoneLowers(all, |ws|, r.0);
    }
    if FlagEnds(base, ws, r) && !Takes(w, r) && w != SetFlag(r.0, false)
       && !(r in base && base[r] && NoneTakes(ws, 0, r) && NoneLowers(ws, 0, r.0)) {
      var i :| 0 <= i < |ws| && Raises(base, ws, i, r) && NoneTakes(ws, i, r) && NoneLowers(ws, i, r.0);
      assert Raises(base, all, i, r) && NoneTakes(all, i, r) && NoneLowers(all, i, r.0);
    }
  }

  /** And so is its flag. */
  lemma {:induction false} FlagEndsIff(base: Rows, ws: seq<Write>, r: (string, string))
    ensures r in ExecAll(base, ws) && ExecAll(base, ws)[r] <==> FlagEnds(base, ws, r)
    decreases |ws|
  {
    if ws != [] {
      var init, w := ws[..|ws| - 1], ws[|ws| - 1];
      assert ws == init + [w] && ws[..|init|] == init;
      FlagEndsIff(base, init, r);
      RowEndsIff(base, init, r);
      ExecSnoc(base, init, w);
      FlagEndsSnoc(base, init, w, r);
      FlagOne(ExecAll(base, init), w, r);
    }
  }

  lemma {:induction false} FlagOne(rows: Rows, w: Write, r: (string, string))
    ensures r in Exec(rows, w) && Exec(rows, w)[r] <==>
            || (w == Sentinel(r.0) && r.1 == "") || (w == SetFlag(r.0, true) && r in rows)
            || (r in rows && rows[r] && !Takes(w, r) && w != SetFlag(r.0, false))
  {
  }

  // ---------------------------------------------------------------------
  // When memory and table agree
  // ---------------------------------------------------------------------

  predicate RowIn(rows: Rows, p: string, x: string) {
    (p, x) in rows
  }

  lemma {:induction false} SameProcsIff(a: Rows, b: Rows)
    ensures ProcsOf(a) == ProcsOf(b) <==> forall p, x :: x != "" ==> (RowIn(a, p, x) <==> RowIn(b, p, x))
  {
    ReadsOf(a);
    ReadsOf(b);
    var q := ProcsOf(b);
    if forall p, x :: x != "" ==> (RowIn(a, p, x) <==> RowIn(b, p, x)) {
      forall p, x ensures p in q && x in q[p] <==> (p, x) in a && x != "" {
        assert RowIn(a, p, x) <==> (p, x) in a;
        assert RowIn(b, p, x) <==> (p, x) in b;
      }
      ReadsOnly(a, q, LockedOf(a));
    } else {
      var p, x :| x != "" && !(RowIn(a, p, x) <==> RowIn(b, p, x));
      assert (p in ProcsOf(a) && x in ProcsOf(a)[p]) <==> ((p, x) in a && x != "");
      assert (p in ProcsOf(b) && x in ProcsOf(b)[p]) <==> ((p, x) in b && x != "");
    }
  }

  lemma {:induction false} LockEndsIff(base: Rows, ws: seq<Write>, p: string)
    ensures LockEnds(base, ws, p) <==> p in LockedOf(ExecAll(base, ws))
  {
    var rows := ExecAll(base, ws);
    forall x ensures FlagEnds(base, ws, (p, x)) <==> (p, x) in rows && rows[(p, x)] {
      FlagEndsIff(base, ws, (p, x));
    }
    if p in LockedOf(rows) {
      var r :| r in rows && rows[r] && r.0 == p;
      assert r == (p, r.1) && FlagEnds(base, ws, (p, r.1));
    }
  }

  /** Both orders end alike on every row with a process. */
  ghost predicate RowsEndAlike(h: History) {
    forall p, x :: x != "" ==> (RowEnds(h.base, h.ran, (p, x)) <==> RowEnds(h.base, h.begun, (p, x)))
  }

  /** The table keeps a package locked exactly when the last of its lock changes to begin is a lock. */
  ghost predicate LocksEndAlike(h: History) {
    forall p :: LockEnds(h.base, h.ran, p) <==> LastIsLock(h.base, h.begun, p)
  }

  lemma {:induction false} RowsAlikeIff(h: History)
    ensures RowsEndAlike(h) <==> ProcsOf(ExecAll(h.base, h.ran)) == ProcsOf(ExecAll(h.base, h.begun))
  {
    var a, b := ExecAll(h.base, h.ran), ExecAll(h.base, h.begun);
    forall p, x
      ensures RowEnds(h.base, h.ran, (p, x)) <==> RowIn(a, p, x)
      ensures RowEnds(h.base, h.begun, (p, x)) <==> RowIn(b, p, x)
    {
      RowEndsIff(h.base, h.ran, (p, x));
      RowEndsIff(h.base, h.begun, (p, x));
    }
    SameProcsIff(a, b);
  }

  lemma {:induction false} LocksAlikeIff(h: History, locked: set<string>)
    requires LocksTraced(locked, h)
    ensures LocksEndAlike(h) <==> LockedOf(ExecAll(h.base, h.ran)) == locked
  {
    forall p ensures LockEnds(h.base, h.ran, p) <==> p in LockedOf(ExecAll(h.base, h.ran)) {
      LockEndsIff(h.base, h.ran, p);
    }
    if LocksEndAlike(h) {
      forall p ensures p in LockedOf(ExecAll(h.base, h.ran)) <==> p in locked {
        assert LockEnds(h.base, h.ran, p) <==> LastIsLock(h.base, h.begun, p);
      }
    } else {
      var p :| !(LockEnds(h.base, h.ran, p) <==> LastIsLock(h.base, h.begun, p));
      assert !(p in LockedOf(ExecAll(h.base, h.ran)) <==> p in locked);
    }
  }

  /**
   * In every run of overlapping requests and restarts, at every moment: memory is what
   * reading the table again would give exactly when the order in which the statements
   * reached the table and the order of the sections end alike. Once nothing is to come,
   * the one order is a reordering of the other.
   */
  lemma {:induction false} OverlapInSyncIff(rows: Rows, mvs: seq<Move>, n: nat)
    requires n <= |mvs|
    ensures var y, h := MoveAll(Started(rows), mvs, n), HistoryAt(rows, mvs, n);
            && (InSync(y.now) <==> y.now.mem.None? || (RowsEndAlike(h) && LocksEndAlike(h)))
            && (y.pending == [] ==> multiset(h.ran) == multiset(h.begun))
  {
    var y, h := MoveAll(Started(rows), mvs, n), HistoryAt(rows, mvs, n);
    RunTraced(rows, mvs, n);
    if y.now.mem.Some? {
      RowsAlikeIff(h);
      LocksAlikeIff(h, y.now.mem.value.locked);
    }
  }
}
