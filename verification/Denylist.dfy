/**
 * The denylist of native/src/core/deny/utils.cpp: packages with their processes, a
 * reverse index by app id, a set of locked packages, and the table behind them.
 */
module Denylist {
  import opened Options

  const ISOLATED := "isolated"

  datatype Response = OK | ERROR | INVALID_PKG | ITEM_EXIST | ITEM_NOT_EXIST | ITEM_LOCKED

  type Procs = map<string, set<string>>
  type Index = map<int, set<string>>
  /** The table: its primary key is package and process, its value the lock flag. */
  type Rows = map<(string, string), bool>
  /** The app ids of the packages installed at some moment. */
  type Ids = map<string, nat>

  datatype Mem = Mem(procs: Procs, index: Index, locked: set<string>)

  datatype State = State(mem: Option<Mem>, rows: Rows)

  // ---------------------------------------------------------------------
  // Reading the table
  // ---------------------------------------------------------------------

  function ProcsFor(rows: Rows, p: string): set<string> {
    set r | r in rows && r.0 == p && r.1 != "" :: r.1
  }

  function PkgsOf(rows: Rows): set<string> {
    set r | r in rows && r.1 != "" :: r.0
  }

  /** Rows with an empty process only carry the lock. */
  function ProcsOf(rows: Rows): Procs {
    map p | p in PkgsOf(rows) :: ProcsFor(rows, p)
  }

  function LockedOf(rows: Rows): set<string> {
    set r | r in rows && rows[r] :: r.0
  }

  // ---------------------------------------------------------------------
  // The reverse index
  // ---------------------------------------------------------------------

  function AppId(ids: Ids, pkg: string): int {
    if pkg == ISOLATED then -1 else if pkg in ids then ids[pkg] else 0
  }

  function PkgsAt(index: Index, id: int): set<string> {
    if id in index then index[id] else {}
  }

  predicate HasEntry(index: Index, id: int, p: string) {
    id in index && p in index[id]
  }

  function IndexAdd(index: Index, id: int, pkg: string): Index {
    if id <= 0 then index else index[id := PkgsAt(index, id) + {pkg}]
  }

  function IndexDrop(index: Index, id: int, pkg: string): Index {
    if id <= 0 || id !in index then index
    else if index[id] - {pkg} == {} then index - {id}
    else index[id := index[id] - {pkg}]
  }

  // ---------------------------------------------------------------------
  // The requests
  // ---------------------------------------------------------------------

  /** A package a scan drops: neither isolated nor locked, and not installed. */
  predicate Stale(locked: set<string>, ids: Ids, p: string) {
    p != ISOLATED && p !in locked && AppId(ids, p) == 0
  }

  predicate Indexed(locked: set<string>, ids: Ids, p: string) {
    p != ISOLATED && p !in locked && AppId(ids, p) != 0
  }

  /** The outcome of a scan over the packages in `done`. */
  function ScanProcs(m: Mem, ids: Ids, done: set<string>): Procs {
    map p | p in m.procs && !(p in done && Stale(m.locked, ids, p)) :: m.procs[p]
  }

  function ScanRows(m: Mem, rows: Rows, ids: Ids, done: set<string>): Rows {
    map r | r in rows && !(r.0 in done && Stale(m.locked, ids, r.0)) :: rows[r]
  }

  function IdsSeen(m: Mem, ids: Ids, done: set<string>): set<int> {
    set p | p in done && Indexed(m.locked, ids, p) :: AppId(ids, p)
  }

  function PkgsSeen(m: Mem, ids: Ids, done: set<string>, id: int): set<string> {
    set p | p in done && Indexed(m.locked, ids, p) && AppId(ids, p) == id
  }

  function ScanIndex(m: Mem, ids: Ids, done: set<string>): Index {
    map id | id in IdsSeen(m, ids, done) :: PkgsSeen(m, ids, done, id)
  }

  function Scan(m: Mem, rows: Rows, ids: Ids): State {
    var all := m.procs.Keys;
    State(Some(Mem(ScanProcs(m, ids, all), ScanIndex(m, ids, all), m.locked)), ScanRows(m, rows, ids, all))
  }

  /** A scan asked for from outside does nothing while nothing is loaded. */
  function Rescan(s: State, ids: Ids): State {
    if s.mem.None? then s else Scan(s.mem.value, s.rows, ids)
  }

  function Ensure(s: State, ids: Ids): (r: State)
    ensures r.mem.Some?
  {
    if s.mem.Some? then s else Scan(Mem(ProcsOf(s.rows), map[], LockedOf(s.rows)), s.rows, ids)
  }

  predicate Alnum(c: char) {
    'a' <= c <= 'z' || 'A' <= c <= 'Z' || '0' <= c <= '9'
  }

  predicate Validate(pkg: string, proc: string) {
    if pkg == ISOLATED then
      forall i :: 0 <= i < |proc| && (forall j :: 0 <= j < i ==> proc[j] != ':') ==>
        Alnum(proc[i]) || proc[i] == '_' || proc[i] == '.' || proc[i] == ':'
    else
      && '.' in pkg && (forall i :: 0 <= i < |pkg| ==> Alnum(pkg[i]) || pkg[i] == '_' || pkg[i] == '.')
      && (forall i :: 0 <= i < |proc| ==> Alnum(proc[i]) || proc[i] == '_' || proc[i] == ':' || proc[i] == '.')
  }

  /** The check of both names, character by character. */
  method ValidateNames(pkg: string, proc: string) returns (ok: bool)
    ensures ok <==> Validate(pkg, proc)
  {
    if pkg == ISOLATED {
      ok := IsolatedName(proc);
    } else {
      var pkgValid := PkgName(pkg);
      var procValid := true;
      for i := 0 to |proc|
        invariant procValid
        invariant forall j :: 0 <= j < i ==> Alnum(proc[j]) || proc[j] == '_' || proc[j] == ':' || proc[j] == '.'
      {
        if !(Alnum(proc[i]) || proc[i] == '_' || proc[i] == ':' || proc[i] == '.') {
          procValid := false;
          break;
        }
      }
      ok := pkgValid && procValid;
    }
  }

  /** What follows a colon is not looked at. */
  method IsolatedName(proc: string) returns (ok: bool)
    ensures ok <==> Validate(ISOLATED, proc)
  {
    for i := 0 to |proc|
      invariant forall j :: 0 <= j < i ==> Alnum(proc[j]) || proc[j] == '_' || proc[j] == '.'
    {
      if Alnum(proc[i]) || proc[i] == '_' || proc[i] == '.' {
        continue;
      }
      return proc[i] == ':';
    }
    return true;
  }

  method PkgName(pkg: string) returns (ok: bool)
    ensures ok <==> '.' in pkg && forall i :: 0 <= i < |pkg| ==> Alnum(pkg[i]) || pkg[i] == '_' || pkg[i] == '.'
  {
    ok := false;
    for i := 0 to |pkg|
      invariant ok <==> '.' in pkg[..i]
      invariant forall j :: 0 <= j < i ==> Alnum(pkg[j]) || pkg[j] == '_' || pkg[j] == '.'
    {
      assert pkg[..i + 1] == pkg[..i] + [pkg[i]];
      if Alnum(pkg[i]) || pkg[i] == '_' {
        continue;
      }
      if pkg[i] != '.' {
        return false;
      }
      ok := true;
    }
    assert pkg[..|pkg|] == pkg;
  }

  function ProcName(pkg: string, proc: string): string {
    if proc == "" then pkg else proc
  }

  function WithProc(procs: Procs, pkg: string, proc: string): Procs {
    procs[pkg := (if pkg in procs then procs[pkg] else {}) + {proc}]
  }

  // ---------------------------------------------------------------------
  // A request under the lock and behind it
  // ---------------------------------------------------------------------

  /** What reaches the table: one SQL statement, or the deletes of one scan. */
  datatype Write =
    | Insert(pkg: string, proc: string)  // unlocked, and refused where the row is there
    | Sentinel(pkg: string)              // the locked row without a process
    | Delete(pkg: string, proc: string)
    | Drop(pkgs: set<string>)            // all rows of these packages
    | SetFlag(pkg: string, flag: bool)

  function Without(rows: Rows, pkgs: set<string>): Rows {
    map r | r in rows && r.0 !in pkgs :: rows[r]
  }

  function Flagged(rows: Rows, pkg: string, flag: bool): Rows {
    map r | r in rows :: if r.0 == pkg then flag else rows[r]
  }

  predicate Fails(rows: Rows, w: Write) {
    w.Insert? && (w.pkg, w.proc) in rows
  }

  function Exec(rows: Rows, w: Write): Rows {
    match w
    case Insert(pkg, proc) => if (pkg, proc) in rows then rows else rows[(pkg, proc) := false]
    case Sentinel(pkg) => rows[(pkg, "") := true]
    case Delete(pkg, proc) => rows - {(pkg, proc)}
    case Drop(pkgs) => Without(rows, pkgs)
    case SetFlag(pkg, flag) => Flagged(rows, pkg, flag)
  }

  function ExecSome(rows: Rows, w: Option<Write>): Rows {
    if w.Some? then Exec(rows, w.value) else rows
  }

  /**
   * The stretch of a request under the lock: the memory it leaves, what it writes to the
   * table at once, the statement that follows when the lock is released, and the answer.
   */
  datatype Section = Section(mem: Mem, early: Option<Write>, late: Option<Write>, answer: Response)

  /** The whole request: the section, and its statement right behind it. */
  function Finished(rows: Rows, sec: Section): (State, Response) {
    var now := ExecSome(rows, sec.early);
    (State(Some(sec.mem), ExecSome(now, sec.late)),
     if sec.late.Some? && Fails(now, sec.late.value) then ERROR else sec.answer)
  }

  function AddSection(m: Mem, pkg: string, proc: string, id: int): Section {
    if id == 0 then Section(m, None, None, INVALID_PKG)
    else if pkg in m.procs && proc in m.procs[pkg] then Section(m, None, None, ITEM_EXIST)
    else
      Section(Mem(WithProc(m.procs, pkg, proc), IndexAdd(m.index, id, pkg), m.locked),
              None, Some(Insert(pkg, proc)), OK)
  }

  function RmSection(m: Mem, pkg: string, proc: string, id: int): Section {
    if pkg in m.locked then Section(m, None, None, ITEM_LOCKED)
    else if pkg !in m.procs || (proc != "" && proc !in m.procs[pkg]) then Section(m, None, None, ITEM_NOT_EXIST)
    else
      var rest := if proc == "" then {} else m.procs[pkg] - {proc};
      Section(if rest == {} then Mem(m.procs - {pkg}, IndexDrop(m.index, id, pkg), m.locked)
              else m.(procs := m.procs[pkg := rest]),
              None, Some(if proc == "" then Drop({pkg}) else Delete(pkg, proc)), OK)
  }

  /** A lock change writes its sentinel row under the lock and the flags behind it. */
  function LockSection(m: Mem, rows: Rows, pkg: string, lock: bool): Section {
    if !Validate(pkg, "") then Section(m, None, None, INVALID_PKG)
    else if lock then
      if pkg in m.locked || pkg in m.procs then
        Section(m.(locked := m.locked + {pkg}), None, Some(SetFlag(pkg, true)), OK)
      else if (pkg, "") in rows then Section(m, None, None, ERROR)
      else Section(m.(locked := m.locked + {pkg}), Some(Sentinel(pkg)), Some(SetFlag(pkg, true)), OK)
    else
      Section(m.(locked := m.locked - {pkg}), if pkg in m.procs then None else Some(Delete(pkg, "")),
              Some(SetFlag(pkg, false)), OK)
  }

  function AddTo(t: State, pkg: string, proc: string, id: int): (State, Response)
    requires t.mem.Some?
  {
    Finished(t.rows, AddSection(t.mem.value, pkg, proc, id))
  }

  function RmFrom(t: State, pkg: string, proc: string, id: int): (State, Response)
    requires t.mem.Some?
  {
    Finished(t.rows, RmSection(t.mem.value, pkg, proc, id))
  }

  function LockIn(t: State, pkg: string, lock: bool): (State, Response)
    requires t.mem.Some?
  {
    Finished(t.rows, LockSection(t.mem.value, t.rows, pkg, lock))
  }

  function Add(s: State, pkg: string, name: string, ids: Ids): (State, Response) {
    var proc := ProcName(pkg, name);
    if !Validate(pkg, proc) then (s, INVALID_PKG) else AddTo(Ensure(s, ids), pkg, proc, AppId(ids, pkg))
  }

  function Rm(s: State, pkg: string, proc: string, ids: Ids): (State, Response) {
    RmFrom(Ensure(s, ids), pkg, proc, AppId(ids, pkg))
  }

  function SetLocked(s: State, pkg: string, lock: bool, ids: Ids): (State, Response) {
    if pkg == ISOLATED then (s, INVALID_PKG) else LockIn(Ensure(s, ids), pkg, lock)
  }

  function ToAppId(uid: int): int {
    if uid >= 0 then uid % 100000 else -((-uid) % 100000)
  }

  predicate StartsWith(s: string, p: string) {
    p <= s
  }

  /** Whether the lookup of every indexed package is defined. */
  ghost predicate Defined(m: Mem) {
    forall id, p :: HasEntry(m.index, id, p) ==> p in m.procs
  }

  ghost predicate IsDenyTarget(m: Mem, uid: int, process: string) {
    var id := ToAppId(uid);
    if id >= 90000 then
      ISOLATED in m.procs && exists p :: p in m.procs[ISOLATED] && StartsWith(process, p)
    else
      exists p :: HasEntry(m.index, id, p) && p in m.procs && process in m.procs[p]
  }

  // ---------------------------------------------------------------------
  // The state in place
  // ---------------------------------------------------------------------

  class DenyList {
    var loaded: bool
    var procs: Procs
    var index: Index
    var locked: set<string>
    var rows: Rows

    function Now(): State
      reads this
    {
      State(if loaded then Some(Mem(procs, index, locked)) else None, rows)
    }

    constructor (rows: Rows)
      ensures Now() == State(None, rows)
    {
      loaded, procs, index, locked := false, map[], map[], {};
      this.rows := rows;
    }

    method UpdateAppId(id: int, pkg: string, remove: bool)
      modifies this`index
      ensures index == if remove then IndexDrop(old(index), id, pkg) else IndexAdd(old(index), id, pkg)
    {
      if id <= 0 {
        return;
      }
      if remove {
        if id in index {
          index := index[id := index[id] - {pkg}];
          if index[id] == {} {
            index := index - {id};
          }
        }
      } else {
        index := index[id := PkgsAt(index, id) + {pkg}];
      }
    }

    method AddHideSet(pkg: string, proc: string) returns (added: bool)
      modifies this`procs
      ensures added <==> !(pkg in old(procs) && proc in old(procs)[pkg])
      ensures procs == WithProc(old(procs), pkg, proc) && (!added ==> procs == old(procs))
    {
      added := !(pkg in procs && proc in procs[pkg]);
      if added {
        procs := procs[pkg := (if pkg in procs then procs[pkg] else {}) + {proc}];
      } else {
        assert procs[pkg] + {proc} == procs[pkg];
      }
    }

    /** One package of a scan. */
    method ScanOne(p: string, ids: Ids)
      requires p in procs
      modifies this`procs, this`index, this`rows
      ensures procs == if Stale(locked, ids, p) then old(procs) - {p} else old(procs)
      ensures rows == if Stale(locked, ids, p) then Without(old(rows), {p}) else old(rows)
      ensures index == if Indexed(locked, ids, p) then IndexAdd(old(index), AppId(ids, p), p) else old(index)
    {
      if p == ISOLATED || p in locked {
        return;
      }
      var id := AppId(ids, p);
      if id == 0 {
        rows := Without(rows, {p});
        procs := procs - {p};
      } else {
        UpdateAppId(id, p, false);
      }
    }

    method ScanDenyApps(ids: Ids)
      modifies this`procs, this`index, this`rows
      ensures Now() == Rescan(old(Now()), ids)
    {
      if !loaded {
        return;
      }
      ghost var m, rows0 := Mem(procs, index, locked), rows;
      index := map[];
      ScanNone(m, rows0, ids);
      ScanAll(procs.Keys, ids, m, rows0);
    }

    method ScanAll(all: set<string>, ids: Ids, ghost m: Mem, ghost rows0: Rows)
      requires all == m.procs.Keys && locked == m.locked
      requires procs == ScanProcs(m, ids, {}) && rows == ScanRows(m, rows0, ids, {}) && index == ScanIndex(m, ids, {})
      modifies this`procs, this`index, this`rows
      ensures procs == ScanProcs(m, ids, all) && rows == ScanRows(m, rows0, ids, all) && index == ScanIndex(m, ids, all)
    {
      var todo := all;
      assert all - todo == {};
      while todo != {}
        invariant todo <= all
        invariant procs == ScanProcs(m, ids, all - todo) && rows == ScanRows(m, rows0, ids, all - todo)
        invariant index == ScanIndex(m, ids, all - todo)
        decreases |todo|
      {
        var p :| p in todo;
        ScanNext(m, rows0, ids, all - todo, p);
        ScanOne(p, ids);
        assert all - (todo - {p}) == (all - todo) + {p};
        todo := todo - {p};
      }
      assert all - todo == all;
    }

    /** Reads every row of the table. */
    method Load()
      modifies this`procs, this`locked
      ensures procs == ProcsOf(rows) && locked == LockedOf(rows)
    {
      procs, locked := map[], {};
      var todo := rows.Keys;
      LoadNone();
      assert Part(rows, todo) == map[];
      while todo != {}
        invariant todo <= rows.Keys
        invariant procs == ProcsOf(Part(rows, todo)) && locked == LockedOf(Part(rows, todo))
        decreases |todo|
      {
        var r :| r in todo;
        PartNext(rows, todo, r);
        if rows[r] {
          locked := locked + {r.0};
        }
        if r.1 != "" {
          var _ := AddHideSet(r.0, r.1);
        }
        todo := todo - {r};
      }
      assert Part(rows, todo) == rows;
    }

    method EnsureData(ids: Ids)
      modifies this
      ensures loaded && rows == Ensure(old(Now()), ids).rows && Now() == Ensure(old(Now()), ids)
    {
      if loaded {
        return;
      }
      Load();
      index, loaded := map[], true;
      ScanDenyApps(ids);
    }

    method AddList(pkg: string, name: string, ids: Ids) returns (r: Response)
      modifies this
      ensures (Now(), r) == Add(old(Now()), pkg, name, ids)
    {
      var proc := if name == "" then pkg else name;
      var valid := ValidateNames(pkg, proc);
      if !valid {
        return INVALID_PKG;
      }
      EnsureData(ids);
      var id := AppId(ids, pkg);
      if id == 0 {
        return INVALID_PKG;
      }
      var added := AddHideSet(pkg, proc);
      if !added {
        return ITEM_EXIST;
      }
      UpdateAppId(id, pkg, false);
      if (pkg, proc) in rows {
        return ERROR;
      }
      rows := rows[(pkg, proc) := false];
      return OK;
    }

    method RmList(pkg: string, proc: string, ids: Ids) returns (r: Response)
      modifies this
      ensures (Now(), r) == Rm(old(Now()), pkg, proc, ids)
    {
      EnsureData(ids);
      if pkg in locked {
        return ITEM_LOCKED;
      }
      var remove := false;
      if pkg in procs {
        if proc == "" {
          UpdateAppId(AppId(ids, pkg), pkg, true);
          procs := procs - {pkg};
          remove := true;
        } else if proc in procs[pkg] {
          var rest := procs[pkg] - {proc};
          remove := true;
          if rest == {} {
            UpdateAppId(AppId(ids, pkg), pkg, true);
            procs := procs - {pkg};
          } else {
            procs := procs[pkg := rest];
          }
        }
      }
      if !remove {
        return ITEM_NOT_EXIST;
      }
      if proc == "" {
        rows := Without(rows, {pkg});
      } else {
        rows := rows - {(pkg, proc)};
      }
      return OK;
    }

    method ChangeLock(pkg: string, lock: bool, ids: Ids) returns (r: Response)
      modifies this
      ensures (Now(), r) == SetLocked(old(Now()), pkg, lock, ids)
    {
      if pkg == ISOLATED {
        return INVALID_PKG;
      }
      EnsureData(ids);
      var valid := ValidateNames(pkg, "");
      if !valid {
        return INVALID_PKG;
      }
      if lock {
        if pkg !in locked && pkg !in procs {
          if (pkg, "") in rows {
            return ERROR;
          }
          rows := rows[(pkg, "") := true];
        }
        locked := locked + {pkg};
      } else {
        locked := locked - {pkg};
        if pkg !in procs {
          rows := rows - {(pkg, "")};
        }
      }
      rows := Flagged(rows, pkg, lock);
      return OK;
    }

    /**
     * The check. The packages under an app id are tried in some order, and one that
     * is gone from memory makes the lookup undefined, which None stands for.
     */
    method Matches(uid: int, process: string, ids: Ids) returns (r: Option<bool>)
      modifies this
      ensures Now() == Ensure(old(Now()), ids)
      ensures var m := Ensure(old(Now()), ids).mem.value;
              && (Defined(m) || ToAppId(uid) >= 90000 ==> r == Some(IsDenyTarget(m, uid, process)))
              && (r == None ==> ToAppId(uid) < 90000 && exists p :: HasEntry(m.index, ToAppId(uid), p) && p !in m.procs)
              && (r == Some(true) && ToAppId(uid) < 90000 ==>
                  exists p :: HasEntry(m.index, ToAppId(uid), p) && p in m.procs && process in m.procs[p])
              && (r == Some(false) && ToAppId(uid) < 90000 ==>
                  forall p :: HasEntry(m.index, ToAppId(uid), p) ==> p in m.procs && process !in m.procs[p])
    {
      EnsureData(ids);
      var id := ToAppId(uid);
      if id >= 90000 {
        var found := MatchesIsolated(process);
        return Some(found);
      }
      if id !in index {
        return Some(false);
      }
      var todo := index[id];
      assert forall p :: p in index[id] ==> HasEntry(index, id, p);
      while todo != {}
        invariant todo <= index[id]
        invariant forall p :: p in index[id] - todo ==> p in procs && process !in procs[p]
        decreases |todo|
      {
        var p :| p in todo;
        if p !in procs {
          return None;
        }
        if process in procs[p] {
          return Some(true);
        }
        todo := todo - {p};
      }
      return Some(false);
    }

    method MatchesIsolated(process: string) returns (r: bool)
      ensures r <==> ISOLATED in procs && exists p :: p in procs[ISOLATED] && StartsWith(process, p)
    {
      if ISOLATED in procs {
        var todo := procs[ISOLATED];
        while todo != {}
          invariant todo <= procs[ISOLATED]
          invariant forall p :: p in procs[ISOLATED] - todo ==> !StartsWith(process, p)
          decreases |todo|
        {
          var p :| p in todo;
          if StartsWith(process, p) {
            return true;
          }
          todo := todo - {p};
        }
      }
      return false;
    }
  }

  // ---------------------------------------------------------------------
  // Steps of the loops
  // ---------------------------------------------------------------------

  lemma {:induction false} ScanNone(m: Mem, rows: Rows, ids: Ids)
    ensures ScanProcs(m, ids, {}) == m.procs && ScanRows(m, rows, ids, {}) == rows && ScanIndex(m, ids, {}) == map[]
  {
    assert IdsSeen(m, ids, {}) == {};
  }

  lemma {:induction false} ScanNext(m: Mem, rows: Rows, ids: Ids, done: set<string>, p: string)
    requires p in m.procs && p !in done
    ensures p in ScanProcs(m, ids, done)
    ensures Stale(m.locked, ids, p) ==>
      && ScanProcs(m, ids, done + {p}) == ScanProcs(m, ids, done) - {p}
      && ScanRows(m, rows, ids, done + {p}) == Without(ScanRows(m, rows, ids, done), {p})
    ensures !Stale(m.locked, ids, p) ==>
      && ScanProcs(m, ids, done + {p}) == ScanProcs(m, ids, done)
      && ScanRows(m, rows, ids, done + {p}) == ScanRows(m, rows, ids, done)
    ensures ScanIndex(m, ids, done + {p}) ==
      if Indexed(m.locked, ids, p) then IndexAdd(ScanIndex(m, ids, done), AppId(ids, p), p) else ScanIndex(m, ids, done)
  {
    ScanIndexNext(m, ids, done, p);
  }

  lemma {:induction false} ScanIndexNext(m: Mem, ids: Ids, done: set<string>, p: string)
    requires p in m.procs && p !in done
    ensures ScanIndex(m, ids, done + {p}) ==
      if Indexed(m.locked, ids, p) then IndexAdd(ScanIndex(m, ids, done), AppId(ids, p), p) else ScanIndex(m, ids, done)
  {
    var a, b, id := ScanIndex(m, ids, done), ScanIndex(m, ids, done + {p}), AppId(ids, p);
    if Indexed(m.locked, ids, p) {
      assert IdsSeen(m, ids, done + {p}) == IdsSeen(m, ids, done) + {id};
      forall i | i in b ensures b[i] == if i == id then PkgsAt(a, i) + {p} else a[i] {
        if i == id {
          assert PkgsSeen(m, ids, done + {p}, i) == PkgsSeen(m, ids, done, i) + {p};
          if i !in a {
            assert PkgsSeen(m, ids, done, i) == {};
          }
        } else {
          assert PkgsSeen(m, ids, done + {p}, i) == PkgsSeen(m, ids, done, i);
        }
      }
    } else {
      assert IdsSeen(m, ids, done + {p}) == IdsSeen(m, ids, done);
      forall i | i in b ensures b[i] == a[i] {
        assert PkgsSeen(m, ids, done + {p}, i) == PkgsSeen(m, ids, done, i);
      }
    }
  }

  lemma {:induction false} LoadNone()
    ensures ProcsOf(map[]) == map[] && LockedOf(map[]) == {}
  {
    assert PkgsOf(map[]) == {};
  }

  /** The rows read when those in `todo` are still to come. */
  function Part(rows: Rows, todo: set<(string, string)>): Rows {
    map r | r in rows && r !in todo :: rows[r]
  }

  lemma {:induction false} PartNext(rows: Rows, todo: set<(string, string)>, r: (string, string))
    requires r in rows && r in todo
    ensures var a, b := Part(rows, todo), Part(rows, todo - {r});
            && LockedOf(b) == (if rows[r] then LockedOf(a) + {r.0} else LockedOf(a))
            && ProcsOf(b) == (if r.1 == "" then ProcsOf(a) else WithProc(ProcsOf(a), r.0, r.1))
  {
    assert Part(rows, todo - {r}) == Part(rows, todo)[r := rows[r]];
    LockedNext(Part(rows, todo), r, rows[r]);
    ProcsNext(Part(rows, todo), r, rows[r]);
  }

  lemma {:induction false} LockedNext(part: Rows, r: (string, string), flag: bool)
    requires r !in part
    ensures LockedOf(part[r := flag]) == if flag then LockedOf(part) + {r.0} else LockedOf(part)
  {
    var more := part[r := flag];
    assert r in more;
    forall p | p in LockedOf(part) ensures p in LockedOf(more) {
      var q :| q in part && part[q] && q.0 == p;
      assert more[q];
    }
  }

  lemma {:induction false} ProcsIs(rows: Rows, q: Procs)
    requires q.Keys == PkgsOf(rows) && forall p :: p in q ==> q[p] == ProcsFor(rows, p)
    ensures ProcsOf(rows) == q
  {
  }

  lemma {:induction false} ProcsAre(rows: Rows)
    ensures ProcsOf(rows).Keys == PkgsOf(rows)
    ensures forall p :: p in ProcsOf(rows) ==> ProcsOf(rows)[p] == ProcsFor(rows, p)
    ensures forall p :: p !in ProcsOf(rows) ==> ProcsFor(rows, p) == {}
  {
  }

  lemma {:induction false} ProcsNext(part: Rows, r: (string, string), flag: bool)
    requires r !in part
    ensures ProcsOf(part[r := flag]) == if r.1 == "" then ProcsOf(part) else WithProc(ProcsOf(part), r.0, r.1)
  {
    PkgsNext(part, r, flag);
    ProcsAre(part);
    var a := ProcsOf(part);
    var q := if r.1 == "" then a else WithProc(a, r.0, r.1);
    forall p | p in q ensures q[p] == ProcsFor(part[r := flag], p) {
      ForNext(part, r, flag, p);
    }
    ProcsIs(part[r := flag], q);
  }

  lemma {:induction false} PkgsNext(part: Rows, r: (string, string), flag: bool)
    requires r !in part
    ensures PkgsOf(part[r := flag]) == if r.1 != "" then PkgsOf(part) + {r.0} else PkgsOf(part)
  {
    var more := part[r := flag];
    assert r in more;
    forall p | p in PkgsOf(part) ensures p in PkgsOf(more) {
      var q :| q in part && q.1 != "" && q.0 == p;
      assert q in more;
    }
  }

  lemma {:induction false} ForNext(part: Rows, r: (string, string), flag: bool, p: string)
    requires r !in part
    ensures ProcsFor(part[r := flag], p) == if r.1 != "" && p == r.0 then ProcsFor(part, p) + {r.1}
                                            else ProcsFor(part, p)
  {
    var more := part[r := flag];
    assert r in more;
    forall x | x in ProcsFor(part, p) ensures x in ProcsFor(more, p) {
      assert (p, x) in more;
    }
  }

  // ---------------------------------------------------------------------
  // Memory and table stay in step
  // ---------------------------------------------------------------------

  /** Reading the table again would give the packages and locks in memory. */
  ghost predicate InSync(s: State) {
    s.mem.Some? ==> s.mem.value.procs == ProcsOf(s.rows) && s.mem.value.locked == LockedOf(s.rows)
  }

  /** What decides the packages and locks read from a table. */
  ghost predicate Reads(rows: Rows, procs: Procs, locked: set<string>) {
    && (forall p, x :: (p in procs && x in procs[p]) <==> ((p, x) in rows && x != ""))
    && (forall p :: p in procs ==> procs[p] != {})
    && (forall p :: p in locked <==> exists x :: (p, x) in rows && rows[(p, x)])
  }

  lemma {:induction false} ReadsOf(rows: Rows)
    ensures Reads(rows, ProcsOf(rows), LockedOf(rows))
  {
    ProcsAre(rows);
    forall p, x ensures p in ProcsOf(rows) && x in ProcsOf(rows)[p] <==> (p, x) in rows && x != "" {
      if (p, x) in rows && x != "" {
        assert (p, x).0 in PkgsOf(rows);
      }
    }
    forall p | p in ProcsOf(rows) ensures ProcsOf(rows)[p] != {} {
      var r :| r in rows && r.1 != "" && r.0 == p;
      assert r.1 in ProcsFor(rows, p);
    }
    forall p ensures p in LockedOf(rows) <==> exists x :: (p, x) in rows && rows[(p, x)] {
      if p in LockedOf(rows) {
        var r :| r in rows && rows[r] && r.0 == p;
        assert r == (p, r.1);
      }
    }
  }

  lemma {:induction false} ReadsOnly(rows: Rows, procs: Procs, locked: set<string>)
    requires Reads(rows, procs, locked)
    ensures procs == ProcsOf(rows) && locked == LockedOf(rows)
  {
    ReadsOf(rows);
    var q := ProcsOf(rows);
    forall p ensures p in procs <==> p in q {
      if p in procs {
        var x :| x in procs[p];
        assert (p, x) in rows && x != "";
      }
      if p in q {
        var x :| x in q[p];
        assert (p, x) in rows && x != "";
      }
    }
    forall p | p in procs ensures procs[p] == q[p] {
      forall x ensures x in procs[p] <==> x in q[p] {
        assert (x in procs[p]) <==> ((p, x) in rows && x != "");
      }
    }
  }

  lemma {:induction false} ScanInSync(m: Mem, rows: Rows, ids: Ids)
    requires Reads(rows, m.procs, m.locked)
    ensures InSync(Scan(m, rows, ids))
  {
    var all := m.procs.Keys;
    var procs, after := ScanProcs(m, ids, all), ScanRows(m, rows, ids, all);
    forall p ensures p in m.locked <==> exists x :: (p, x) in after && after[(p, x)] {
      if p in m.locked {
        var x :| (p, x) in rows && rows[(p, x)];
        assert (p, x) in after;
      }
    }
    forall p, x ensures p in procs && x in procs[p] <==> (p, x) in after && x != "" {
      assert (p in m.procs && x in m.procs[p]) <==> ((p, x) in rows && x != "");
    }
    ReadsOnly(after, procs, m.locked);
  }

  lemma {:induction false} EnsureInSync(s: State, ids: Ids)
    requires InSync(s)
    ensures var t := Ensure(s, ids);
            InSync(t) && Reads(t.rows, t.mem.value.procs, t.mem.value.locked)
  {
    ReadsOf(s.rows);
    if s.mem.None? {
      ScanInSync(Mem(ProcsOf(s.rows), map[], LockedOf(s.rows)), s.rows, ids);
    }
    ReadsOf(Ensure(s, ids).rows);
  }

  lemma {:induction false} AddInSync(t: State, pkg: string, proc: string, id: int)
    requires t.mem.Some? && Reads(t.rows, t.mem.value.procs, t.mem.value.locked) && InSync(t) && proc != ""
    ensures InSync(AddTo(t, pkg, proc, id).0)
    ensures AddTo(t, pkg, proc, id).1 != ERROR
  {
    var m := t.mem.value;
    if id != 0 && !(pkg in m.procs && proc in m.procs[pkg]) {
      assert (pkg, proc) !in t.rows;
      ReadsInsert(t.rows, m.procs, m.locked, pkg, proc);
    }
  }

  lemma {:induction false} ProcNameValid(pkg: string, name: string)
    requires Validate(pkg, ProcName(pkg, name))
    ensures ProcName(pkg, name) != ""
  {
  }

  lemma {:induction false} ReadsInsert(rows: Rows, procs: Procs, locked: set<string>, pkg: string, proc: string)
    requires Reads(rows, procs, locked) && (pkg, proc) !in rows && proc != ""
    ensures Reads(rows[(pkg, proc) := false], WithProc(procs, pkg, proc), locked)
    ensures WithProc(procs, pkg, proc) == ProcsOf(rows[(pkg, proc) := false]) &&
      locked == LockedOf(rows[(pkg, proc) := false])
  {
    var after, more := rows[(pkg, proc) := false], WithProc(procs, pkg, proc);
    forall p, x ensures p in more && x in more[p] <==> (p, x) in after && x != "" {
      assert (p in procs && x in procs[p]) <==> ((p, x) in rows && x != "");
    }
    forall p ensures p in locked <==> exists x :: (p, x) in after && after[(p, x)] {
      if p in locked {
        var x :| (p, x) in rows && rows[(p, x)];
        assert (p, x) in after && after[(p, x)];
      }
      if x :| (p, x) in after && after[(p, x)] {
        assert (p, x) in rows && rows[(p, x)];
      }
    }
    ReadsOnly(after, more, locked);
  }

  lemma {:induction false} RmInSync(t: State, pkg: string, proc: string, id: int)
    requires t.mem.Some? && Reads(t.rows, t.mem.value.procs, t.mem.value.locked) && InSync(t)
    ensures InSync(RmFrom(t, pkg, proc, id).0)
  {
    var m, u := t.mem.value, RmFrom(t, pkg, proc, id).0;
    if u != t {
      ReadsDelete(t.rows, m.procs, m.locked, pkg, proc, u);
    }
  }

  lemma {:induction false} ReadsDelete(rows: Rows, procs: Procs, locked: set<string>, pkg: string, proc: string,
      u: State)
    requires Reads(rows, procs, locked) && pkg !in locked && pkg in procs && (proc != "" ==> proc in procs[pkg])
    requires u.mem.Some? && u.mem.value.locked == locked
    requires u.rows == if proc == "" then Without(rows, {pkg}) else rows - {(pkg, proc)}
    requires var rest := if proc == "" then {} else procs[pkg] - {proc};
             u.mem.value.procs == if rest == {} then procs - {pkg} else procs[pkg := rest]
    ensures InSync(u)
  {
    var after, less := u.rows, u.mem.value.procs;
    forall p, x ensures p in less && x in less[p] <==> (p, x) in after && x != "" {
      assert (p in procs && x in procs[p]) <==> ((p, x) in rows && x != "");
    }
    forall p ensures p in locked <==> exists x :: (p, x) in after && after[(p, x)] {
      if p in locked {
        var x :| (p, x) in rows && rows[(p, x)];
        assert (p, x) in after && after[(p, x)];
      }
      if x :| (p, x) in after && after[(p, x)] {
        assert (p, x) in rows && rows[(p, x)];
      }
    }
    ReadsOnly(after, less, locked);
  }

  lemma {:induction false} HasRow(rows: Rows, m: Mem, pkg: string)
    requires Reads(rows, m.procs, m.locked)
    ensures pkg in m.locked || pkg in m.procs ==> exists x :: (pkg, x) in rows
  {
    if pkg in m.procs {
      var x :| x in m.procs[pkg];
      assert (pkg, x) in rows;
    }
  }

  /** Changing the sentinel row of a package and the flag of all its rows changes its lock and nothing else. */
  lemma {:induction false} ReadsFlag(rows: Rows, procs: Procs, locked: set<string>, pkg: string, lock: bool,
      before: Rows)
    requires Reads(rows, procs, locked)
    requires forall r :: r != (pkg, "") ==> (r in before <==> r in rows) && (r in rows ==> before[r] == rows[r])
    requires lock ==> exists x :: (pkg, x) in before
    ensures var now := if lock then locked + {pkg} else locked - {pkg};
            procs == ProcsOf(Flagged(before, pkg, lock)) && now == LockedOf(Flagged(before, pkg, lock))
  {
    var after, now := Flagged(before, pkg, lock), if lock then locked + {pkg} else locked - {pkg};
    forall p, x ensures p in procs && x in procs[p] <==> (p, x) in after && x != "" {
      assert (p in procs && x in procs[p]) <==> ((p, x) in rows && x != "");
    }
    forall p ensures p in now <==> exists x :: (p, x) in after && after[(p, x)] {
      if p == pkg {
        if lock {
          var x :| (pkg, x) in before;
          assert (p, x) in after && after[(p, x)];
        }
      } else {
        if p in locked {
          var x :| (p, x) in rows && rows[(p, x)];
          assert (p, x) in after && after[(p, x)];
        }
        if x :| (p, x) in after && after[(p, x)] {
          assert (p, x) in rows && rows[(p, x)];
        }
      }
    }
    ReadsOnly(after, procs, now);
  }

  /** A lock change decides by the real table, and changes the lock in any other one memory agrees with too. */
  lemma {:induction false} LockSectionInSync(m: Mem, table: Rows, pkg: string, lock: bool, rows: Rows)
    requires InSync(State(Some(m), rows))
    ensures InSync(Finished(rows, LockSection(m, table, pkg, lock)).0)
  {
    var sec := LockSection(m, table, pkg, lock);
    ReadsOf(rows);
    if sec.late.Some? {
      var before := ExecSome(rows, sec.early);
      HasRow(rows, m, pkg);
      assert sec.early == Some(Sentinel(pkg)) ==> (pkg, "") in before;
      ReadsFlag(rows, m.procs, m.locked, pkg, lock, before);
    }
  }

  lemma {:induction false} LockInSync(t: State, pkg: string, lock: bool)
    requires t.mem.Some? && InSync(t)
    ensures InSync(LockIn(t, pkg, lock).0)
  {
    LockSectionInSync(t.mem.value, t.rows, pkg, lock, t.rows);
  }

  // ---------------------------------------------------------------------
  // Whole runs
  // ---------------------------------------------------------------------

  /** What reaches the daemon; `RestartReq` is a restart of the daemon itself. */
  datatype Request =
    | AddReq(pkg: string, proc: string) | RmReq(pkg: string, proc: string)
    | LockReq(pkg: string) | UnlockReq(pkg: string)
    | ListReq | QueryReq | ZygoteReq | RestartReq

  /** A request and the app ids at the time. */
  datatype Event = Event(req: Request, ids: Ids)

  function Step(s: State, e: Event): State {
    match e.req
    case AddReq(pkg, name) => Add(s, pkg, name, e.ids).0
    case RmReq(pkg, proc) => Rm(s, pkg, proc, e.ids).0
    case LockReq(pkg) => SetLocked(s, pkg, true, e.ids).0
    case UnlockReq(pkg) => SetLocked(s, pkg, false, e.ids).0
    case ListReq => Rescan(Ensure(s, e.ids), e.ids)
    case QueryReq => Ensure(s, e.ids)
    case ZygoteReq => Rescan(s, e.ids)
    case RestartReq => State(None, s.rows)
  }

  function Run(s: State, es: seq<Event>, n: nat): State
    requires n <= |es|
  {
    if n == 0 then s else Step(Run(s, es, n - 1), es[n - 1])
  }

  lemma {:induction false} RescanInSync(s: State, ids: Ids)
    requires InSync(s)
    ensures InSync(Rescan(s, ids))
  {
    ReadsOf(s.rows);
    if s.mem.Some? {
      ScanInSync(s.mem.value, s.rows, ids);
    }
  }

  lemma {:induction false} StepInSync(s: State, e: Event)
    requires InSync(s)
    ensures InSync(Step(s, e))
  {
    EnsureInSync(s, e.ids);
    var t := Ensure(s, e.ids);
    match e.req {
      case AddReq(pkg, name) =>
        if Validate(pkg, ProcName(pkg, name)) {
          ProcNameValid(pkg, name);
          AddInSync(t, pkg, ProcName(pkg, name), AppId(e.ids, pkg));
        }
      case RmReq(pkg, proc) => RmInSync(t, pkg, proc, AppId(e.ids, pkg));
      case LockReq(pkg) => LockInSync(t, pkg, true);
      case UnlockReq(pkg) => LockInSync(t, pkg, false);
      case ListReq => RescanInSync(t, e.ids);
      case ZygoteReq => RescanInSync(s, e.ids);
      case _ =>
    }
  }

  /** Over every run from any table, memory is what reading the table again would give. */
  lemma {:induction false} RunInSync(rows: Rows, es: seq<Event>, n: nat)
    requires n <= |es|
    ensures InSync(Run(State(None, rows), es, n))
  {
    if n > 0 {
      RunInSync(rows, es, n - 1);
      StepInSync(Run(State(None, rows), es, n - 1), es[n - 1]);
    }
  }

  /** The package is locked in the table and has at least these processes there. */
  ghost predicate Kept(rows: Rows, p: string, procs: set<string>) {
    && (exists x :: (p, x) in rows && rows[(p, x)])
    && (forall x :: x in procs ==> (p, x) in rows)
  }

  lemma {:induction false} ScanKeeps(m: Mem, rows: Rows, ids: Ids, p: string, procs: set<string>)
    requires Reads(rows, m.procs, m.locked) && Kept(rows, p, procs)
    ensures Kept(Scan(m, rows, ids).rows, p, procs)
  {
    assert p in m.locked;
    var x :| (p, x) in rows && rows[(p, x)];
    assert (p, x) in Scan(m, rows, ids).rows;
  }

  lemma {:induction false} EnsureKeeps(s: State, ids: Ids, p: string, procs: set<string>)
    requires InSync(s) && Kept(s.rows, p, procs)
    ensures Kept(Ensure(s, ids).rows, p, procs) && p in Ensure(s, ids).mem.value.locked
  {
    ReadsOf(s.rows);
    if s.mem.None? {
      ScanKeeps(Mem(ProcsOf(s.rows), map[], LockedOf(s.rows)), s.rows, ids, p, procs);
    }
  }

  lemma {:induction false} AddKeeps(s: State, pkg: string, name: string, ids: Ids, p: string, procs: set<string>)
    requires InSync(s) && Kept(s.rows, p, procs)
    ensures Kept(Add(s, pkg, name, ids).0.rows, p, procs)
  {
    EnsureKeeps(s, ids, p, procs);
    RowsGrow(Ensure(s, ids).rows, AddTo(Ensure(s, ids), pkg, ProcName(pkg, name), AppId(ids, pkg)).0.rows, p, procs);
  }

  lemma {:induction false} RmKeeps(s: State, pkg: string, proc: string, ids: Ids, p: string, procs: set<string>)
    requires InSync(s) && Kept(s.rows, p, procs)
    ensures Kept(Rm(s, pkg, proc, ids).0.rows, p, procs)
  {
    EnsureKeeps(s, ids, p, procs);
    RowsGrow(Ensure(s, ids).rows, RmFrom(Ensure(s, ids), pkg, proc, AppId(ids, pkg)).0.rows, p, procs);
  }

  lemma {:induction false} LockKeeps(s: State, pkg: string, lock: bool, ids: Ids, p: string, procs: set<string>)
    requires InSync(s) && Kept(s.rows, p, procs) && (pkg == p ==> lock)
    ensures Kept(SetLocked(s, pkg, lock, ids).0.rows, p, procs)
  {
    EnsureKeeps(s, ids, p, procs);
    LockInKeeps(Ensure(s, ids), pkg, lock, p, procs);
  }

  lemma {:induction false} LockInKeeps(t: State, pkg: string, lock: bool, p: string, procs: set<string>)
    requires t.mem.Some? && Kept(t.rows, p, procs) && (pkg == p ==> lock)
    ensures Kept(LockIn(t, pkg, lock).0.rows, p, procs)
  {
    RowsGrow(t.rows, LockIn(t, pkg, lock).0.rows, p, procs);
  }

  lemma {:induction false} RescanKeeps(s: State, ids: Ids, p: string, procs: set<string>)
    requires InSync(s) && Kept(s.rows, p, procs)
    ensures Kept(Rescan(s, ids).rows, p, procs)
  {
    ReadsOf(s.rows);
    if s.mem.Some? {
      ScanKeeps(s.mem.value, s.rows, ids, p, procs);
    }
  }

  lemma {:induction false} StepKeeps(s: State, e: Event, p: string, procs: set<string>)
    requires InSync(s) && Kept(s.rows, p, procs) && e.req != UnlockReq(p)
    ensures Kept(Step(s, e).rows, p, procs)
  {
    match e.req {
      case AddReq(pkg, name) => AddKeeps(s, pkg, name, e.ids, p, procs);
      case RmReq(pkg, proc) => RmKeeps(s, pkg, proc, e.ids, p, procs);
      case LockReq(pkg) => LockKeeps(s, pkg, true, e.ids, p, procs);
      case UnlockReq(pkg) => LockKeeps(s, pkg, false, e.ids, p, procs);
      case ListReq =>
        EnsureKeeps(s, e.ids, p, procs);
        EnsureInSync(s, e.ids);
        RescanKeeps(Ensure(s, e.ids), e.ids, p, procs);
      case QueryReq => EnsureKeeps(s, e.ids, p, procs);
      case ZygoteReq => RescanKeeps(s, e.ids, p, procs);
      case RestartReq =>
    }
  }

  lemma {:induction false} RowsGrow(a: Rows, b: Rows, p: string, procs: set<string>)
    requires Kept(a, p, procs)
    requires forall x :: (p, x) in a ==> (p, x) in b && (a[(p, x)] ==> b[(p, x)])
    ensures Kept(b, p, procs)
  {
    var x :| (p, x) in a && a[(p, x)];
    assert b[(p, x)];
  }

  /** Over every run without an unlock of it, a locked package stays locked and loses no entry. */
  lemma {:induction false} LockedLosesNothing(s: State, es: seq<Event>, n: nat, p: string)
    requires n <= |es| && InSync(s) && p in LockedOf(s.rows)
    requires forall k :: 0 <= k < n ==> es[k].req != UnlockReq(p)
    ensures Kept(Run(s, es, n).rows, p, ProcsFor(s.rows, p)) && InSync(Run(s, es, n))
  {
    ReadsOf(s.rows);
    if n == 0 {
      assert p in LockedOf(s.rows);
    } else {
      LockedLosesNothing(s, es, n - 1, p);
      StepKeeps(Run(s, es, n - 1), es[n - 1], p, ProcsFor(s.rows, p));
      StepInSync(Run(s, es, n - 1), es[n - 1]);
    }
  }

  /** Locking a valid package fails exactly when all the table has of it is an unlocked sentinel row. */
  lemma {:induction false} LockFailsIff(s: State, pkg: string, ids: Ids)
    requires InSync(s) && pkg != ISOLATED && Validate(pkg, "")
    ensures SetLocked(s, pkg, true, ids).1 == ERROR <==>
            var rows := Ensure(s, ids).rows;
            (pkg, "") in rows && !rows[(pkg, "")] && forall x :: (pkg, x) in rows ==> x == ""
  {
    EnsureInSync(s, ids);
    var m, rows := Ensure(s, ids).mem.value, Ensure(s, ids).rows;
    if pkg in m.procs {
      var x :| x in m.procs[pkg];
      assert (pkg, x) in rows && x != "";
    }
    forall x | (pkg, x) in rows && x != "" ensures pkg in m.procs {
      assert pkg in m.procs && x in m.procs[pkg];
    }
    assert pkg in m.locked <==> exists x :: (pkg, x) in rows && rows[(pkg, x)];
  }

  // ---------------------------------------------------------------------
  // The reverse index
  // ---------------------------------------------------------------------

  /** Every indexed package has that app id and some process. */
  ghost predicate IndexSound(m: Mem, ids: Ids) {
    && (forall id, p :: HasEntry(m.index, id, p) ==> id > 0 && AppId(ids, p) == id && p in m.procs)
    && (forall p :: p in m.procs ==> m.procs[p] != {})
  }

  ghost predicate Sound(s: State, ids: Ids) {
    s.mem.Some? ==> IndexSound(s.mem.value, ids)
  }

  lemma {:induction false} ScanSound(m: Mem, rows: Rows, ids: Ids)
    requires forall p :: p in m.procs ==> m.procs[p] != {}
    ensures IndexSound(Scan(m, rows, ids).mem.value, ids)
  {
  }

  lemma {:induction false} EnsureSound(s: State, ids: Ids)
    requires Sound(s, ids)
    ensures IndexSound(Ensure(s, ids).mem.value, ids)
  {
    ReadsOf(s.rows);
    if s.mem.None? {
      ScanSound(Mem(ProcsOf(s.rows), map[], LockedOf(s.rows)), s.rows, ids);
    }
  }

  lemma {:induction false} AddSound(t: State, pkg: string, proc: string, ids: Ids)
    requires t.mem.Some? && IndexSound(t.mem.value, ids)
    ensures Sound(AddTo(t, pkg, proc, AppId(ids, pkg)).0, ids)
  {
    var m, u := t.mem.value, AddTo(t, pkg, proc, AppId(ids, pkg)).0.mem.value;
    forall id, p | HasEntry(u.index, id, p) ensures id > 0 && AppId(ids, p) == id && p in u.procs {
      assert (p == pkg && id == AppId(ids, pkg) && id > 0) || HasEntry(m.index, id, p);
    }
  }

  lemma {:induction false} RmSound(t: State, pkg: string, proc: string, ids: Ids)
    requires t.mem.Some? && IndexSound(t.mem.value, ids)
    ensures Sound(RmFrom(t, pkg, proc, AppId(ids, pkg)).0, ids)
  {
    var m, u := t.mem.value, RmFrom(t, pkg, proc, AppId(ids, pkg)).0.mem.value;
    forall id, p | HasEntry(u.index, id, p) ensures id > 0 && AppId(ids, p) == id && p in u.procs {
      assert HasEntry(m.index, id, p);
    }
  }

  lemma {:induction false} LockSound(t: State, pkg: string, lock: bool, ids: Ids)
    requires t.mem.Some? && IndexSound(t.mem.value, ids)
    ensures Sound(LockIn(t, pkg, lock).0, ids)
  {
  }

  lemma {:induction false} RescanSound(s: State, ids: Ids)
    requires Sound(s, ids)
    ensures Sound(Rescan(s, ids), ids)
  {
    if s.mem.Some? {
      ScanSound(s.mem.value, s.rows, ids);
    }
  }

  lemma {:induction false} StepSound(s: State, e: Event)
    requires Sound(s, e.ids)
    ensures Sound(Step(s, e), e.ids)
  {
    EnsureSound(s, e.ids);
    var t := Ensure(s, e.ids);
    match e.req {
      case AddReq(pkg, name) => AddSound(t, pkg, ProcName(pkg, name), e.ids);
      case RmReq(pkg, proc) => RmSound(t, pkg, proc, e.ids);
      case LockReq(pkg) => LockSound(t, pkg, true, e.ids);
      case UnlockReq(pkg) => LockSound(t, pkg, false, e.ids);
      case ListReq => RescanSound(t, e.ids);
      case QueryReq =>
      case ZygoteReq => RescanSound(s, e.ids);
      case RestartReq =>
    }
  }

  /** With app ids that do not change, the index is sound in every run and every lookup through it is defined. */
  lemma {:induction false} RunIndexSound(rows: Rows, es: seq<Event>, n: nat, ids: Ids)
    requires n <= |es| && forall k :: 0 <= k < n ==> es[k].ids == ids
    ensures Sound(Run(State(None, rows), es, n), ids)
    ensures Run(State(None, rows), es, n).mem.Some? ==> Defined(Run(State(None, rows), es, n).mem.value)
  {
    if n > 0 {
      RunIndexSound(rows, es, n - 1, ids);
      StepSound(Run(State(None, rows), es, n - 1), es[n - 1]);
    }
  }

  ghost predicate Filled(m: Mem) {
    forall p :: p in m.procs ==> m.procs[p] != {}
  }

  /** Whether every lookup is defined, whatever the app ids are now. */
  ghost predicate LookupsDefined(s: State) {
    s.mem.Some? ==> Defined(s.mem.value) && Filled(s.mem.value)
  }

  predicate RemovesLast(m: Mem, pkg: string, proc: string) {
    pkg !in m.locked && pkg in m.procs && (proc == "" || m.procs[pkg] == {proc})
  }

  /** The package is indexed under an id it does not have now. */
  ghost predicate Elsewhere(m: Mem, pkg: string, ids: Ids) {
    exists id :: HasEntry(m.index, id, pkg) && !(id == AppId(ids, pkg) && id > 0)
  }

  /** The request removes the last process of a package indexed under an id it does not have now. */
  ghost predicate Strands(s: State, e: Event) {
    && e.req.RmReq?
    && var m := Ensure(s, e.ids).mem.value;
       RemovesLast(m, e.req.pkg, e.req.proc) && Elsewhere(m, e.req.pkg, e.ids)
  }

  lemma {:induction false} AddKeepsLookups(t: State, pkg: string, proc: string, id: int)
    requires t.mem.Some? && LookupsDefined(t)
    ensures LookupsDefined(AddTo(t, pkg, proc, id).0)
  {
    var m, u := t.mem.value, AddTo(t, pkg, proc, id).0.mem.value;
    forall i, p | HasEntry(u.index, i, p) ensures p in u.procs {
      assert p == pkg || HasEntry(m.index, i, p);
    }
  }

  lemma {:induction false} LockKeepsLookups(s: State, pkg: string, lock: bool, ids: Ids)
    requires LookupsDefined(s) && LookupsDefined(Ensure(s, ids))
    ensures LookupsDefined(SetLocked(s, pkg, lock, ids).0)
  {
  }

  lemma {:induction false} RescanKeepsLookups(s: State, ids: Ids)
    requires LookupsDefined(s)
    ensures LookupsDefined(Rescan(s, ids))
  {
    if s.mem.Some? {
      ScanSound(s.mem.value, s.rows, ids);
    }
  }

  lemma {:induction false} RmKeepsFilled(t: State, pkg: string, proc: string, id: int)
    requires t.mem.Some? && Filled(t.mem.value)
    ensures Filled(RmFrom(t, pkg, proc, id).0.mem.value)
    ensures RmFrom(t, pkg, proc, id).0.mem.value.procs ==
            if RemovesLast(t.mem.value, pkg, proc) then t.mem.value.procs - {pkg}
            else RmFrom(t, pkg, proc, id).0.mem.value.procs
  {
    var m := t.mem.value;
    if pkg in m.procs && m.procs[pkg] == {proc} {
      assert m.procs[pkg] - {proc} == {};
    }
  }

  lemma {:induction false} RmKeepsLookupsIff(t: State, pkg: string, proc: string, ids: Ids)
    requires t.mem.Some? && LookupsDefined(t)
    ensures LookupsDefined(RmFrom(t, pkg, proc, AppId(ids, pkg)).0) <==>
            !(RemovesLast(t.mem.value, pkg, proc) && Elsewhere(t.mem.value, pkg, ids))
  {
    var m, u := t.mem.value, RmFrom(t, pkg, proc, AppId(ids, pkg)).0.mem.value;
    RmKeepsFilled(t, pkg, proc, AppId(ids, pkg));
    forall id, p | HasEntry(u.index, id, p) ensures HasEntry(m.index, id, p) {
    }
    if RemovesLast(m, pkg, proc) {
      if m.procs[pkg] == {proc} {
        assert m.procs[pkg] - {proc} == {};
      }
      assert u.index == IndexDrop(m.index, AppId(ids, pkg), pkg);
      if Elsewhere(m, pkg, ids) {
        var id :| HasEntry(m.index, id, pkg) && !(id == AppId(ids, pkg) && id > 0);
        assert HasEntry(u.index, id, pkg) && pkg !in u.procs;
      } else {
        forall id, p | HasEntry(u.index, id, p) ensures p in u.procs {
          assert HasEntry(m.index, id, p);
        }
      }
    } else {
      OtherRm(t, pkg, proc, AppId(ids, pkg));
    }
  }

  lemma {:induction false} OtherRm(t: State, pkg: string, proc: string, id: int)
    requires t.mem.Some? && Filled(t.mem.value) && !RemovesLast(t.mem.value, pkg, proc)
    ensures RmFrom(t, pkg, proc, id).0.mem.value.procs.Keys == t.mem.value.procs.Keys
    ensures RmFrom(t, pkg, proc, id).0.mem.value.index == t.mem.value.index
  {
    var m := t.mem.value;
    if pkg in m.procs && proc in m.procs[pkg] && m.procs[pkg] - {proc} == {} {
      assert m.procs[pkg] == {proc};
    }
  }

  lemma {:induction false} EnsureKeepsLookups(s: State, ids: Ids)
    requires LookupsDefined(s)
    ensures LookupsDefined(Ensure(s, ids))
  {
    ReadsOf(s.rows);
    if s.mem.None? {
      ScanSound(Mem(ProcsOf(s.rows), map[], LockedOf(s.rows)), s.rows, ids);
    }
  }

  /**
   * With app ids that may change at any time, a request leaves every lookup defined
   * exactly when it does not remove the last process of a package indexed elsewhere.
   */
  lemma {:induction false} StepKeepsLookupsIff(s: State, e: Event)
    requires LookupsDefined(s)
    ensures LookupsDefined(Step(s, e)) <==> !Strands(s, e)
  {
    EnsureKeepsLookups(s, e.ids);
    var t := Ensure(s, e.ids);
    match e.req {
      case AddReq(pkg, name) => AddKeepsLookups(t, pkg, ProcName(pkg, name), AppId(e.ids, pkg));
      case RmReq(pkg, proc) => RmKeepsLookupsIff(t, pkg, proc, e.ids);
      case LockReq(pkg) => LockKeepsLookups(s, pkg, true, e.ids);
      case UnlockReq(pkg) => LockKeepsLookups(s, pkg, false, e.ids);
      case ListReq => RescanKeepsLookups(t, e.ids);
      case QueryReq =>
      case ZygoteReq => RescanKeepsLookups(s, e.ids);
      case RestartReq =>
    }
  }

  ghost predicate DefinedAt(rows: Rows, es: seq<Event>, k: nat)
    requires k <= |es|
  {
    LookupsDefined(Run(State(None, rows), es, k))
  }

  ghost predicate StrandsAt(rows: Rows, es: seq<Event>, k: nat)
    requires k < |es|
  {
    Strands(Run(State(None, rows), es, k), es[k])
  }

  lemma {:induction false} DefinedNext(rows: Rows, es: seq<Event>, k: nat)
    requires k < |es| && DefinedAt(rows, es, k)
    ensures DefinedAt(rows, es, k + 1) <==> !StrandsAt(rows, es, k)
  {
    StepKeepsLookupsIff(Run(State(None, rows), es, k), es[k]);
  }

  /** Over a whole run: every lookup is defined at every moment exactly when no request strands an entry. */
  lemma {:induction false} RunKeepsLookupsIff(rows: Rows, es: seq<Event>, n: nat)
    requires n <= |es|
    ensures (forall k :: 0 <= k <= n ==> DefinedAt(rows, es, k)) <==>
            (forall k :: 0 <= k < n ==> !StrandsAt(rows, es, k))
  {
    if n > 0 {
      RunKeepsLookupsIff(rows, es, n - 1);
      if DefinedAt(rows, es, n - 1) {
        DefinedNext(rows, es, n - 1);
      }
    }
  }

  /** Every id a package is indexed under is one it had at an earlier request. */
  ghost predicate FromEarlier(s: State, es: seq<Event>, k: nat)
    requires k <= |es|
  {
    s.mem.Some? ==> forall id, p :: HasEntry(s.mem.value.index, id, p) ==> id > 0 && HadId(es, k, p, id)
  }

  ghost predicate HadId(es: seq<Event>, k: nat, p: string, id: int)
    requires k <= |es|
  {
    exists j :: 0 <= j < k && AppId(es[j].ids, p) == id
  }

  /** A step only adds entries under the ids of the moment. */
  lemma {:induction false} NewEntries(s: State, e: Event, id: int, p: string)
    requires Step(s, e).mem.Some? && HasEntry(Step(s, e).mem.value.index, id, p)
    ensures (s.mem.Some? && HasEntry(s.mem.value.index, id, p)) || (AppId(e.ids, p) == id && id > 0)
  {
    var t := Ensure(s, e.ids).mem.value;
    if HasEntry(t.index, id, p) {
      EnsureEntries(s, e.ids, id, p);
    }
    match e.req {
      case AddReq(pkg, name) => AddEntries(Ensure(s, e.ids), pkg, ProcName(pkg, name), AppId(e.ids, pkg), id, p);
      case RmReq(pkg, proc) => RmEntries(Ensure(s, e.ids), pkg, proc, AppId(e.ids, pkg), id, p);
      case LockReq(pkg) => LockEntries(Ensure(s, e.ids), pkg, true);
      case UnlockReq(pkg) => LockEntries(Ensure(s, e.ids), pkg, false);
      case _ =>
    }
  }

  lemma {:induction false} EnsureEntries(s: State, ids: Ids, id: int, p: string)
    requires HasEntry(Ensure(s, ids).mem.value.index, id, p)
    ensures (s.mem.Some? && HasEntry(s.mem.value.index, id, p)) || (AppId(ids, p) == id && id > 0)
  {
  }

  lemma {:induction false} AddEntries(t: State, pkg: string, proc: string, at: int, id: int, p: string)
    requires t.mem.Some?
    ensures HasEntry(AddTo(t, pkg, proc, at).0.mem.value.index, id, p) ==>
            HasEntry(t.mem.value.index, id, p) || (p == pkg && id == at && id > 0)
  {
  }

  lemma {:induction false} RmEntries(t: State, pkg: string, proc: string, at: int, id: int, p: string)
    requires t.mem.Some? && HasEntry(RmFrom(t, pkg, proc, at).0.mem.value.index, id, p)
    ensures HasEntry(t.mem.value.index, id, p)
  {
  }

  lemma {:induction false} LockEntries(t: State, pkg: string, lock: bool)
    requires t.mem.Some?
    ensures LockIn(t, pkg, lock).0.mem.value.index == t.mem.value.index
  {
  }

  lemma {:induction false} RunFromEarlier(rows: Rows, es: seq<Event>, k: nat)
    requires k <= |es|
    ensures FromEarlier(Run(State(None, rows), es, k), es, k)
  {
    if k > 0 {
      RunFromEarlier(rows, es, k - 1);
      var s, u := Run(State(None, rows), es, k - 1), Run(State(None, rows), es, k);
      if u.mem.Some? {
        forall id, p | HasEntry(u.mem.value.index, id, p) ensures id > 0 && HadId(es, k, p, id) {
          NewEntries(s, es[k - 1], id, p);
          if s.mem.Some? && HasEntry(s.mem.value.index, id, p) {
            var j :| 0 <= j < k - 1 && AppId(es[j].ids, p) == id;
          }
        }
      }
    }
  }

  /** Enough for callers: no package has an id at some request and another one when it is removed later. */
  ghost predicate Steady(es: seq<Event>, n: nat)
    requires n <= |es|
  {
    forall j, k :: 0 <= j < k < n && es[k].req.RmReq? && AppId(es[j].ids, es[k].req.pkg) > 0 ==>
      AppId(es[j].ids, es[k].req.pkg) == AppId(es[k].ids, es[k].req.pkg)
  }

  lemma {:induction false} SteadyStrandsNot(rows: Rows, es: seq<Event>, n: nat, k: nat)
    requires k < n <= |es| && Steady(es, n)
    ensures !StrandsAt(rows, es, k)
  {
    RunFromEarlier(rows, es, k);
    var s, e := Run(State(None, rows), es, k), es[k];
    if Strands(s, e) {
      var m := Ensure(s, e.ids).mem.value;
      var id :| HasEntry(m.index, id, e.req.pkg) && !(id == AppId(e.ids, e.req.pkg) && id > 0);
      EnsureEntries(s, e.ids, id, e.req.pkg);
    }
  }

  /** With ids that may change, but not for a package removed later, every lookup of every run is defined. */
  lemma {:induction false} SteadyRunsAreDefined(rows: Rows, es: seq<Event>, n: nat)
    requires n <= |es| && Steady(es, n)
    ensures forall k :: 0 <= k <= n ==> DefinedAt(rows, es, k)
  {
    forall k | 0 <= k < n ensures !StrandsAt(rows, es, k) {
      SteadyStrandsNot(rows, es, n, k);
    }
    RunKeepsLookupsIff(rows, es, n);
  }

  /** Right after a scan the check finds what a search through all unlocked packages would. */
  lemma {:induction false} ScanFindsUnlocked(m: Mem, rows: Rows, ids: Ids, uid: int, process: string)
    requires (forall p :: p in m.procs ==> m.procs[p] != {}) && ToAppId(uid) < 90000
    ensures var n := Scan(m, rows, ids).mem.value;
            && Defined(n)
            && (IsDenyTarget(n, uid, process) <==>
                exists p :: p in n.procs && p != ISOLATED && p !in n.locked && AppId(ids, p) == ToAppId(uid) &&
                  process in n.procs[p])
  {
    ScanSound(m, rows, ids);
    var n, id := Scan(m, rows, ids).mem.value, ToAppId(uid);
    forall p ensures HasEntry(n.index, id, p) <==>
                     p in n.procs && p != ISOLATED && p !in n.locked && AppId(ids, p) == id
    {
      if p in n.procs && p != ISOLATED && p !in n.locked && AppId(ids, p) == id {
        assert Indexed(m.locked, ids, p);
        assert id in IdsSeen(m, ids, m.procs.Keys);
      }
    }
  }

  /** A process just added is found at once, under every user's uid of the app. */
  lemma {:induction false} AddedIsTarget(s: State, pkg: string, name: string, ids: Ids, uid: int)
    requires Sound(s, ids) && Add(s, pkg, name, ids).1 == OK
    requires ToAppId(uid) == AppId(ids, pkg) && AppId(ids, pkg) < 90000 && pkg != ISOLATED
    ensures var m := Add(s, pkg, name, ids).0.mem.value;
            Defined(m) && IsDenyTarget(m, uid, ProcName(pkg, name))
  {
    EnsureSound(s, ids);
    AddSound(Ensure(s, ids), pkg, ProcName(pkg, name), ids);
    var m := Add(s, pkg, name, ids).0.mem.value;
    assert HasEntry(m.index, AppId(ids, pkg), pkg);
  }

  // ---------------------------------------------------------------------
  // Two runs
  // ---------------------------------------------------------------------

  lemma {:induction false} EmptyTable(ids: Ids)
    ensures Ensure(State(None, map[]), ids) == State(Some(Mem(map[], map[], {})), map[])
  {
    LoadNone();
    ScanNone(Mem(map[], map[], {}), map[], ids);
  }

  function LockAddUnlockRm(pkg: string, ids: Ids): seq<Event> {
    [Event(LockReq(pkg), ids), Event(AddReq(pkg, pkg), ids), Event(UnlockReq(pkg), ids), Event(RmReq(pkg, pkg), ids)]
  }

  /** Lock, add a process, unlock, remove it: the sentinel row stays and the next lock fails. */
  lemma {:induction false} RelockFails(pkg: string, ids: Ids)
    requires pkg != ISOLATED && pkg != "" && Validate(pkg, "") && Validate(pkg, pkg) && pkg in ids && ids[pkg] > 0
    ensures var es := LockAddUnlockRm(pkg, ids);
            SetLocked(Run(State(None, map[]), es, 4), pkg, true, ids).1 == ERROR
  {
    var id, s0 := ids[pkg], State(Some(Mem(map[], map[], {})), map[]);
    var s1 := State(Some(Mem(map[], map[], {pkg})), map[(pkg, "") := true]);
    var s2 := State(Some(Mem(map[pkg := {pkg}], map[id := {pkg}], {pkg})), map[(pkg, "") := true, (pkg, pkg) := false]);
    var s3 := State(Some(Mem(map[pkg := {pkg}], map[id := {pkg}], {})), map[(pkg, "") := false, (pkg, pkg) := false]);
    var s4 := State(Some(Mem(map[], map[], {})), map[(pkg, "") := false]);
    EmptyTable(ids);
    FirstLock(pkg, s0, s1);
    LockedAdd(pkg, id, s1, s2);
    UnlockAndRm(pkg, id, s2, s3, s4);
    FourSteps(State(None, map[]), s1, s2, s3, s4, pkg, ids);
  }

  lemma {:induction false} FirstLock(pkg: string, s0: State, s1: State)
    requires Validate(pkg, "") && s0 == State(Some(Mem(map[], map[], {})), map[])
    requires s1 == State(Some(Mem(map[], map[], {pkg})), map[(pkg, "") := true])
    ensures LockIn(s0, pkg, true).0 == s1
  {
    var none: set<string> := {};
    assert none + {pkg} == {pkg};
    assert Flagged(map[(pkg, "") := true], pkg, true) == map[(pkg, "") := true];
  }

  lemma {:induction false} LockedAdd(pkg: string, id: int, s1: State, s2: State)
    requires pkg != "" && id > 0 && s1 == State(Some(Mem(map[], map[], {pkg})), map[(pkg, "") := true])
    requires s2.rows == map[(pkg, "") := true, (pkg, pkg) := false]
    requires s2.mem == Some(Mem(map[pkg := {pkg}], map[id := {pkg}], {pkg}))
    ensures AddTo(s1, pkg, pkg, id).0 == s2
  {
    var none: set<string> := {};
    assert none + {pkg} == {pkg};
  }

  lemma {:induction false} UnlockAndRm(pkg: string, id: int, s2: State, s3: State, s4: State)
    requires pkg != "" && id > 0 && Validate(pkg, "")
    requires s2.rows == map[(pkg, "") := true, (pkg, pkg) := false]
    requires s2.mem == Some(Mem(map[pkg := {pkg}], map[id := {pkg}], {pkg}))
    requires s3.rows == map[(pkg, "") := false, (pkg, pkg) := false]
    requires s3.mem == Some(Mem(map[pkg := {pkg}], map[id := {pkg}], {}))
    requires s4 == State(Some(Mem(map[], map[], {})), map[(pkg, "") := false])
    ensures LockIn(s2, pkg, false).0 == s3 && RmFrom(s3, pkg, pkg, id).0 == s4
  {
    assert Flagged(s2.rows, pkg, false) == s3.rows;
    assert {pkg} - {pkg} == {};
    assert s3.rows - {(pkg, pkg)} == map[(pkg, "") := false];
    assert map[pkg := {pkg}] - {pkg} == map[] && map[id := {pkg}] - {id} == map[];
  }

  lemma {:induction false} FourSteps(s: State, s1: State, s2: State, s3: State, s4: State, pkg: string, ids: Ids)
    requires pkg != ISOLATED && pkg != "" && Validate(pkg, pkg) && s1.mem.Some? && s2.mem.Some? && s3.mem.Some?
    requires LockIn(Ensure(s, ids), pkg, true).0 == s1 && AddTo(s1, pkg, pkg, AppId(ids, pkg)).0 == s2
    requires LockIn(s2, pkg, false).0 == s3 && RmFrom(s3, pkg, pkg, AppId(ids, pkg)).0 == s4
    ensures var es := LockAddUnlockRm(pkg, ids);
            Run(s, es, 4) == s4
  {
    var es := LockAddUnlockRm(pkg, ids);
    assert Run(s, es, 1) == s1 by { assert Run(s, es, 0) == s; }
    assert Run(s, es, 2) == s2;
    assert Run(s, es, 3) == s3;
  }

  /** An app uninstalled between add and remove stays in the index without an entry. */
  lemma {:induction false} UninstalledStaysIndexed(pkg: string, ids: Ids)
    requires pkg != ISOLATED && pkg != "" && Validate(pkg, pkg) && pkg in ids && ids[pkg] > 0
    ensures var s := Add(State(None, map[]), pkg, pkg, ids).0;
            s.mem.Some? && Defined(s.mem.value) && !Defined(Rm(s, pkg, pkg, map[]).0.mem.value)
  {
    var none: set<string> := {};
    assert none + {pkg} == {pkg};
    EmptyTable(ids);
    var s := State(Some(Mem(map[pkg := {pkg}], map[ids[pkg] := {pkg}], {})), map[(pkg, pkg) := false]);
    assert Add(State(None, map[]), pkg, pkg, ids).0 == s;
    assert HasEntry(s.mem.value.index, ids[pkg], pkg);
    RmKeepsLookupsIff(s, pkg, pkg, map[]);
    assert RemovesLast(s.mem.value, pkg, pkg) && Elsewhere(s.mem.value, pkg, map[]);
    RmKeepsFilled(s, pkg, pkg, 0);
  }
}
