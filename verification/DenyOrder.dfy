/**
 * Which order of overlapping denylist requests (native/src/core/deny/utils.cpp) comes to
 * the same as serving them one after the other, and one that does not.
 */
module DenyOrder {
  import opened Options
  import opened Denylist
  import opened DenyOverlap

  // ---------------------------------------------------------------------
  // Which statements may change places
  // ---------------------------------------------------------------------

  /** An insert and a delete or a locking of its row, or two lock changes to different flags. */
  predicate Clash(a: Write, b: Write) {
    match (a, b)
    case (Insert(p, x), Delete(q, y)) => p == q && x == y
    case (Insert(p, _), Drop(pkgs)) => p in pkgs
    case (Insert(p, _), SetFlag(q, flag)) => p == q && flag
    case (Sentinel(p), Delete(q, y)) => p == q && y == ""
    case (Sentinel(p), Drop(pkgs)) => p in pkgs
    case (Sentinel(p), SetFlag(q, flag)) => p == q && !flag
    case (SetFlag(p, f), SetFlag(q, g)) => p == q && f != g
    case _ => false
  }

  predicate Independent(a: Write, b: Write) {
    !Clash(a, b) && !Clash(b, a)
  }

  lemma {:induction false} InsertCommutes(rows: Rows, a: Write, b: Write)
    requires Independent(a, b) && (a.Insert? || a.Sentinel?)
    ensures Exec(Exec(rows, a), b) == Exec(Exec(rows, b), a)
  {
  }

  lemma {:induction false} DeleteCommutes(rows: Rows, a: Write, b: Write)
    requires (a.Delete? || a.Drop?) && (b.Delete? || b.Drop? || b.SetFlag?)
    ensures Exec(Exec(rows, a), b) == Exec(Exec(rows, b), a)
  {
  }

  lemma {:induction false} FlagCommutes(rows: Rows, a: Write, b: Write)
    requires Independent(a, b) && a.SetFlag? && b.SetFlag?
    ensures Exec(Exec(rows, a), b) == Exec(Exec(rows, b), a)
  {
  }

  lemma {:induction false} Commute(rows: Rows, a: Write, b: Write)
    requires Independent(a, b)
    ensures Exec(Exec(rows, a), b) == Exec(Exec(rows, b), a)
  {
    if a.Insert? || a.Sentinel? {
      InsertCommutes(rows, a, b);
    } else if b.Insert? || b.Sentinel? {
      InsertCommutes(rows, b, a);
    } else if a.Delete? || a.Drop? {
      DeleteCommutes(rows, a, b);
    } else if b.SetFlag? {
      FlagCommutes(rows, a, b);
    } else {
      DeleteCommutes(rows, b, a);
    }
  }

  lemma {:induction false} ClashShows(a: Write, b: Write)
    requires Clash(a, b)
    ensures exists rows :: Exec(Exec(rows, a), b) != Exec(Exec(rows, b), a)
  {
    var p := a.pkg;
    if a.SetFlag? {
      var one: Rows := map[(p, "") := false];
      assert Exec(Exec(one, a), b)[(p, "")] == b.flag && Exec(Exec(one, b), a)[(p, "")] == a.flag;
      assert Exec(Exec(one, a), b) != Exec(Exec(one, b), a);
    } else {
      var none: Rows := map[];
      var r := (p, if a.Insert? then a.proc else "");
      assert Exec(none, b) == none;
      assert Exec(Exec(none, b), a) == map[r := a.Sentinel?];
      assert r !in Exec(Exec(none, a), b) || Exec(Exec(none, a), b)[r] != a.Sentinel?;
      assert Exec(Exec(none, a), b) != Exec(Exec(none, b), a);
    }
  }

  /** Two statements may change places on every table exactly when they are independent. */
  lemma {:induction false} CommuteIff(a: Write, b: Write)
    ensures Independent(a, b) <==> forall rows :: Exec(Exec(rows, a), b) == Exec(Exec(rows, b), a)
  {
    if Independent(a, b) {
      forall rows ensures Exec(Exec(rows, a), b) == Exec(Exec(rows, b), a) {
        Commute(rows, a, b);
      }
    } else if Clash(a, b) {
      ClashShows(a, b);
    } else {
      ClashShows(b, a);
    }
  }

  /** A statement may overtake independent ones. */
  lemma {:induction false} Overtake(rows: Rows, ws: seq<Write>, k: nat)
    requires k < |ws| && forall j :: 0 <= j < k ==> Independent(ws[j], ws[k])
    ensures ExecAll(Exec(rows, ws[k]), ws[..k] + ws[k + 1..]) == ExecAll(rows, ws)
    decreases k
  {
    var rest := ws[1..];
    if k == 0 {
      assert ws[..0] + ws[1..] == rest;
    } else {
      Commute(rows, ws[0], ws[k]);
      Overtake(Exec(rows, ws[0]), rest, k - 1);
      assert (ws[..k] + ws[k + 1..])[1..] == rest[..k - 1] + rest[k..];
    }
  }

  // ---------------------------------------------------------------------
  // Orderly runs
  // ---------------------------------------------------------------------

  /** The state once everything to come has run, in the order of the sections. */
  function Settled(y: System): State {
    State(y.now.mem, ExecAll(y.now.rows, y.pending))
  }

  predicate Concerns(w: Write, pkg: string) {
    if w.Drop? then pkg in w.pkgs else w.pkg == pkg
  }

  predicate NonePending(y: System, pkg: string) {
    forall i :: 0 <= i < |y.pending| ==> !Concerns(y.pending[i], pkg)
  }

  predicate NoStalePending(y: System, ids: Ids) {
    y.now.mem.Some? ==> forall p :: p in Stales(y.now.mem.value, ids) ==> NonePending(y, p)
  }

  /** A lock change that writes its sentinel row under the lock. */
  predicate WritesSentinel(m: Mem, pkg: string, lock: bool) {
    pkg !in m.procs && (lock ==> pkg !in m.locked)
  }

  /**
   * A statement overtakes only independent ones, the daemon restarts only when nothing is
   * to come, and what a section itself writes to the table concerns packages for which
   * nothing is to come.
   */
  predicate Orderly(y: System, mv: Move) {
    match mv
    case Finish(k) => k < |y.pending| ==> forall j :: 0 <= j < k ==> Independent(y.pending[j], y.pending[k])
    case Begin(e) =>
      y.pending == [] ||
      match e.req
      case LockReq(pkg) =>
        y.now.mem.Some? && (WritesSentinel(y.now.mem.value, pkg, true) ==> NonePending(y, pkg))
      case UnlockReq(pkg) =>
        y.now.mem.Some? && (WritesSentinel(y.now.mem.value, pkg, false) ==> NonePending(y, pkg))
      case ListReq => y.now.mem.Some? && NoStalePending(y, e.ids)
      case ZygoteReq => NoStalePending(y, e.ids)
      case RestartReq => false
      case _ => y.now.mem.Some?
  }

  lemma {:induction false} SentinelOne(rows: Rows, w: Write, pkg: string)
    requires !Concerns(w, pkg)
    ensures (pkg, "") in Exec(rows, w) <==> (pkg, "") in rows
    ensures Exec(rows[(pkg, "") := true], w) == Exec(rows, w)[(pkg, "") := true]
    ensures Exec(rows - {(pkg, "")}, w) == Exec(rows, w) - {(pkg, "")}
  {
    match w {
      case Insert(_, _) =>
      case Sentinel(_) =>
      case Delete(_, _) =>
      case Drop(_) =>
      case SetFlag(_, _) =>
    }
  }

  lemma {:induction false} SentinelAll(rows: Rows, ws: seq<Write>, pkg: string)
    requires forall i :: 0 <= i < |ws| ==> !Concerns(ws[i], pkg)
    ensures (pkg, "") in ExecAll(rows, ws) <==> (pkg, "") in rows
    ensures ExecAll(rows[(pkg, "") := true], ws) == ExecAll(rows, ws)[(pkg, "") := true]
    ensures ExecAll(rows - {(pkg, "")}, ws) == ExecAll(rows, ws) - {(pkg, "")}
    decreases |ws|
  {
    if ws != [] {
      SentinelOne(rows, ws[0], pkg);
      SentinelAll(Exec(rows, ws[0]), ws[1..], pkg);
    }
  }

  lemma {:induction false} DropOver(rows: Rows, pkgs: set<string>, w: Write)
    requires forall p :: p in pkgs ==> !Concerns(w, p)
    ensures Exec(Without(rows, pkgs), w) == Without(Exec(rows, w), pkgs)
  {
    match w {
      case Insert(_, _) =>
      case Sentinel(_) =>
      case Delete(_, _) =>
      case Drop(_) =>
      case SetFlag(_, _) =>
    }
  }

  lemma {:induction false} DropOverAll(rows: Rows, pkgs: set<string>, ws: seq<Write>)
    requires forall p, i :: p in pkgs && 0 <= i < |ws| ==> !Concerns(ws[i], p)
    ensures ExecAll(Without(rows, pkgs), ws) == Without(ExecAll(rows, ws), pkgs)
    decreases |ws|
  {
    if ws != [] {
      DropOver(rows, pkgs, ws[0]);
      DropOverAll(Exec(rows, ws[0]), pkgs, ws[1..]);
    }
  }

  /** The section of an orderly move sees and does what it would on the settled state. */
  ghost predicate Settles(y: System, e: Event) {
    var t, u := Opened(y.now, e), Opened(Settled(y), e);
    var sec := SectionOf(t, e);
    SectionOf(u, e) == sec && Released(u, sec) == State(Released(t, sec).mem, ExecAll(Released(t, sec).rows, y.pending))
  }

  lemma {:induction false} LockSettles(y: System, e: Event, pkg: string, lock: bool)
    requires y.now.mem.Some? && e.req == if lock then LockReq(pkg) else UnlockReq(pkg)
    requires WritesSentinel(y.now.mem.value, pkg, lock) ==> NonePending(y, pkg)
    ensures Settles(y, e)
  {
    if WritesSentinel(y.now.mem.value, pkg, lock) {
      SentinelAll(y.now.rows, y.pending, pkg);
    }
  }

  lemma {:induction false} ScanSettles(y: System, e: Event)
    requires (e.req.ListReq? && y.now.mem.Some?) || e.req.ZygoteReq?
    requires NoStalePending(y, e.ids)
    ensures Settles(y, e)
  {
    if y.now.mem.Some? {
      DropOverAll(y.now.rows, Stales(y.now.mem.value, e.ids), y.pending);
    }
  }

  lemma {:induction false} SectionSettles(y: System, e: Event)
    requires Orderly(y, Begin(e))
    ensures Settles(y, e)
  {
    if y.pending != [] {
      match e.req {
        case LockReq(pkg) => LockSettles(y, e, pkg, true);
        case UnlockReq(pkg) => LockSettles(y, e, pkg, false);
        case ListReq => ScanSettles(y, e);
        case ZygoteReq => ScanSettles(y, e);
        case _ =>
      }
    }
  }

  /** Seen through the settled state, an orderly section is the whole request and a statement is nothing. */
  lemma {:induction false} MoveRefines(y: System, mv: Move)
    requires Orderly(y, mv)
    ensures Settled(MoveStep(y, mv)) == if mv.Begin? then Step(Settled(y), mv.e) else Settled(y)
  {
    match mv {
      case Begin(e) =>
        SectionSettles(y, e);
        SectionThenStatement(Settled(y), e);
        var t := Opened(y.now, e);
        var sec := SectionOf(t, e);
        ExecOnce(Released(t, sec).rows, y.pending, Late(sec));
      case Finish(k) =>
        if k < |y.pending| {
          Overtake(y.now.rows, y.pending, k);
        }
    }
  }

  /** The requests of a run, in the order of their sections. */
  function Begun(mvs: seq<Move>, n: nat): seq<Event>
    requires n <= |mvs|
  {
    if n == 0 then []
    else if mvs[n - 1].Begin? then Begun(mvs, n - 1) + [mvs[n - 1].e] else Begun(mvs, n - 1)
  }

  lemma {:induction false} RunPrefix(s: State, es: seq<Event>, e: Event, n: nat)
    requires n <= |es|
    ensures Run(s, es + [e], n) == Run(s, es, n)
  {
    if n > 0 {
      RunPrefix(s, es, e, n - 1);
      assert (es + [e])[n - 1] == es[n - 1];
    }
  }

  ghost predicate OrderlyAt(rows: Rows, mvs: seq<Move>, k: nat)
    requires k < |mvs|
  {
    Orderly(MoveAll(Started(rows), mvs, k), mvs[k])
  }

  /** Every orderly run of overlapping requests settles to what the same requests do one after the other. */
  lemma {:induction false} OverlapRefines(rows: Rows, mvs: seq<Move>, n: nat)
    requires n <= |mvs| && forall k :: 0 <= k < n ==> OrderlyAt(rows, mvs, k)
    ensures Settled(MoveAll(Started(rows), mvs, n)) ==
            Run(State(None, rows), Begun(mvs, n), |Begun(mvs, n)|)
  {
    if n > 0 {
      OverlapRefines(rows, mvs, n - 1);
      assert OrderlyAt(rows, mvs, n - 1);
      var y := MoveAll(Started(rows), mvs, n - 1);
      MoveRefines(y, mvs[n - 1]);
      MoveAllNext(Started(rows), mvs, n);
      BegunNext(rows, mvs, n, Settled(y), Settled(MoveStep(y, mvs[n - 1])));
    }
  }

  lemma {:induction false} BegunNext(rows: Rows, mvs: seq<Move>, n: nat, s: State, t: State)
    requires 0 < n <= |mvs| && s == Run(State(None, rows), Begun(mvs, n - 1), |Begun(mvs, n - 1)|)
    requires t == if mvs[n - 1].Begin? then Step(s, mvs[n - 1].e) else s
    ensures t == Run(State(None, rows), Begun(mvs, n), |Begun(mvs, n)|)
  {
    if mvs[n - 1].Begin? {
      var es := Begun(mvs, n - 1);
      RunPrefix(State(None, rows), es, mvs[n - 1].e, |es|);
    }
  }

  /** So that in an orderly run the two orders end alike once nothing is to come. */
  lemma {:induction false} OrderlyEndsAlike(rows: Rows, mvs: seq<Move>, n: nat)
    requires n <= |mvs| && forall k :: 0 <= k < n ==> OrderlyAt(rows, mvs, k)
    requires MoveAll(Started(rows), mvs, n).pending == [] && MoveAll(Started(rows), mvs, n).now.mem.Some?
    ensures InSync(MoveAll(Started(rows), mvs, n).now)
    ensures RowsEndAlike(HistoryAt(rows, mvs, n)) && LocksEndAlike(HistoryAt(rows, mvs, n))
  {
    OverlapRefines(rows, mvs, n);
    RunInSync(rows, Begun(mvs, n), |Begun(mvs, n)|);
    OverlapInSyncIff(rows, mvs, n);
  }

  // ---------------------------------------------------------------------
  // Runs out of order
  // ---------------------------------------------------------------------

  function AddRm(pkg: string, ids: Ids): seq<Move> {
    [Begin(Event(AddReq(pkg, pkg), ids)), Begin(Event(RmReq(pkg, pkg), ids)), Finish(1), Finish(0)]
  }

  /** A remove that overtakes the add of the same process leaves a row that memory does not have. */
  lemma {:induction false} RemoveOvertakesAdd(pkg: string, ids: Ids)
    requires pkg != ISOLATED && pkg != "" && Validate(pkg, pkg) && pkg in ids && ids[pkg] > 0
    ensures var y := MoveAll(Started(map[]), AddRm(pkg, ids), 4);
            y.pending == [] && !InSync(y.now)
  {
    var y0, y1 := Started(map[]), Added(pkg, ids[pkg]);
    FirstBegins(pkg, ids);
    SecondBegins(pkg, ids);
    var y2 := System(State(Some(Mem(map[], map[], {})), map[]), [Insert(pkg, pkg), Delete(pkg, pkg)]);
    var y3 := System(State(Some(Mem(map[], map[], {})), map[]), [Insert(pkg, pkg)]);
    assert MoveStep(y2, Finish(1)) == y3;
    var y4 := System(State(Some(Mem(map[], map[], {})), map[(pkg, pkg) := false]), []);
    assert MoveStep(y3, Finish(0)) == y4;
    FourMoves(y0, y1, y2, y3, y4, AddRm(pkg, ids));
    ReadsOf(y4.now.rows);
    assert (pkg, pkg) in y4.now.rows;
  }

  /** The add has released the lock and its insert is still to come. */
  function Added(pkg: string, id: int): System {
    System(State(Some(Mem(map[pkg := {pkg}], map[id := {pkg}], {})), map[]), [Insert(pkg, pkg)])
  }

  lemma {:induction false} FirstBegins(pkg: string, ids: Ids)
    requires pkg != ISOLATED && pkg != "" && Validate(pkg, pkg) && pkg in ids && ids[pkg] > 0
    ensures MoveStep(Started(map[]), Begin(Event(AddReq(pkg, pkg), ids))) == Added(pkg, ids[pkg])
  {
    var none: set<string> := {};
    assert none + {pkg} == {pkg};
    EmptyTable(ids);
  }

  lemma {:induction false} SecondBegins(pkg: string, ids: Ids)
    requires pkg != ISOLATED && pkg != "" && pkg in ids && ids[pkg] > 0
    ensures MoveStep(Added(pkg, ids[pkg]), Begin(Event(RmReq(pkg, pkg), ids))) ==
            System(State(Some(Mem(map[], map[], {})), map[]), [Insert(pkg, pkg), Delete(pkg, pkg)])
  {
    var id := ids[pkg];
    assert {pkg} - {pkg} == {};
    assert map[pkg := {pkg}] - {pkg} == map[] && map[id := {pkg}] - {id} == map[];
  }

  lemma {:induction false} FourMoves(y0: System, y1: System, y2: System, y3: System, y4: System, mvs: seq<Move>)
    requires |mvs| == 4 && MoveStep(y0, mvs[0]) == y1 && MoveStep(y1, mvs[1]) == y2
    requires MoveStep(y2, mvs[2]) == y3 && MoveStep(y3, mvs[3]) == y4
    ensures MoveAll(y0, mvs, 4) == y4
  {
    assert MoveAll(y0, mvs, 1) == y1 by {
      assert MoveAll(y0, mvs, 0) == y0;
    }
    assert MoveAll(y0, mvs, 2) == y2;
    assert MoveAll(y0, mvs, 3) == y3;
  }
}
