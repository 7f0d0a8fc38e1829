/** The boot stages of native/src/core/bootstages.rs, over any number of boots. */
module BootStages {
  /** What the post-fs-data stage finds: /data, the secure directory, the environment, and requests for safe mode. */
  datatype World = World(dataReady: bool, secureDir: bool, oldSdk: bool, environment: bool, safeAsked: bool)

  datatype Event =
    | PostFsData(world: World) | LateStart | BootComplete
    | Reboot
    | SetZygisk(on: bool) | SetModules(on: bool)  // by the user

  /** What the handlers have done, oldest first. */
  datatype Mark = Counted(safe: bool) | Aborted | Late | Completed | Restarted

  /** The flags live as long as the daemon; the settings and the modules are persistent. */
  datatype State = State(
    postFsDataDone: bool, lateStartDone: bool, bootComplete: bool, safeMode: bool, zygiskOn: bool,
    bootloop: int, zygisk: bool, modules: bool, log: seq<Mark>)

  predicate Usable(w: World) {
    (w.secureDir || w.oldSdk) && w.environment
  }

  predicate Safe(s: State, w: World) {
    s.bootloop >= 2 || w.safeAsked
  }

  function PostStage(s: State, w: World): State {
    var done := s.(postFsDataDone := true);
    if !Usable(w) then done.(safeMode := true, log := s.log + [Aborted])
    else if Safe(s, w) then
      done.(safeMode := true, bootloop := s.bootloop + 1, zygisk := false, modules := false,
        log := s.log + [Counted(true)])
    else done.(bootloop := s.bootloop + 1, zygiskOn := s.zygisk, log := s.log + [Counted(false)])
  }

  function Step(s: State, e: Event): State {
    match e
    case PostFsData(w) => if w.dataReady && !s.postFsDataDone then PostStage(s, w) else s
    case LateStart =>
      if s.postFsDataDone && !s.safeMode then s.(lateStartDone := true, log := s.log + [Late]) else s
    case BootComplete =>
      if s.postFsDataDone then s.(bootComplete := true, bootloop := 0, log := s.log + [Completed]) else s
    case Reboot =>
      s.(postFsDataDone := false, lateStartDone := false, bootComplete := false, safeMode := false, zygiskOn := false,
         log := s.log + [Restarted])
    case SetZygisk(on) => s.(zygisk := on)
    case SetModules(on) => s.(modules := on)
  }

  function Initial(zygisk: bool, modules: bool): State {
    State(false, false, false, false, false, 0, zygisk, modules, [])
  }

  function Run(s: State, es: seq<Event>, n: nat): State
    requires n <= |es|
  {
    if n == 0 then s else Step(Run(s, es, n - 1), es[n - 1])
  }

  class Daemon {
    var postFsDataDone: bool
    var lateStartDone: bool
    var bootComplete: bool
    var safeMode: bool
    var zygiskOn: bool
    var bootloop: int
    var zygisk: bool
    var modules: bool
    var log: seq<Mark>

    function Now(): State
      reads this
    {
      State(postFsDataDone, lateStartDone, bootComplete, safeMode, zygiskOn, bootloop, zygisk, modules, log)
    }

    constructor (zygisk: bool, modules: bool)
      ensures Now() == Initial(zygisk, modules)
    {
      postFsDataDone, lateStartDone, bootComplete, safeMode, zygiskOn := false, false, false, false, false;
      bootloop, log := 0, [];
      this.zygisk, this.modules := zygisk, modules;
    }

    /** Whether the rest of the boot is cut short. */
    method PostFsDataStage(w: World) returns (short: bool)
      modifies this`bootloop, this`zygisk, this`modules, this`zygiskOn, this`log
      ensures short <==> !Usable(w) || Safe(old(Now()), w)
      ensures Now().(postFsDataDone := true, safeMode := safeMode || short) == PostStage(old(Now()), w)
    {
      if !w.secureDir {
        if !w.oldSdk {
          log := log + [Aborted];
          return true;
        }
      }
      if !w.environment {
        log := log + [Aborted];
        return true;
      }
      var count := bootloop;
      bootloop := count + 1;
      if count >= 2 || w.safeAsked {
        modules := false;
        zygisk := false;
        log := log + [Counted(true)];
        return true;
      }
      zygiskOn := zygisk;
      log := log + [Counted(false)];
      return false;
    }

    method Handle(e: Event)
      modifies this
      ensures Now() == Step(old(Now()), e)
    {
      match e
      case PostFsData(w) =>
        if w.dataReady && !postFsDataDone {
          var short := PostFsDataStage(w);
          if short {
            safeMode := true;
          }
          postFsDataDone := true;
        }
      case LateStart =>
        if postFsDataDone && !safeMode {
          log := log + [Late];
          lateStartDone := true;
        }
      case BootComplete =>
        if postFsDataDone {
          bootComplete := true;
          bootloop := 0;
          log := log + [Completed];
        }
      case Reboot =>
        postFsDataDone, lateStartDone, bootComplete, safeMode, zygiskOn := false, false, false, false, false;
        log := log + [Restarted];
      case SetZygisk(on) => zygisk := on;
      case SetModules(on) => modules := on;
    }
  }

  // ---------------------------------------------------------------------
  // Every run
  // ---------------------------------------------------------------------

  predicate IsPass(m: Mark) {
    m.Counted? || m.Aborted?
  }

  /** The marks from `i` to `j` belong to one life of the daemon. */
  ghost predicate SameLife(log: seq<Mark>, i: nat, j: nat) {
    forall k :: i <= k < j && k < |log| ==> log[k] != Restarted
  }

  /** The counted passes since the last boot-complete. */
  function CountedSince(log: seq<Mark>, n: nat): nat
    requires n <= |log|
  {
    if n == 0 || log[n - 1] == Completed then 0
    else CountedSince(log, n - 1) + if log[n - 1].Counted? then 1 else 0
  }

  /** No two passes in one life. */
  ghost predicate OncePerLife(log: seq<Mark>) {
    forall i, j :: 0 <= i < j < |log| && IsPass(log[i]) && IsPass(log[j]) ==> !SameLife(log, i, j)
  }

  /** Late-start follows a pass of the same life that was not cut short. */
  ghost predicate LateAfterPass(log: seq<Mark>) {
    forall j :: 0 <= j < |log| && log[j] == Late ==>
      exists i :: 0 <= i < j && log[i] == Counted(false) && SameLife(log, i, j)
  }

  /** The third counted pass in a row, and every further one, is in safe mode. */
  ghost predicate ThirdIsSafe(log: seq<Mark>) {
    forall j :: 0 <= j < |log| && log[j].Counted? && CountedSince(log, j) >= 2 ==> log[j].safe
  }

  /** The flags say what this life has seen. */
  ghost predicate FlagsTell(s: State) {
    && (s.postFsDataDone <==> exists i :: 0 <= i < |s.log| && IsPass(s.log[i]) && SameLife(s.log, i, |s.log|))
    && (s.postFsDataDone && !s.safeMode ==>
          exists i :: 0 <= i < |s.log| && s.log[i] == Counted(false) && SameLife(s.log, i, |s.log|))
  }

  ghost predicate Inv(s: State) {
    && FlagsTell(s) && OncePerLife(s.log) && LateAfterPass(s.log) && ThirdIsSafe(s.log)
    && s.bootloop == CountedSince(s.log, |s.log|)
  }

  lemma {:induction false} CountedSame(a: seq<Mark>, b: seq<Mark>, n: nat)
    requires n <= |a| && a <= b
    ensures CountedSince(a, n) == CountedSince(b, n)
  {
    if n > 0 {
      CountedSame(a, b, n - 1);
    }
  }

  lemma {:induction false} LifeExtends(a: seq<Mark>, m: Mark, i: nat)
    requires i < |a|
    ensures SameLife(a + [m], i, |a| + 1) <==> SameLife(a, i, |a|) && m != Restarted
    ensures forall j: nat :: j <= |a| ==> (SameLife(a + [m], i, j) <==> SameLife(a, i, j))
  {
    var b := a + [m];
    assert b[|a|] == m && forall k :: 0 <= k < |a| ==> b[k] == a[k];
  }

  /** A mark that is allowed after the log keeps what holds of it. */
  lemma {:induction false} LogExtends(a: seq<Mark>, m: Mark)
    requires OncePerLife(a) && LateAfterPass(a) && ThirdIsSafe(a)
    requires IsPass(m) ==> forall i :: 0 <= i < |a| && IsPass(a[i]) ==> !SameLife(a, i, |a|)
    requires m == Late ==> exists i :: 0 <= i < |a| && a[i] == Counted(false) && SameLife(a, i, |a|)
    requires m.Counted? && CountedSince(a, |a|) >= 2 ==> m.safe
    ensures OncePerLife(a + [m]) && LateAfterPass(a + [m]) && ThirdIsSafe(a + [m])
  {
    var b := a + [m];
    forall i, j | 0 <= i < j < |b| && IsPass(b[i]) && IsPass(b[j]) ensures !SameLife(b, i, j) {
      LifeExtends(a, m, i);
    }
    forall j | 0 <= j < |b| && b[j] == Late
      ensures exists i :: 0 <= i < j && b[i] == Counted(false) && SameLife(b, i, j)
    {
      var i :| 0 <= i < j && a[i] == Counted(false) && SameLife(a, i, j);
      LifeExtends(a, m, i);
      assert b[i] == Counted(false);
    }
    forall j | 0 <= j < |b| && b[j].Counted? && CountedSince(b, j) >= 2 ensures b[j].safe {
      CountedSame(a, b, j);
    }
  }

  lemma {:induction false} FlagsExtend(s: State, t: State, m: Mark)
    requires FlagsTell(s) && t.log == s.log + [m]
    requires m == Restarted ==> !t.postFsDataDone
    requires m != Restarted ==> (t.postFsDataDone <==> s.postFsDataDone || IsPass(m))
    requires t.postFsDataDone && !t.safeMode ==> m == Counted(false) || (s.postFsDataDone && !s.safeMode)
    ensures FlagsTell(t)
  {
    var a, b := s.log, t.log;
    assert b[|a|] == m;
    forall i | 0 <= i < |a| ensures b[i] == a[i] && (SameLife(b, i, |b|) <==> SameLife(a, i, |a|) && m != Restarted) {
      LifeExtends(a, m, i);
    }
    if m == Restarted {
      assert !SameLife(b, |a|, |b|);
    } else if IsPass(m) {
      assert SameLife(b, |a|, |b|);
    }
    if s.postFsDataDone && !s.safeMode && t.postFsDataDone && m != Counted(false) {
      var i :| 0 <= i < |a| && a[i] == Counted(false) && SameLife(a, i, |a|);
      assert b[i] == Counted(false) && SameLife(b, i, |b|);
    }
  }

  lemma {:induction false} CountedExtends(a: seq<Mark>, m: Mark)
    ensures CountedSince(a + [m], |a| + 1) ==
      if m == Completed then 0 else CountedSince(a, |a|) + if m.Counted? then 1 else 0
  {
    CountedSame(a, a + [m], |a|);
  }

  lemma {:induction false} InvExtends(s: State, t: State, m: Mark)
    requires Inv(s) && t.log == s.log + [m]
    requires IsPass(m) ==> !s.postFsDataDone
    requires m == Late ==> s.postFsDataDone && !s.safeMode
    requires m.Counted? && s.bootloop >= 2 ==> m.safe
    requires m == Restarted ==> !t.postFsDataDone
    requires m != Restarted ==> (t.postFsDataDone <==> s.postFsDataDone || IsPass(m))
    requires t.postFsDataDone && !t.safeMode ==> m == Counted(false) || (s.postFsDataDone && !s.safeMode)
    requires t.bootloop == if m == Completed then 0 else s.bootloop + if m.Counted? then 1 else 0
    ensures Inv(t)
  {
    LogExtends(s.log, m);
    FlagsExtend(s, t, m);
    CountedExtends(s.log, m);
  }

  lemma {:induction false} PostInv(s: State, w: World)
    requires Inv(s) && !s.postFsDataDone
    ensures Inv(PostStage(s, w))
  {
    var m := if !Usable(w) then Aborted else Counted(Safe(s, w));
    InvExtends(s, PostStage(s, w), m);
  }

  lemma {:induction false} StepInv(s: State, e: Event)
    requires Inv(s)
    ensures Inv(Step(s, e))
  {
    match e
    case PostFsData(w) =>
      if w.dataReady && !s.postFsDataDone {
        PostInv(s, w);
      }
    case LateStart =>
      if s.postFsDataDone && !s.safeMode {
        InvExtends(s, Step(s, e), Late);
      }
    case BootComplete =>
      if s.postFsDataDone {
        InvExtends(s, Step(s, e), Completed);
      }
    case Reboot => InvExtends(s, Step(s, e), Restarted);
    case SetZygisk(on) =>
    case SetModules(on) =>
  }

  /**
   * Over all boots and request orders, from a count of zero: at most one pass of
   * post-fs-data in a life, late-start only after one that was not cut short, the
   * count is that of the passes since the last boot-complete, and the third is safe.
   */
  lemma {:induction false} EveryRunKeepsInv(zygisk: bool, modules: bool, es: seq<Event>, n: nat)
    requires n <= |es|
    ensures Inv(Run(Initial(zygisk, modules), es, n))
  {
    if n > 0 {
      EveryRunKeepsInv(zygisk, modules, es, n - 1);
      StepInv(Run(Initial(zygisk, modules), es, n - 1), es[n - 1]);
    }
  }

  /** A pass is cut short without being counted exactly when the environment or the secure directory is missing. */
  lemma {:induction false} AbortsIff(s: State, w: World)
    requires w.dataReady && !s.postFsDataDone
    ensures var t := Step(s, PostFsData(w));
            && t.postFsDataDone
            && (t.bootloop == s.bootloop <==> !w.environment || (!w.secureDir && !w.oldSdk))
            && (t.bootloop == s.bootloop ==>
                t.safeMode && t.zygisk == s.zygisk && t.modules == s.modules && t.zygiskOn == s.zygiskOn)
            && (t.bootloop != s.bootloop ==> t.bootloop == s.bootloop + 1)
            && (t.bootloop != s.bootloop ==> (t.safeMode <==> s.safeMode || s.bootloop >= 2 || w.safeAsked))
  {
    assert Usable(w) <==> w.environment && (w.secureDir || w.oldSdk);
  }

  /** A usable pass after two counted ones without boot-complete ends with modules and Zygisk disabled. */
  lemma {:induction false} ThirdPassDisables(s: State, w: World)
    requires Inv(s) && w.dataReady && !s.postFsDataDone && Usable(w) && CountedSince(s.log, |s.log|) >= 2
    ensures var t := Step(s, PostFsData(w)); t.postFsDataDone && t.safeMode && !t.zygisk && !t.modules
  {
  }

  /** Whatever follows in that life, late-start does not run. */
  lemma {:induction false} SafeLifeHasNoLate(t: State, es: seq<Event>, n: nat)
    requires t.postFsDataDone && t.safeMode && n <= |es| && forall k :: 0 <= k < n ==> es[k] != Reboot
    ensures var u := Run(t, es, n);
            && u.postFsDataDone && u.safeMode && t.log <= u.log
            && forall k :: |t.log| <= k < |u.log| ==> u.log[k] == Completed
  {
    if n > 0 {
      SafeLifeHasNoLate(t, es, n - 1);
    }
  }

  // ---------------------------------------------------------------------
  // Late-start, in terms of the requests
  // ---------------------------------------------------------------------

  ghost predicate LateOncePerLife(log: seq<Mark>) {
    forall i, j :: 0 <= i < j < |log| && log[i] == Late && log[j] == Late ==> !SameLife(log, i, j)
  }

  /** No reboot among the requests from `i` to `j`. */
  ghost predicate OneLife(es: seq<Event>, i: nat, j: nat) {
    forall k :: i <= k < j && k < |es| ==> es[k] != Reboot
  }

  predicate Ready(e: Event) {
    e.PostFsData? && e.world.dataReady
  }

  /** The first post-fs-data request of its life that finds /data. */
  ghost predicate FirstPass(es: seq<Event>, a: nat)
    requires a < |es|
  {
    Ready(es[a]) && forall k :: 0 <= k < a && Ready(es[k]) ==> !OneLife(es, k, a)
  }

  ghost predicate Passed(es: seq<Event>, n: nat)
    requires n <= |es|
  {
    exists a :: 0 <= a < n && FirstPass(es, a) && OneLife(es, a, n)
  }

  /** The usable first passes since the last boot-complete that came after a pass. */
  ghost function Passes(es: seq<Event>, n: nat): nat
    requires n <= |es|
  {
    if n == 0 then 0
    else if es[n - 1].PostFsData? && FirstPass(es, n - 1) && Usable(es[n - 1].world) then Passes(es, n - 1) + 1
    else if es[n - 1] == BootComplete && Passed(es, n - 1) then 0
    else Passes(es, n - 1)
  }

  /** A first pass that is not cut short: usable, no safe mode asked for, and at most the second in a row. */
  ghost predicate Plain(es: seq<Event>, a: nat)
    requires a < |es|
  {
    FirstPass(es, a) && Usable(es[a].world) && !es[a].world.safeAsked && Passes(es, a) < 2
  }

  ghost predicate PlainBefore(es: seq<Event>, n: nat)
    requires n <= |es|
  {
    exists a :: 0 <= a < n && Plain(es, a) && OneLife(es, a, n)
  }

  ghost predicate Runs(es: seq<Event>, i: nat)
    requires i < |es|
  {
    es[i] == LateStart && PlainBefore(es, i)
  }

  ghost predicate LateBefore(es: seq<Event>, n: nat)
    requires n <= |es|
  {
    exists i :: 0 <= i < n && Runs(es, i) && OneLife(es, i, n)
  }

  ghost predicate TwoLate(es: seq<Event>, n: nat)
    requires n <= |es|
  {
    exists i, j :: 0 <= i < j < n && Runs(es, i) && Runs(es, j) && OneLife(es, i, j)
  }

  lemma {:induction false} ReadyPassed(es: seq<Event>, k: nat, n: nat)
    requires k < n <= |es| && Ready(es[k]) && OneLife(es, k, n)
    ensures Passed(es, n)
    decreases k
  {
    if !FirstPass(es, k) {
      var j :| 0 <= j < k && Ready(es[j]) && OneLife(es, j, k);
      assert OneLife(es, j, n);
      ReadyPassed(es, j, n);
    }
  }

  lemma {:induction false} FirstPassIff(es: seq<Event>, n: nat)
    requires n < |es|
    ensures FirstPass(es, n) <==> Ready(es[n]) && !Passed(es, n)
  {
    if Ready(es[n]) && !Passed(es, n) {
      forall k | 0 <= k < n && Ready(es[k]) ensures !OneLife(es, k, n) {
        if OneLife(es, k, n) {
          ReadyPassed(es, k, n);
        }
      }
    }
  }

  lemma {:induction false} LifeNext(es: seq<Event>, i: nat, n: nat)
    requires i <= n < |es|
    ensures OneLife(es, i, n + 1) <==> OneLife(es, i, n) && es[n] != Reboot
  {
  }

  lemma {:induction false} PassedNext(es: seq<Event>, n: nat)
    requires n < |es|
    ensures Passed(es, n + 1) <==> es[n] != Reboot && (Passed(es, n) || Ready(es[n]))
  {
    FirstPassIff(es, n);
    LifeNext(es, n, n);
    if Passed(es, n) {
      var a :| 0 <= a < n && FirstPass(es, a) && OneLife(es, a, n);
      LifeNext(es, a, n);
    }
    if Passed(es, n + 1) {
      var a :| 0 <= a < n + 1 && FirstPass(es, a) && OneLife(es, a, n + 1);
      LifeNext(es, a, n);
    }
  }

  lemma {:induction false} PlainNext(es: seq<Event>, n: nat)
    requires n < |es|
    ensures PlainBefore(es, n + 1) <==> es[n] != Reboot && (PlainBefore(es, n) || Plain(es, n))
  {
    LifeNext(es, n, n);
    if PlainBefore(es, n) {
      var a :| 0 <= a < n && Plain(es, a) && OneLife(es, a, n);
      LifeNext(es, a, n);
    }
    if PlainBefore(es, n + 1) {
      var a :| 0 <= a < n + 1 && Plain(es, a) && OneLife(es, a, n + 1);
      LifeNext(es, a, n);
    }
  }

  lemma {:induction false} LateNext(es: seq<Event>, n: nat)
    requires n < |es|
    ensures LateBefore(es, n + 1) <==> es[n] != Reboot && (LateBefore(es, n) || Runs(es, n))
    ensures TwoLate(es, n + 1) <==> TwoLate(es, n) || (Runs(es, n) && LateBefore(es, n))
  {
    LifeNext(es, n, n);
    if LateBefore(es, n) {
      var i :| 0 <= i < n && Runs(es, i) && OneLife(es, i, n);
      LifeNext(es, i, n);
    }
    if LateBefore(es, n + 1) {
      var i :| 0 <= i < n + 1 && Runs(es, i) && OneLife(es, i, n + 1);
      LifeNext(es, i, n);
    }
  }

  ghost predicate LateSeen(log: seq<Mark>) {
    exists i :: 0 <= i < |log| && log[i] == Late && SameLife(log, i, |log|)
  }

  lemma {:induction false} LifeKept(a: seq<Mark>, m: Mark, i: nat, b: seq<Mark>)
    requires b == a + [m] && i < |a|
    ensures b[i] == a[i] && (SameLife(b, i, |b|) <==> SameLife(a, i, |a|) && m != Restarted)
    ensures forall j: nat :: j <= |a| ==> (SameLife(b, i, j) <==> SameLife(a, i, j))
  {
    LifeExtends(a, m, i);
  }

  lemma {:induction false} LateSeenNext(a: seq<Mark>, m: Mark, b: seq<Mark>)
    requires b == a + [m]
    ensures LateSeen(b) <==> m != Restarted && (LateSeen(a) || m == Late)
  {
    assert b[|a|] == m;
    forall i | 0 <= i < |a| ensures b[i] == a[i] && (SameLife(b, i, |b|) <==> SameLife(a, i, |a|) && m != Restarted) {
      LifeKept(a, m, i, b);
    }
    if m != Restarted && LateSeen(a) {
      var i :| 0 <= i < |a| && a[i] == Late && SameLife(a, i, |a|);
      assert b[i] == Late && SameLife(b, i, |b|);
    }
    if m == Late {
      assert SameLife(b, |a|, |b|);
    }
  }

  lemma {:induction false} LateOnceNext(a: seq<Mark>, m: Mark, b: seq<Mark>)
    requires b == a + [m]
    ensures LateOncePerLife(b) <==> LateOncePerLife(a) && !(m == Late && LateSeen(a))
  {
    assert b[|a|] == m;
    forall i | 0 <= i < |a|
      ensures b[i] == a[i] && forall j: nat :: j <= |a| ==> (SameLife(b, i, j) <==> SameLife(a, i, j))
    {
      LifeKept(a, m, i, b);
    }
    if LateOncePerLife(b) {
      forall i, j | 0 <= i < j < |a| && a[i] == Late && a[j] == Late ensures !SameLife(a, i, j) {
        assert b[i] == Late && b[j] == Late;
      }
    }
  }

  lemma {:induction false} LateLogNext(a: seq<Mark>, m: Mark)
    ensures LateSeen(a + [m]) <==> m != Restarted && (LateSeen(a) || m == Late)
    ensures LateOncePerLife(a + [m]) <==> LateOncePerLife(a) && !(m == Late && LateSeen(a))
  {
    LateSeenNext(a, m, a + [m]);
    LateOnceNext(a, m, a + [m]);
  }

  /** What the requests so far come to. */
  datatype Requests = Requests(passed: bool, plain: bool, passes: nat, late: bool, twoLate: bool)

  ghost function RequestsAt(es: seq<Event>, n: nat): Requests
    requires n <= |es|
  {
    Requests(Passed(es, n), PlainBefore(es, n), Passes(es, n), LateBefore(es, n), TwoLate(es, n))
  }

  function NextRequests(r: Requests, e: Event): Requests {
    var first := Ready(e) && !r.passed;
    var counted := first && Usable(e.world);
    var plain := counted && !e.world.safeAsked && r.passes < 2;
    var runs := e == LateStart && r.plain;
    Requests(e != Reboot && (r.passed || Ready(e)), e != Reboot && (r.plain || plain),
             if counted then r.passes + 1 else if e == BootComplete && r.passed then 0 else r.passes,
             e != Reboot && (r.late || runs), r.twoLate || (runs && r.late))
  }

  lemma {:induction false} RequestsNext(es: seq<Event>, n: nat)
    requires n < |es|
    ensures RequestsAt(es, n + 1) == NextRequests(RequestsAt(es, n), es[n])
  {
    FirstPassIff(es, n);
    PassedNext(es, n);
    PlainNext(es, n);
    LateNext(es, n);
  }

  /** The flags and the count say of the requests what they come to. */
  predicate FlagsAgree(s: State, r: Requests) {
    && s.postFsDataDone == r.passed && (!s.postFsDataDone ==> !s.safeMode)
    && (s.postFsDataDone && !s.safeMode) == r.plain
    && s.bootloop == r.passes
  }

  /** So does the log. */
  ghost predicate LogAgrees(log: seq<Mark>, r: Requests) {
    LateSeen(log) == r.late && LateOncePerLife(log) == !r.twoLate
  }

  lemma {:induction false} FlagsAgreeNext(s: State, r: Requests, e: Event)
    requires FlagsAgree(s, r)
    ensures FlagsAgree(Step(s, e), NextRequests(r, e))
  {
  }

  lemma {:induction false} LogAgreesNext(log: seq<Mark>, r: Requests, m: Mark, next: Requests)
    requires LogAgrees(log, r)
    requires next.late == (m != Restarted && (r.late || m == Late)) &&
      next.twoLate == (r.twoLate || (m == Late && r.late))
    ensures LogAgrees(log + [m], next)
  {
    LateLogNext(log, m);
  }

  /** The mark a request leaves, if any. */
  function MarkOf(s: State, e: Event): seq<Mark> {
    match e
    case PostFsData(w) =>
      if !Ready(e) || s.postFsDataDone then []
      else [if Usable(w) then Counted(Safe(s, w)) else Aborted]
    case LateStart => if s.postFsDataDone && !s.safeMode then [Late] else []
    case BootComplete => if s.postFsDataDone then [Completed] else []
    case Reboot => [Restarted]
    case SetZygisk(_) => []
    case SetModules(_) => []
  }

  lemma {:induction false} StepMarks(s: State, e: Event)
    ensures Step(s, e).log == s.log + MarkOf(s, e)
  {
    assert s.log + [] == s.log;
  }

  lemma {:induction false} MarksAgree(s: State, before: seq<Mark>, r: Requests, e: Event)
    requires FlagsAgree(s, r) && LogAgrees(before, r)
    ensures LogAgrees(before + MarkOf(s, e), NextRequests(r, e))
  {
    if MarkOf(s, e) == [] {
      assert before + MarkOf(s, e) == before;
    } else {
      LogAgreesNext(before, r, MarkOf(s, e)[0], NextRequests(r, e));
      assert MarkOf(s, e) == [MarkOf(s, e)[0]];
    }
  }

  const NO_REQUESTS := Requests(false, false, 0, false, false)

  function Summary(es: seq<Event>, n: nat): Requests
    requires n <= |es|
  {
    if n == 0 then NO_REQUESTS else NextRequests(Summary(es, n - 1), es[n - 1])
  }

  lemma {:induction false} SummaryIs(es: seq<Event>, n: nat)
    requires n <= |es|
    ensures Summary(es, n) == RequestsAt(es, n)
  {
    if n > 0 {
      SummaryIs(es, n - 1);
      RequestsNext(es, n - 1);
    }
  }

  lemma {:induction false} RunFlagsAgree(s: State, es: seq<Event>, n: nat)
    requires n <= |es| && FlagsAgree(s, NO_REQUESTS)
    ensures FlagsAgree(Run(s, es, n), Summary(es, n))
  {
    if n > 0 {
      RunFlagsAgree(s, es, n - 1);
      FlagsAgreeNext(Run(s, es, n - 1), Summary(es, n - 1), es[n - 1]);
    }
  }

  /** The marks of the run so far. */
  function Marks(s: State, es: seq<Event>, n: nat): seq<Mark>
    requires n <= |es|
  {
    if n == 0 then s.log else Marks(s, es, n - 1) + MarkOf(Run(s, es, n - 1), es[n - 1])
  }

  lemma {:induction false} MarksAreLog(s: State, es: seq<Event>, n: nat)
    requires n <= |es|
    ensures Marks(s, es, n) == Run(s, es, n).log
  {
    if n > 0 {
      MarksAreLog(s, es, n - 1);
      StepMarks(Run(s, es, n - 1), es[n - 1]);
    }
  }

  lemma {:induction false} RunLogAgrees(s: State, es: seq<Event>, n: nat)
    requires n <= |es| && FlagsAgree(s, NO_REQUESTS) && LogAgrees(s.log, NO_REQUESTS)
    ensures LogAgrees(Marks(s, es, n), Summary(es, n))
  {
    if n > 0 {
      RunLogAgrees(s, es, n - 1);
      RunFlagsAgree(s, es, n - 1);
      MarksAgree(Run(s, es, n - 1), Marks(s, es, n - 1), Summary(es, n - 1), es[n - 1]);
    }
  }

  /**
   * Late-start runs at most once in every life exactly when no life holds two requests
   * for it behind a post-fs-data pass that is not cut short.
   */
  lemma {:induction false} LateOnceIff(zygisk: bool, modules: bool, es: seq<Event>, n: nat)
    requires n <= |es|
    ensures LateOncePerLife(Run(Initial(zygisk, modules), es, n).log) <==>
            !exists a, i, j :: 0 <= a < i < j < n && Plain(es, a) && es[i] == LateStart && es[j] == LateStart &&
                               OneLife(es, a, j)
  {
    assert LogAgrees(Initial(zygisk, modules).log, NO_REQUESTS);
    RunLogAgrees(Initial(zygisk, modules), es, n);
    MarksAreLog(Initial(zygisk, modules), es, n);
    SummaryIs(es, n);
    assert RequestsAt(es, n).twoLate == TwoLate(es, n);
    if TwoLate(es, n) {
      var i, j :| 0 <= i < j < n && Runs(es, i) && Runs(es, j) && OneLife(es, i, j);
      var a :| 0 <= a < i && Plain(es, a) && OneLife(es, a, i);
      assert OneLife(es, a, j);
    }
    if a, i, j :| 0 <= a < i < j < n && Plain(es, a) && es[i] == LateStart && es[j] == LateStart && OneLife(es, a, j) {
      assert OneLife(es, a, i) && OneLife(es, i, j);
      assert Runs(es, i) && Runs(es, j);
    }
  }

  lemma {:induction false} LateStartRunsTwice(w: World)
    requires w.dataReady && Usable(w) && !w.safeAsked
    ensures !LateOncePerLife(Run(Initial(false, false), [PostFsData(w), LateStart, LateStart], 3).log)
  {
    var s, es := Initial(false, false), [PostFsData(w), LateStart, LateStart];
    assert Run(s, es, 0) == s;
    assert Run(s, es, 1).log == [Counted(false)];
    assert Run(s, es, 2).log == [Counted(false), Late];
    assert Run(s, es, 3).log == [Counted(false), Late, Late];
    assert SameLife([Counted(false), Late, Late], 1, 2);
  }

  // ---------------------------------------------------------------------
  // The settings, in terms of the requests
  // ---------------------------------------------------------------------

  datatype Setting = ZYGISK | MODULES

  predicate Value(s: State, x: Setting) {
    if x.ZYGISK? then s.zygisk else s.modules
  }

  function Set(x: Setting, on: bool): Event {
    if x.ZYGISK? then SetZygisk(on) else SetModules(on)
  }

  /** The user turns the setting off, or a usable pass is cut short by safe mode. */
  ghost predicate Off(es: seq<Event>, k: nat, x: Setting)
    requires k < |es|
  {
    es[k] == Set(x, false) || (FirstPass(es, k) && Usable(es[k].world) && !Plain(es, k))
  }

  ghost predicate NoneOff(es: seq<Event>, from: nat, n: nat, x: Setting)
    requires n <= |es|
  {
    forall k :: from <= k < n ==> !Off(es, k, x)
  }

  ghost predicate OnLast(es: seq<Event>, j: nat, n: nat, x: Setting)
    requires j < n <= |es|
  {
    es[j] == Set(x, true) && NoneOff(es, j + 1, n, x)
  }

  /** Turned on by the user, or on from the start, and not off since. */
  ghost predicate OnSince(start: bool, es: seq<Event>, n: nat, x: Setting)
    requires n <= |es|
  {
    (exists j :: 0 <= j < n && OnLast(es, j, n, x)) || (start && NoneOff(es, 0, n, x))
  }

  lemma {:induction false} OnNext(start: bool, es: seq<Event>, n: nat, x: Setting)
    requires n < |es|
    ensures OnSince(start, es, n + 1, x) <==> es[n] == Set(x, true) || (OnSince(start, es, n, x) && !Off(es, n, x))
  {
    var m := n + 1;
    if j :| 0 <= j < m && OnLast(es, j, m, x) {
      assert j == n || OnLast(es, j, n, x);
    }
    if es[n] == Set(x, true) {
      assert OnLast(es, n, m, x);
    }
    if OnSince(start, es, n, x) && !Off(es, n, x) {
      if j :| 0 <= j < n && OnLast(es, j, n, x) {
        assert OnLast(es, j, m, x);
      }
    }
  }

  lemma {:induction false} StepSetting(s: State, e: Event, first: bool, plain: bool, x: Setting)
    requires first == (Ready(e) && !s.postFsDataDone)
    requires plain == (first && Usable(e.world) && !e.world.safeAsked && s.bootloop < 2)
    ensures Value(Step(s, e), x) <==>
            e == Set(x, true) || (Value(s, x) && !(e == Set(x, false) || (first && Usable(e.world) && !plain)))
    ensures Step(s, e).zygiskOn <==> if plain then s.zygisk else s.zygiskOn && e != Reboot
  {
  }

  lemma {:induction false} PlainIff(s: State, es: seq<Event>, n: nat)
    requires n < |es| && FlagsAgree(s, RequestsAt(es, n))
    ensures FirstPass(es, n) <==> Ready(es[n]) && !s.postFsDataDone
    ensures Plain(es, n) <==> FirstPass(es, n) && Usable(es[n].world) && !es[n].world.safeAsked && s.bootloop < 2
  {
    FirstPassIff(es, n);
  }

  lemma {:induction false} StepSettings(s: State, es: seq<Event>, n: nat, x: Setting)
    requires n < |es| && FlagsAgree(s, RequestsAt(es, n))
    ensures Value(Step(s, es[n]), x) <==> es[n] == Set(x, true) || (Value(s, x) && !Off(es, n, x))
    ensures Step(s, es[n]).zygiskOn <==> if Plain(es, n) then s.zygisk else s.zygiskOn && es[n] != Reboot
  {
    PlainIff(s, es, n);
    StepSetting(s, es[n], FirstPass(es, n), Plain(es, n), x);
  }

  lemma {:induction false} AgreeAt(zygisk: bool, modules: bool, es: seq<Event>, n: nat)
    requires n <= |es|
    ensures FlagsAgree(Run(Initial(zygisk, modules), es, n), RequestsAt(es, n))
  {
    RunFlagsAgree(Initial(zygisk, modules), es, n);
    SummaryIs(es, n);
  }

  /** At every moment of every run: a setting is on exactly when it was or was turned on, and not off since. */
  lemma {:induction false} RunSettingIff(zygisk: bool, modules: bool, es: seq<Event>, n: nat, x: Setting)
    requires n <= |es|
    ensures Value(Run(Initial(zygisk, modules), es, n), x) <==>
            OnSince(if x.ZYGISK? then zygisk else modules, es, n, x)
  {
    if n > 0 {
      RunSettingIff(zygisk, modules, es, n - 1, x);
      AgreeAt(zygisk, modules, es, n - 1);
      StepSettings(Run(Initial(zygisk, modules), es, n - 1), es, n - 1, x);
      OnNext(if x.ZYGISK? then zygisk else modules, es, n - 1, x);
    }
  }

  /** The pass of this life that was not cut short found the setting on. */
  ghost predicate Enabled(zygisk: bool, es: seq<Event>, a: nat, n: nat)
    requires a < n <= |es|
  {
    Plain(es, a) && OneLife(es, a, n) && OnSince(zygisk, es, a, ZYGISK)
  }

  ghost predicate ZygiskRuns(zygisk: bool, es: seq<Event>, n: nat)
    requires n <= |es|
  {
    exists a :: 0 <= a < n && Enabled(zygisk, es, a, n)
  }

  lemma {:induction false} OnePlain(es: seq<Event>, a: nat, n: nat)
    requires a < n < |es| && Plain(es, a) && OneLife(es, a, n)
    ensures !Plain(es, n)
  {
    assert Ready(es[a]);
  }

  /** Zygisk runs exactly in the lives whose pass was not cut short and found the setting on, from that pass on. */
  lemma {:induction false} RunZygiskIff(zygisk: bool, modules: bool, es: seq<Event>, n: nat)
    requires n <= |es|
    ensures Run(Initial(zygisk, modules), es, n).zygiskOn <==> ZygiskRuns(zygisk, es, n)
  {
    if n > 0 {
      var s, k := Run(Initial(zygisk, modules), es, n - 1), n - 1;
      RunZygiskIff(zygisk, modules, es, k);
      AgreeAt(zygisk, modules, es, k);
      StepSettings(s, es, k, ZYGISK);
      RunSettingIff(zygisk, modules, es, k, ZYGISK);
      EnabledNext(zygisk, es, k);
    }
  }

  lemma {:induction false} EnabledNext(zygisk: bool, es: seq<Event>, n: nat)
    requires n < |es|
    ensures ZygiskRuns(zygisk, es, n + 1) <==>
            if Plain(es, n) then OnSince(zygisk, es, n, ZYGISK) else ZygiskRuns(zygisk, es, n) && es[n] != Reboot
  {
    var m := n + 1;
    if ZygiskRuns(zygisk, es, m) {
      var a :| 0 <= a < m && Enabled(zygisk, es, a, m);
      if a < n {
        LifeNext(es, a, n);
        OnePlain(es, a, n);
        assert Enabled(zygisk, es, a, n);
      }
    }
    if Plain(es, n) {
      LifeNext(es, n, n);
      assert OnSince(zygisk, es, n, ZYGISK) ==> Enabled(zygisk, es, n, m);
    } else if ZygiskRuns(zygisk, es, n) && es[n] != Reboot {
      var a :| 0 <= a < n && Enabled(zygisk, es, a, n);
      LifeNext(es, a, n);
      assert Enabled(zygisk, es, a, m);
    }
  }
}
