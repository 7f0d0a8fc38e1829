/**
 * Extended ioctl permissions of one access-vector key, as native/src/sepolicy/sepolicy.cpp
 * keeps them: one node with a bit per driver, and per driver a node with a bit per function.
 */
module Xperms {
  import opened Options

  /** A range of 16-bit ioctl numbers; the high byte is the driver, the low byte the function. */
  datatype Xperm = Xperm(low: nat, high: nat, reset: bool)

  datatype Nodes = Nodes(driver: Option<set<nat>>, funcs: map<nat, set<nat>>)

  const NO_NODES := Nodes(None, map[])

  function Driver(v: nat): nat { v / 256 }

  function Func(v: nat): nat { v % 256 }

  predicate IsXperm(p: Xperm) {
    p.low < 0x1_0000 && p.high < 0x1_0000
  }

  predicate Within(lo: nat, i: nat, hi: nat) {
    lo <= i <= hi
  }

  function Span(lo: nat, hi: nat): set<nat> {
    set i: nat | i <= hi && Within(lo, i, hi)
  }

  function AllBits(): set<nat> {
    Span(0, 255)
  }

  function DriverBits(n: Nodes): set<nat> {
    if n.driver.Some? then n.driver.value else {}
  }

  function FuncBits(n: Nodes, d: nat): set<nat> {
    if d in n.funcs then n.funcs[d] else {}
  }

  /** The nodes after one call. */
  function Applied(n: Nodes, p: Xperm): Nodes {
    var dl, dh := Driver(p.low), Driver(p.high);
    var bits := Span(Func(p.low), Func(p.high));
    if !p.reset then
      if dl != dh then n.(driver := Some(DriverBits(n) + Span(dl, dh)))
      else n.(funcs := n.funcs[dl := FuncBits(n, dl) + bits])
    else
      if dl != dh then Nodes(Some(AllBits() - Span(dl, dh)), map[])
      else Nodes(Some(AllBits() - {dl}), map[dl := AllBits() - bits])
  }

  class Key {
    var driver: Option<set<nat>>
    var funcs: map<nat, set<nat>>

    ghost predicate Valid()
      reads this
    {
      forall d :: d in funcs ==> d <= 255
    }

    function Now(): Nodes
      reads this
    {
      Nodes(driver, funcs)
    }

    constructor ()
      ensures Valid() && Now() == NO_NODES
    {
      driver, funcs := None, map[];
    }

    static method SetBits(perms: set<nat>, lo: nat, hi: nat) returns (out: set<nat>)
      ensures out == perms + Span(lo, hi)
    {
      out := perms;
      var i := lo;
      while i <= hi
        invariant i == lo || lo <= i <= hi + 1
        invariant out == if i == lo then perms else perms + Span(lo, i - 1)
      {
        out := out + {i};
        i := i + 1;
      }
    }

    static method ClearBits(perms: set<nat>, lo: nat, hi: nat) returns (out: set<nat>)
      ensures out == perms - Span(lo, hi)
    {
      out := perms;
      var i := lo;
      while i <= hi
        invariant i == lo || lo <= i <= hi + 1
        invariant out == if i == lo then perms else perms - Span(lo, i - 1)
      {
        out := out - {i};
        i := i + 1;
      }
    }

    /** Drops every function node and empties the driver node. */
    method Forget()
      requires Valid()
      modifies this
      ensures funcs == map[] && driver == if old(driver).Some? then Some({}) else None
    {
      for i := 0 to 256
        invariant driver == old(driver) && forall d :: d in funcs ==> i <= d <= 255
      {
        if i in funcs {
          funcs := funcs - {i};
        }
      }
      if driver.Some? {
        driver := Some({});
      }
    }

    method Add(p: Xperm)
      requires Valid() && IsXperm(p)
      modifies this
      ensures Valid() && Now() == Applied(old(Now()), p)
    {
      if p.reset {
        Forget();
        Exclude(p);
      } else {
        Include(p);
      }
    }

    method Include(p: Xperm)
      requires Valid() && IsXperm(p) && !p.reset
      modifies this
      ensures Valid() && Now() == Applied(old(Now()), p)
    {
      if Driver(p.low) != Driver(p.high) {
        if driver.None? {
          driver := Some({});
        }
        var bits := SetBits(driver.value, Driver(p.low), Driver(p.high));
        driver := Some(bits);
      } else {
        var d := Driver(p.low);
        if d !in funcs {
          funcs := funcs[d := {}];
        }
        var bits := SetBits(funcs[d], Func(p.low), Func(p.high));
        funcs := funcs[d := bits];
      }
    }

    method Exclude(p: Xperm)
      requires IsXperm(p) && p.reset && funcs == map[]
      modifies this
      ensures Valid() && forall n: Nodes :: Now() == Applied(n, p)
    {
      driver := Some(AllBits());
      if Driver(p.low) != Driver(p.high) {
        var bits := ClearBits(driver.value, Driver(p.low), Driver(p.high));
        driver := Some(bits);
      } else {
        var d := Driver(p.low);
        if d !in funcs {
          funcs := funcs[d := AllBits()];
        }
        driver := Some(driver.value - {d});
        var bits := ClearBits(funcs[d], Func(p.low), Func(p.high));
        funcs := funcs[d := bits];
      }
    }
  }

  // ---------------------------------------------------------------------
  // What a key grants
  // ---------------------------------------------------------------------

  predicate Grants(n: Nodes, d: nat, f: nat) {
    d in DriverBits(n) || f in FuncBits(n, d)
  }

  /** The range of a call, widened to whole drivers where it crosses from one to another. */
  predicate Widened(p: Xperm, d: nat, f: nat) {
    if Driver(p.low) != Driver(p.high) then Driver(p.low) <= d <= Driver(p.high)
    else d == Driver(p.low) && Func(p.low) <= f <= Func(p.high)
  }

  predicate InRange(p: Xperm, d: nat, f: nat) {
    p.low <= d * 256 + f <= p.high
  }

  /** A plain call adds exactly its widened range; a reset leaves exactly the complement, whatever came before. */
  lemma {:induction false} AppliedGrants(n: Nodes, p: Xperm, d: nat, f: nat)
    requires IsXperm(p) && d <= 255 && f <= 255
    ensures !p.reset ==> (Grants(Applied(n, p), d, f) <==> Grants(n, d, f) || Widened(p, d, f))
    ensures p.reset ==> (Grants(Applied(n, p), d, f) <==> !Widened(p, d, f))
  {
    var dl, dh := Driver(p.low), Driver(p.high);
    var bits := Span(Func(p.low), Func(p.high));
    assert f in bits <==> Func(p.low) <= f <= Func(p.high);
    assert d in Span(dl, dh) <==> dl <= d <= dh;
    assert f in AllBits() && d in AllBits();
  }

  ghost predicate Exact(p: Xperm) {
    forall d: nat, f: nat :: d <= 255 && f <= 255 ==> (Widened(p, d, f) <==> InRange(p, d, f))
  }

  /** The widening adds nothing exactly within one driver, for whole drivers, and for a range backwards. */
  lemma {:induction false} ExactIff(p: Xperm)
    requires IsXperm(p)
    ensures Exact(p) <==>
      Driver(p.low) >= Driver(p.high) || (Func(p.low) == 0 && Func(p.high) == 255)
  {
    var dl, dh, fl, fh := Driver(p.low), Driver(p.high), Func(p.low), Func(p.high);
    assert p.low == dl * 256 + fl && p.high == dh * 256 + fh;
    if dl < dh {
      if fl != 0 {
        assert Widened(p, dl, 0) && !InRange(p, dl, 0);
      } else if fh != 255 {
        assert Widened(p, dh, 255) && !InRange(p, dh, 255);
      }
    }
  }

  function ApplyAll(n: Nodes, ps: seq<Xperm>, k: nat): Nodes
    requires k <= |ps|
  {
    if k == 0 then n else Applied(ApplyAll(n, ps, k - 1), ps[k - 1])
  }

  method AddAll(key: Key, ps: seq<Xperm>)
    requires key.Valid() && forall k :: 0 <= k < |ps| ==> IsXperm(ps[k])
    modifies key
    ensures key.Valid() && key.Now() == ApplyAll(old(key.Now()), ps, |ps|)
  {
    for i := 0 to |ps|
      invariant key.Valid() && key.Now() == ApplyAll(old(key.Now()), ps, i)
    {
      key.Add(ps[i]);
    }
  }

  ghost predicate Listed(ps: seq<Xperm>, d: nat, f: nat) {
    exists k :: 0 <= k < |ps| && Widened(ps[k], d, f)
  }

  /** A list of plain items grants what was granted and what any item says. */
  lemma {:induction false} PlainListGrants(n: Nodes, ps: seq<Xperm>, k: nat, d: nat, f: nat)
    requires k <= |ps| && d <= 255 && f <= 255
    requires forall j :: 0 <= j < |ps| ==> IsXperm(ps[j]) && !ps[j].reset
    ensures Grants(ApplyAll(n, ps, k), d, f) <==> Grants(n, d, f) || Listed(ps[..k], d, f)
  {
    if k > 0 {
      PlainListGrants(n, ps, k - 1, d, f);
      AppliedGrants(ApplyAll(n, ps, k - 1), ps[k - 1], d, f);
      var a, b := ps[..k - 1], ps[..k];
      assert b == a + [ps[k - 1]];
      assert forall j :: 0 <= j < |a| ==> a[j] == b[j];
      assert b[k - 1] == ps[k - 1];
    }
  }

  /** A reset list comes to its last item, whatever came before. */
  lemma {:induction false} ResetListIsLast(n: Nodes, m: Nodes, ps: seq<Xperm>)
    requires ps != [] && ps[|ps| - 1].reset
    ensures ApplyAll(n, ps, |ps|) == Applied(m, ps[|ps| - 1])
  {
  }

  ghost predicate ExcludesAll(n: Nodes, ps: seq<Xperm>) {
    forall d: nat, f: nat :: d <= 255 && f <= 255 ==> (Grants(ApplyAll(n, ps, |ps|), d, f) <==> !Listed(ps, d, f))
  }

  /** It excludes everything it lists exactly when the last item covers the others. */
  lemma {:induction false} ResetListExcludesAllIff(n: Nodes, ps: seq<Xperm>)
    requires ps != [] && forall k :: 0 <= k < |ps| ==> IsXperm(ps[k]) && ps[k].reset
    ensures ExcludesAll(n, ps) <==>
      forall d: nat, f: nat :: d <= 255 && f <= 255 && Listed(ps, d, f) ==> Widened(ps[|ps| - 1], d, f)
  {
    var last := ps[|ps| - 1];
    forall d: nat, f: nat | d <= 255 && f <= 255
      ensures Grants(ApplyAll(n, ps, |ps|), d, f) <==> !Widened(last, d, f)
      ensures Widened(last, d, f) ==> Listed(ps, d, f)
    {
      AppliedGrants(ApplyAll(n, ps, |ps| - 1), last, d, f);
    }
  }

  /** ~{ 0x1234 0x5678 } still grants 0x1234. */
  lemma {:induction false} ResetListKeepsFirst(n: Nodes)
    ensures var ps := [Xperm(0x1234, 0x1234, true), Xperm(0x5678, 0x5678, true)];
            Listed(ps, 0x12, 0x34) && Grants(ApplyAll(n, ps, 2), 0x12, 0x34)
  {
    var ps := [Xperm(0x1234, 0x1234, true), Xperm(0x5678, 0x5678, true)];
    assert Widened(ps[0], 0x12, 0x34);
    AppliedGrants(ApplyAll(n, ps, 1), ps[1], 0x12, 0x34);
  }

  // ---------------------------------------------------------------------
  // Maximal ranges
  // ---------------------------------------------------------------------

  datatype Range = Range(lo: nat, hi: nat)

  predicate Maximal(perms: set<nat>, r: Range) {
    && r.lo <= r.hi <= 255
    && (forall i :: r.lo <= i <= r.hi ==> i in perms)
    && (r.lo > 0 ==> r.lo - 1 !in perms)
    && (r.hi < 255 ==> r.hi + 1 !in perms)
  }

  /** The ranges cover the bits below `upto`, each of them as far as it goes. */
  ghost predicate RangesOf(perms: set<nat>, rs: seq<Range>, upto: nat) {
    && (forall k :: 0 <= k < |rs| ==> Maximal(perms, rs[k]) && rs[k].hi < upto)
    && (forall k :: 0 < k < |rs| ==> rs[k - 1].hi + 1 < rs[k].lo)
    && (forall i :: 0 <= i < upto && i in perms ==> exists k :: 0 <= k < |rs| && rs[k].lo <= i <= rs[k].hi)
  }

  /** The scan in front of bit `i`; `low` is where the open range began, or -1. */
  ghost predicate Scanned(perms: set<nat>, rs: seq<Range>, low: int, i: nat) {
    && -1 <= low < i
    && RangesOf(perms, rs, if low >= 0 then low else i)
    && (low >= 0 ==> forall k: nat :: low <= k < i ==> k in perms)
    && (low > 0 ==> low - 1 !in perms)
    && (low >= 0 && rs != [] ==> rs[|rs| - 1].hi + 1 < low)
    && (low < 0 && i > 0 ==> i - 1 !in perms)
  }

  lemma {:induction false} ScanOff(perms: set<nat>, rs: seq<Range>, i: nat)
    requires Scanned(perms, rs, -1, i) && i !in perms
    ensures Scanned(perms, rs, -1, i + 1)
  {
    assert RangesOf(perms, rs, i + 1);
  }

  lemma {:induction false} ScanOpen(perms: set<nat>, rs: seq<Range>, i: nat)
    requires Scanned(perms, rs, -1, i) && i in perms
    ensures Scanned(perms, rs, i, i + 1)
  {
    if rs != [] {
      var last := rs[|rs| - 1];
      assert Maximal(perms, last) && last.hi < i;
      assert last.hi in perms;
    }
  }

  lemma {:induction false} ScanOn(perms: set<nat>, rs: seq<Range>, low: nat, i: nat)
    requires Scanned(perms, rs, low, i) && i in perms
    ensures Scanned(perms, rs, low, i + 1)
  {
  }

  lemma {:induction false} ScanClose(perms: set<nat>, rs: seq<Range>, low: nat, i: nat)
    requires Scanned(perms, rs, low, i) && i <= 255 && i !in perms
    ensures Scanned(perms, rs + [Range(low, i - 1)], -1, i + 1)
  {
    RangePushed(perms, rs, low, i - 1, i + 1);
  }

  lemma {:induction false} ScanEnd(perms: set<nat>, rs: seq<Range>, low: nat)
    requires Scanned(perms, rs, low, 256)
    ensures RangesOf(perms, rs + [Range(low, 255)], 256)
  {
    RangePushed(perms, rs, low, 255, 256);
  }

  method Ranges(perms: set<nat>) returns (rs: seq<Range>)
    ensures RangesOf(perms, rs, 256)
  {
    rs := [];
    var low := -1;
    for i := 0 to 256
      invariant i < 256 ==> Scanned(perms, rs, low, i)
      invariant i == 256 ==> RangesOf(perms, rs, 256)
    {
      if i in perms {
        if low < 0 {
          ScanOpen(perms, rs, i);
          low := i;
        } else {
          ScanOn(perms, rs, low, i);
        }
        if i == 255 {
          ScanEnd(perms, rs, low);
          rs := rs + [Range(low, 255)];
        }
      } else if low >= 0 {
        ScanClose(perms, rs, low, i);
        rs := rs + [Range(low, i - 1)];
        low := -1;
      } else {
        ScanOff(perms, rs, i);
      }
    }
  }

  lemma {:induction false} RangePushed(perms: set<nat>, rs: seq<Range>, lo: nat, hi: nat, upto: nat)
    requires RangesOf(perms, rs, lo) && Maximal(perms, Range(lo, hi)) && (rs != [] ==> rs[|rs| - 1].hi + 1 < lo)
    requires hi < upto && forall i :: hi < i < upto ==> i !in perms
    ensures RangesOf(perms, rs + [Range(lo, hi)], upto)
  {
    var all := rs + [Range(lo, hi)];
    forall i | 0 <= i < upto && i in perms ensures exists k :: 0 <= k < |all| && all[k].lo <= i <= all[k].hi {
      if i < lo {
        var k :| 0 <= k < |rs| && rs[k].lo <= i <= rs[k].hi;
        assert all[k] == rs[k];
      } else {
        assert all[|rs|].lo <= i <= all[|rs|].hi;
      }
    }
  }
}
