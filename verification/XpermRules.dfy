/**
 * Extended permission rules over the whole policy (native/src/sepolicy/sepolicy.cpp): a
 * wildcard stands for every attribute or every class, also when the rule takes away.
 */
module XpermRules {
  import opened Options
  import opened Xperms
  import Av = AvRules

  datatype Effect = XPERMS_ALLOWED | XPERMS_AUDITALLOW | XPERMS_DONTAUDIT

  datatype RuleKey = RuleKey(src: nat, tgt: nat, cls: nat, effect: Effect)

  type Table = map<RuleKey, Nodes>

  function NodesAt(t: Table, k: RuleKey): Nodes {
    if k in t then t[k] else NO_NODES
  }

  predicate IsAttribute(pol: Av.Policy, v: nat) {
    v in pol.types && pol.types[v]
  }

  function Attributes(pol: Av.Policy): set<nat> {
    set v | v in pol.types && pol.types[v]
  }

  function Types(pol: Av.Policy, x: Option<nat>): set<nat> {
    if x.Some? then {x.value} else Attributes(pol)
  }

  /** A block of keys. */
  datatype Block = Block(srcs: set<nat>, tgts: set<nat>, clss: set<nat>, effect: Effect)

  predicate InBlock(k: RuleKey, b: Block) {
    k.src in b.srcs && k.tgt in b.tgts && k.cls in b.clss && k.effect == b.effect
  }

  /** The rule is applied to every key of the block and to no other. */
  ghost predicate AppliedOn(t: Table, u: Table, b: Block, p: Xperm) {
    forall k {:trigger NodesAt(u, k)} ::
      NodesAt(u, k) == if InBlock(k, b) then Applied(NodesAt(t, k), p) else NodesAt(t, k)
  }

  lemma {:induction false} AppliedNowhere(t: Table, b: Block, p: Xperm)
    requires b.srcs == {} || b.tgts == {} || b.clss == {}
    ensures AppliedOn(t, t, b, p)
  {
  }

  lemma {:induction false} AppliedBoth(t: Table, u: Table, w: Table, x: Block, y: Block, xy: Block, p: Xperm)
    requires AppliedOn(t, u, x, p) && AppliedOn(u, w, y, p)
    requires forall k {:trigger InBlock(k, xy)} ::
      (InBlock(k, xy) <==> InBlock(k, x) || InBlock(k, y)) && !(InBlock(k, x) && InBlock(k, y))
    ensures AppliedOn(t, w, xy, p)
  {
    forall k {:trigger NodesAt(w, k)}
      ensures NodesAt(w, k) == if InBlock(k, xy) then Applied(NodesAt(t, k), p) else NodesAt(t, k)
    {
      assert InBlock(k, xy) <==> InBlock(k, x) || InBlock(k, y);
      assert NodesAt(u, k) == if InBlock(k, x) then Applied(NodesAt(t, k), p) else NodesAt(t, k);
    }
  }

  datatype Args = Args(src: Option<nat>, tgt: Option<nat>, cls: Option<nat>)

  function BlockOf(pol: Av.Policy, a: Args, effect: Effect): Block {
    Block(Types(pol, a.src), Types(pol, a.tgt), Av.Classes(pol, a.cls), effect)
  }

  function Open(a: Args): nat {
    (if a.src.None? then 1 else 0) + (if a.tgt.None? then 1 else 0) + (if a.cls.None? then 1 else 0)
  }

  class Policydb {
    const pol: Av.Policy
    var table: Table

    constructor (pol: Av.Policy, table: Table)
      ensures this.pol == pol && this.table == table
    {
      this.pol, this.table := pol, table;
    }

    /** Expands the wildcards, source before target before class. */
    method AddXpermRule(a: Args, p: Xperm, effect: Effect)
      modifies this
      ensures AppliedOn(old(table), table, BlockOf(pol, a, effect), p)
      decreases Open(a), 1
    {
      if a.src.None? {
        EverySource(a, p, effect);
      } else if a.tgt.None? {
        EveryTarget(a, p, effect);
      } else if a.cls.None? {
        EveryClass(a, p, effect);
      } else {
        var key := RuleKey(a.src.value, a.tgt.value, a.cls.value, effect);
        table := table[key := Applied(NodesAt(table, key), p)];
      }
    }

    method EverySource(a: Args, p: Xperm, effect: Effect)
      requires a.src.None?
      modifies this
      ensures AppliedOn(old(table), table, BlockOf(pol, a, effect), p)
      decreases Open(a), 0
    {
      ghost var whole := BlockOf(pol, a, effect);
      var todo := Attributes(pol);
      ghost var done: set<nat> := {};
      AppliedNowhere(table, whole.(srcs := {}), p);
      while todo != {}
        invariant done + todo == whole.srcs && done !! todo
        invariant AppliedOn(old(table), table, whole.(srcs := done), p)
        decreases |todo|
      {
        var v :| v in todo;
        ghost var before := table;
        AddXpermRule(a.(src := Some(v)), p, effect);
        AppliedBoth(old(table), before, table, whole.(srcs := done), whole.(srcs := {v}), whole.(srcs := done + {v}),
          p);
        todo, done := todo - {v}, done + {v};
      }
      assert done == whole.srcs;
    }

    method EveryTarget(a: Args, p: Xperm, effect: Effect)
      requires a.src.Some? && a.tgt.None?
      modifies this
      ensures AppliedOn(old(table), table, BlockOf(pol, a, effect), p)
      decreases Open(a), 0
    {
      ghost var whole := BlockOf(pol, a, effect);
      var todo := Attributes(pol);
      ghost var done: set<nat> := {};
      AppliedNowhere(table, whole.(tgts := {}), p);
      while todo != {}
        invariant done + todo == whole.tgts && done !! todo
        invariant AppliedOn(old(table), table, whole.(tgts := done), p)
        decreases |todo|
      {
        var v :| v in todo;
        ghost var before := table;
        AddXpermRule(a.(tgt := Some(v)), p, effect);
        AppliedBoth(old(table), before, table, whole.(tgts := done), whole.(tgts := {v}), whole.(tgts := done + {v}),
          p);
        todo, done := todo - {v}, done + {v};
      }
      assert done == whole.tgts;
    }

    method EveryClass(a: Args, p: Xperm, effect: Effect)
      requires a.src.Some? && a.tgt.Some? && a.cls.None?
      modifies this
      ensures AppliedOn(old(table), table, BlockOf(pol, a, effect), p)
      decreases Open(a), 0
    {
      ghost var whole := BlockOf(pol, a, effect);
      var todo := pol.classes;
      ghost var done: set<nat> := {};
      AppliedNowhere(table, whole.(clss := {}), p);
      while todo != {}
        invariant done + todo == whole.clss && done !! todo
        invariant AppliedOn(old(table), table, whole.(clss := done), p)
        decreases |todo|
      {
        var v :| v in todo;
        ghost var before := table;
        AddXpermRule(a.(cls := Some(v)), p, effect);
        AppliedBoth(old(table), before, table, whole.(clss := done), whole.(clss := {v}), whole.(clss := done + {v}),
          p);
        todo, done := todo - {v}, done + {v};
      }
      assert done == whole.clss;
    }
  }

  // ---------------------------------------------------------------------
  // What pairs of types hold
  // ---------------------------------------------------------------------

  /** The ioctl of driver `dr` and function `f` is held through a type or an attribute on each side. */
  ghost predicate Holds(pol: Av.Policy, t: Table, s: nat, d: nat, c: nat, e: Effect, dr: nat, f: nat) {
    exists x, y :: x in Av.Faces(pol, s) && y in Av.Faces(pol, d) && Grants(NodesAt(t, RuleKey(x, y, c, e)), dr, f)
  }

  /** It is held through a key that a rule with two wildcards does not visit. */
  ghost predicate HoldsBeside(pol: Av.Policy, t: Table, s: nat, d: nat, c: nat, e: Effect, dr: nat, f: nat) {
    exists x, y :: x in Av.Faces(pol, s) && y in Av.Faces(pol, d) && !(IsAttribute(pol, x) && IsAttribute(pol, y)) &&
                   Grants(NodesAt(t, RuleKey(x, y, c, e)), dr, f)
  }

  lemma {:induction false} VisitedIff(pol: Av.Policy, cls: Option<nat>, x: nat, y: nat, c: nat, e: Effect)
    requires c in Av.Classes(pol, cls)
    ensures InBlock(RuleKey(x, y, c, e), BlockOf(pol, Args(None, None, cls), e)) <==>
            IsAttribute(pol, x) && IsAttribute(pol, y)
  {
  }

  lemma {:induction false} KeyAfter(pol: Av.Policy, t: Table, u: Table, cls: Option<nat>, p: Xperm, e: Effect, x: nat,
      y: nat, c: nat, dr: nat, f: nat)
    requires IsXperm(p) && dr <= 255 && f <= 255 && c in Av.Classes(pol, cls)
    requires AppliedOn(t, u, BlockOf(pol, Args(None, None, cls), e), p)
    ensures Grants(NodesAt(u, RuleKey(x, y, c, e)), dr, f) <==>
            if !(IsAttribute(pol, x) && IsAttribute(pol, y)) then Grants(NodesAt(t, RuleKey(x, y, c, e)), dr, f)
            else if p.reset then !Widened(p, dr, f)
            else Grants(NodesAt(t, RuleKey(x, y, c, e)), dr, f) || Widened(p, dr, f)
  {
    VisitedIff(pol, cls, x, y, c, e);
    AppliedGrants(NodesAt(t, RuleKey(x, y, c, e)), p, dr, f);
    assert NodesAt(u, RuleKey(x, y, c, e)) ==
           if IsAttribute(pol, x) && IsAttribute(pol, y) then Applied(NodesAt(t, RuleKey(x, y, c, e)), p)
           else NodesAt(t, RuleKey(x, y, c, e));
  }

  /**
   * After a reset for all sources and targets a pair holds an ioctl exactly when it held it
   * through a plain type on one side, or the ioctl is outside the range and both sides have
   * an attribute.
   */
  lemma {:induction false} ResetEverywhereIff(pol: Av.Policy, t: Table, u: Table, cls: Option<nat>, p: Xperm, e: Effect,
      s: nat, d: nat, c: nat, dr: nat, f: nat)
    requires Av.WellFormed(pol) && s in pol.types && d in pol.types && c in Av.Classes(pol, cls)
    requires IsXperm(p) && p.reset && dr <= 255 && f <= 255
    requires AppliedOn(t, u, BlockOf(pol, Args(None, None, cls), e), p)
    ensures Holds(pol, u, s, d, c, e, dr, f) <==>
            || HoldsBeside(pol, t, s, d, c, e, dr, f)
            || (!Widened(p, dr, f) && Av.HasAttribute(pol, s) && Av.HasAttribute(pol, d))
  {
    forall x, y
      ensures Grants(NodesAt(u, RuleKey(x, y, c, e)), dr, f) <==>
              if IsAttribute(pol, x) && IsAttribute(pol, y) then !Widened(p, dr, f)
              else Grants(NodesAt(t, RuleKey(x, y, c, e)), dr, f)
    {
      KeyAfter(pol, t, u, cls, p, e, x, y, c, dr, f);
    }
    if !Widened(p, dr, f) && Av.HasAttribute(pol, s) && Av.HasAttribute(pol, d) {
      var x := Av.AttributeOf(pol, s);
      var y := Av.AttributeOf(pol, d);
      assert Grants(NodesAt(u, RuleKey(x, y, c, e)), dr, f);
    }
    if Holds(pol, u, s, d, c, e, dr, f) {
      var x, y :| x in Av.Faces(pol, s) && y in Av.Faces(pol, d) && Grants(NodesAt(u, RuleKey(x, y, c, e)), dr, f);
      if IsAttribute(pol, x) && IsAttribute(pol, y) {
        FaceHasAttribute(pol, s, x);
        FaceHasAttribute(pol, d, y);
      }
    }
  }

  lemma {:induction false} FaceHasAttribute(pol: Av.Policy, v: nat, x: nat)
    requires v in pol.types && x in Av.Faces(pol, v) && IsAttribute(pol, x)
    ensures Av.HasAttribute(pol, v)
  {
  }

  /** After a plain rule for all sources and targets the pairs with an attribute on both sides gain the range. */
  lemma {:induction false} GrantEverywhereIff(pol: Av.Policy, t: Table, u: Table, cls: Option<nat>, p: Xperm, e: Effect,
      s: nat, d: nat, c: nat, dr: nat, f: nat)
    requires Av.WellFormed(pol) && s in pol.types && d in pol.types && c in Av.Classes(pol, cls)
    requires IsXperm(p) && !p.reset && dr <= 255 && f <= 255
    requires AppliedOn(t, u, BlockOf(pol, Args(None, None, cls), e), p)
    ensures Holds(pol, u, s, d, c, e, dr, f) <==>
            || Holds(pol, t, s, d, c, e, dr, f)
            || (Widened(p, dr, f) && Av.HasAttribute(pol, s) && Av.HasAttribute(pol, d))
  {
    forall x, y
      ensures Grants(NodesAt(u, RuleKey(x, y, c, e)), dr, f) <==>
              || Grants(NodesAt(t, RuleKey(x, y, c, e)), dr, f)
              || (Widened(p, dr, f) && IsAttribute(pol, x) && IsAttribute(pol, y))
    {
      KeyAfter(pol, t, u, cls, p, e, x, y, c, dr, f);
    }
    if Widened(p, dr, f) && Av.HasAttribute(pol, s) && Av.HasAttribute(pol, d) {
      var x := Av.AttributeOf(pol, s);
      var y := Av.AttributeOf(pol, d);
      assert Grants(NodesAt(u, RuleKey(x, y, c, e)), dr, f);
    }
    if Holds(pol, u, s, d, c, e, dr, f) {
      var x, y :| x in Av.Faces(pol, s) && y in Av.Faces(pol, d) && Grants(NodesAt(u, RuleKey(x, y, c, e)), dr, f);
      if IsAttribute(pol, x) && IsAttribute(pol, y) {
        FaceHasAttribute(pol, s, x);
        FaceHasAttribute(pol, d, y);
      }
    }
  }

  /** An ioctl that a rule names for two plain types is still held after a reset of everything for all types. */
  lemma {:induction false} ResetLeavesPlainTypes(pol: Av.Policy, t: Table, u: Table, e: Effect, s: nat, d: nat, c: nat)
    requires Av.WellFormed(pol) && s in pol.types && d in pol.types && !pol.types[s] && !pol.types[d] &&
      c in pol.classes
    requires NodesAt(t, RuleKey(s, d, c, e)) == Applied(NO_NODES, Xperm(0x8910, 0x8910, false))
    requires AppliedOn(t, u, BlockOf(pol, Args(None, None, None), e), Xperm(0, 0xFFFF, true))
    ensures Holds(pol, u, s, d, c, e, 0x89, 0x10) && Widened(Xperm(0, 0xFFFF, true), 0x89, 0x10)
  {
    AppliedGrants(NO_NODES, Xperm(0x8910, 0x8910, false), 0x89, 0x10);
    assert HoldsBeside(pol, t, s, d, c, e, 0x89, 0x10);
    ResetEverywhereIff(pol, t, u, None, Xperm(0, 0xFFFF, true), e, s, d, c, 0x89, 0x10);
  }
}
