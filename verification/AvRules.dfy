/**
 * The access-vector rules of native/src/sepolicy/sepolicy.cpp and the expansion of
 * rule arguments in native/src/sepolicy/api.cpp.
 */
module AvRules {
  import opened Options

  datatype Effect = ALLOWED | AUDITALLOW | AUDITDENY

  datatype Key = Key(src: nat, tgt: nat, cls: nat, effect: Effect)

  /** The nodes of the table; a node holds the 32 permission bits as a set. */
  type Table = map<Key, set<nat>>

  /** Types with whether they are attributes, the attributes of each type, classes, and the names of all of them. */
  datatype Policy = Policy(
    types: map<nat, bool>, attrs: map<nat, set<nat>>, classes: set<nat>,
    typeNames: map<string, nat>, classNames: map<string, nat>, permNames: map<(nat, string), nat>)

  datatype Rule = Rule(src: Option<nat>, tgt: Option<nat>, cls: Option<nat>, perm: Option<nat>)

  predicate IsBit(b: nat) { b < 32 }

  function AllBits(): set<nat> {
    set b: nat | b < 32 && IsBit(b)
  }

  /** What a missing node means: nothing set, and for auditdeny everything. */
  function Default(e: Effect): set<nat> {
    if e == AUDITDENY then AllBits() else {}
  }

  function Data(t: Table, k: Key): set<nat> {
    if k in t then t[k] else Default(k.effect)
  }

  function NewData(data: set<nat>, perm: Option<nat>, invert: bool): set<nat> {
    if invert then (if perm.Some? then data - {perm.value} else {})
    else (if perm.Some? then data + {perm.value} else AllBits())
  }

  /** Whether the rule strips access, so that wildcards have to visit every type. */
  predicate StripAv(effect: Effect, invert: bool) {
    (effect == AUDITDENY) == !invert
  }

  /** The types or attributes a rule argument stands for. */
  function Range(pol: Policy, x: Option<nat>, strip: bool): set<nat> {
    match x
    case Some(v) => {v}
    case None => set v | v in pol.types && (strip || pol.types[v])
  }

  function Classes(pol: Policy, c: Option<nat>): set<nat> {
    if c.Some? then {c.value} else pol.classes
  }

  /** A block of the table. */
  datatype Box = Box(srcs: set<nat>, tgts: set<nat>, clss: set<nat>, effect: Effect)

  predicate InBox(k: Key, box: Box) {
    k.src in box.srcs && k.tgt in box.tgts && k.cls in box.clss && k.effect == box.effect
  }

  function RuleBox(pol: Policy, r: Rule, effect: Effect, invert: bool): Box {
    var strip := StripAv(effect, invert);
    Box(Range(pol, r.src, strip), Range(pol, r.tgt, strip), Classes(pol, r.cls), effect)
  }

  /**
   * The table has changed on the whole block and nowhere else, and no node on the
   * block says what a missing one says.
   */
  ghost predicate ChangedOn(a: Table, b: Table, box: Box, perm: Option<nat>, invert: bool) {
    forall k: Key {:trigger Data(b, k)} {:trigger k in b} ::
      if InBox(k, box) then
        Data(b, k) == NewData(Data(a, k), perm, invert) && (k in b <==> Data(b, k) != Default(k.effect))
      else
        Data(b, k) == Data(a, k) && (k in b <==> k in a)
  }

  lemma {:induction false} Join(a: Table, b: Table, c: Table, x: Box, y: Box, xy: Box, perm: Option<nat>, invert: bool)
    requires ChangedOn(a, b, x, perm, invert) && ChangedOn(b, c, y, perm, invert)
    requires forall k {:trigger InBox(k, xy)} :: InBox(k, xy) <==> InBox(k, x) || InBox(k, y)
    ensures ChangedOn(a, c, xy, perm, invert)
  {
    forall k: Key {:trigger Data(c, k)} {:trigger k in c}
      ensures if InBox(k, xy) then
                Data(c, k) == NewData(Data(a, k), perm, invert) && (k in c <==> Data(c, k) != Default(k.effect))
              else
                Data(c, k) == Data(a, k) && (k in c <==> k in a)
    {
      assert InBox(k, xy) <==> InBox(k, x) || InBox(k, y);
      assert Data(b, k) == if InBox(k, x) then NewData(Data(a, k), perm, invert) else Data(a, k);
      assert NewData(NewData(Data(a, k), perm, invert), perm, invert) == NewData(Data(a, k), perm, invert);
    }
  }

  /** How many of source, target and class are left open. */
  function Wildcards(r: Rule): nat {
    (if r.src.None? then 1 else 0) + (if r.tgt.None? then 1 else 0) + (if r.cls.None? then 1 else 0)
  }

  lemma {:induction false} Nowhere(a: Table, box: Box, perm: Option<nat>, invert: bool)
    requires box.srcs == {} || box.tgts == {} || box.clss == {}
    ensures ChangedOn(a, a, box, perm, invert)
  {
  }

  class Policydb {
    const pol: Policy
    var table: Table

    constructor (pol: Policy, table: Table)
      ensures this.pol == pol && this.table == table
    {
      this.pol, this.table := pol, table;
    }

    method AddOne(key: Key, perm: Option<nat>, invert: bool)
      modifies this
      ensures ChangedOn(old(table), table, Box({key.src}, {key.tgt}, {key.cls}, key.effect), perm, invert)
    {
      if key !in table {
        table := table[key := if key.effect == AUDITDENY then AllBits() else {}];
      }
      if invert {
        if perm.Some? {
          table := table[key := table[key] - {perm.value}];
        } else {
          table := table[key := {}];
        }
      } else {
        if perm.Some? {
          table := table[key := table[key] + {perm.value}];
        } else {
          table := table[key := AllBits()];
        }
      }
      if IsRedundant(key, table[key]) {
        table := table - {key};
      }
    }

    static predicate IsRedundant(key: Key, data: set<nat>) {
      match key.effect
      case AUDITDENY => data == AllBits()
      case _ => data == {}
    }

    /** Adds a rule; an argument left out stands for all types, all attributes or all classes. */
    method AddRule(r: Rule, effect: Effect, invert: bool)
      modifies this
      ensures ChangedOn(old(table), table, RuleBox(pol, r, effect, invert), r.perm, invert)
      decreases Wildcards(r), 1
    {
      if r.src.None? {
        EverySource(r, effect, invert);
      } else if r.tgt.None? {
        EveryTarget(r, effect, invert);
      } else if r.cls.None? {
        EveryClass(r, effect, invert);
      } else {
        AddOne(Key(r.src.value, r.tgt.value, r.cls.value, effect), r.perm, invert);
      }
    }

    /** Every type when the rule strips access, otherwise every attribute. */
    method EverySource(r: Rule, effect: Effect, invert: bool)
      requires r.src.None?
      modifies this
      ensures ChangedOn(old(table), table, RuleBox(pol, r, effect, invert), r.perm, invert)
      decreases Wildcards(r), 0
    {
      ghost var whole := RuleBox(pol, r, effect, invert);
      var todo := Range(pol, None, StripAv(effect, invert));
      ghost var done: set<nat> := {};
      Nowhere(table, whole.(srcs := {}), r.perm, invert);
      while todo != {}
        invariant done + todo == whole.srcs
        invariant ChangedOn(old(table), table, whole.(srcs := done), r.perm, invert)
        decreases |todo|
      {
        var v :| v in todo;
        ghost var before := table;
        AddRule(r.(src := Some(v)), effect, invert);
        Join(old(table), before, table, whole.(srcs := done), whole.(srcs := {v}), whole.(srcs := done + {v}), r.perm,
          invert);
        todo, done := todo - {v}, done + {v};
      }
      assert done == whole.srcs;
    }

    /** The same for the target. */
    method EveryTarget(r: Rule, effect: Effect, invert: bool)
      requires r.src.Some? && r.tgt.None?
      modifies this
      ensures ChangedOn(old(table), table, RuleBox(pol, r, effect, invert), r.perm, invert)
      decreases Wildcards(r), 0
    {
      ghost var whole := RuleBox(pol, r, effect, invert);
      var todo := Range(pol, None, StripAv(effect, invert));
      ghost var done: set<nat> := {};
      Nowhere(table, whole.(tgts := {}), r.perm, invert);
      while todo != {}
        invariant done + todo == whole.tgts
        invariant ChangedOn(old(table), table, whole.(tgts := done), r.perm, invert)
        decreases |todo|
      {
        var v :| v in todo;
        ghost var before := table;
        AddRule(r.(tgt := Some(v)), effect, invert);
        Join(old(table), before, table, whole.(tgts := done), whole.(tgts := {v}), whole.(tgts := done + {v}), r.perm,
          invert);
        todo, done := todo - {v}, done + {v};
      }
      assert done == whole.tgts;
    }

    /** Every class. */
    method EveryClass(r: Rule, effect: Effect, invert: bool)
      requires r.src.Some? && r.tgt.Some? && r.cls.None?
      modifies this
      ensures ChangedOn(old(table), table, RuleBox(pol, r, effect, invert), r.perm, invert)
      decreases Wildcards(r), 0
    {
      ghost var whole := RuleBox(pol, r, effect, invert);
      var todo := pol.classes;
      ghost var done: set<nat> := {};
      Nowhere(table, whole.(clss := {}), r.perm, invert);
      while todo != {}
        invariant done + todo == whole.clss
        invariant ChangedOn(old(table), table, whole.(clss := done), r.perm, invert)
        decreases |todo|
      {
        var v :| v in todo;
        ghost var before := table;
        AddRule(r.(cls := Some(v)), effect, invert);
        Join(old(table), before, table, whole.(clss := done), whole.(clss := {v}), whole.(clss := done + {v}), r.perm,
          invert);
        todo, done := todo - {v}, done + {v};
      }
      assert done == whole.clss;
    }

    /** Adds a rule by names; nothing happens when one of them is unknown. */
    method AddNamed(a: seq<string>, effect: Effect, invert: bool) returns (ok: bool)
      requires |a| == 4
      modifies this
      ensures ok <==> Resolve(pol, a).Some?
      ensures BitsChanged(pol, [], a, effect, invert, old(table), table)
      ensures Tidy(old(table)) ==> Tidy(table)
    {
      var r := Resolve(pol, a);
      if r.None? {
        return false;
      }
      AddRule(r.value, effect, invert);
      ghost var box := RuleBox(pol, r.value, effect, invert);
      ChangedBits(old(table), table, box, r.value.perm, invert);
      return true;
    }

    /** Runs over all combinations of the arguments; an empty list stands for a wildcard. */
    method Expand(vecs: seq<seq<string>>, args: seq<string>, effect: Effect, invert: bool)
      requires |args| + |vecs| == 4
      modifies this
      ensures BitsChanged(pol, vecs, args, effect, invert, old(table), table)
      ensures Tidy(old(table)) ==> Tidy(table)
      decreases |vecs|, 1
    {
      if vecs == [] {
        var _ := AddNamed(args, effect, invert);
      } else if vecs[0] == [] {
        Expand(vecs[1..], args + [""], effect, invert);
      } else {
        ExpandEach(vecs, args, effect, invert);
      }
    }

    method ExpandEach(vecs: seq<seq<string>>, args: seq<string>, effect: Effect, invert: bool)
      requires |args| + |vecs| == 4 && vecs != [] && vecs[0] != []
      modifies this
      ensures BitsChanged(pol, vecs, args, effect, invert, old(table), table)
      ensures Tidy(old(table)) ==> Tidy(table)
      decreases |vecs|, 0
    {
      for i := 0 to |vecs[0]|
        invariant BitsUpTo(pol, vecs, args, i, effect, invert, old(table), table)
        invariant Tidy(old(table)) ==> Tidy(table)
      {
        ghost var before := table;
        Expand(vecs[1..], args + [vecs[0][i]], effect, invert);
        UpToNext(pol, vecs, args, i, effect, invert, old(table), before, table);
      }
    }
  }

  /** No node says what a missing one says. */
  ghost predicate Tidy(t: Table) {
    forall k :: k in t ==> t[k] != Default(k.effect)
  }

  function ResolveType(pol: Policy, s: string): Option<Option<nat>> {
    if s == "" then Some(None) else if s in pol.typeNames then Some(Some(pol.typeNames[s])) else None
  }

  function ResolveClass(pol: Policy, s: string): Option<Option<nat>> {
    if s == "" then Some(None) else if s in pol.classNames then Some(Some(pol.classNames[s])) else None
  }

  /** The rule named by source, target, class and permission; a permission needs a class. */
  function Resolve(pol: Policy, a: seq<string>): Option<Rule>
    requires |a| == 4
  {
    var s, t, c := ResolveType(pol, a[0]), ResolveType(pol, a[1]), ResolveClass(pol, a[2]);
    if s.None? || t.None? || c.None? then None
    else if a[3] == "" then Some(Rule(s.value, t.value, c.value, None))
    else if c.value.None? || (c.value.value, a[3]) !in pol.permNames then None
    else Some(Rule(s.value, t.value, c.value, Some(pol.permNames[(c.value.value, a[3])])))
  }

  predicate Hit(pol: Policy, a: seq<string>, effect: Effect, invert: bool, k: Key, b: nat)
    requires |a| == 4
  {
    var r := Resolve(pol, a);
    r.Some? && InBox(k, RuleBox(pol, r.value, effect, invert)) && (r.value.perm.None? || r.value.perm.value == b)
  }

  /** Some combination of the arguments names this permission of this key. */
  predicate Hits(pol: Policy, vecs: seq<seq<string>>, args: seq<string>, effect: Effect, invert: bool, k: Key, b: nat)
    requires |args| + |vecs| == 4
    decreases |vecs|
  {
    if vecs == [] then Hit(pol, args, effect, invert, k, b)
    else if vecs[0] == [] then Hits(pol, vecs[1..], args + [""], effect, invert, k, b)
    else exists i :: 0 <= i < |vecs[0]| && Hits(pol, vecs[1..], args + [vecs[0][i]], effect, invert, k, b)
  }

  /** Exactly the named permissions are set, or cleared. */
  ghost predicate BitsChanged(pol: Policy, vecs: seq<seq<string>>, args: seq<string>, effect: Effect, invert: bool,
      t: Table, u: Table)
    requires |args| + |vecs| == 4
  {
    forall k: Key, b: nat {:trigger b in Data(u, k)} :: IsBit(b) ==>
      (b in Data(u, k) <==> if Hits(pol, vecs, args, effect, invert, k, b) then !invert else b in Data(t, k))
  }

  ghost predicate HitsUpTo(pol: Policy, vecs: seq<seq<string>>, args: seq<string>, n: nat, effect: Effect, invert: bool,
      k: Key, b: nat)
    requires |args| + |vecs| == 4 && vecs != [] && n <= |vecs[0]|
  {
    exists i :: 0 <= i < n && Hits(pol, vecs[1..], args + [vecs[0][i]], effect, invert, k, b)
  }

  ghost predicate BitsUpTo(pol: Policy, vecs: seq<seq<string>>, args: seq<string>, n: nat, effect: Effect, invert: bool,
      t: Table, u: Table)
    requires |args| + |vecs| == 4 && vecs != [] && n <= |vecs[0]|
  {
    forall k: Key, b: nat {:trigger b in Data(u, k)} :: IsBit(b) ==>
      (b in Data(u, k) <==> if HitsUpTo(pol, vecs, args, n, effect, invert, k, b) then !invert else b in Data(t, k))
  }

  lemma {:induction false} UpToNext(pol: Policy, vecs: seq<seq<string>>, args: seq<string>, n: nat, effect: Effect,
      invert: bool, t: Table, u: Table, v: Table)
    requires |args| + |vecs| == 4 && vecs != [] && n < |vecs[0]|
    requires BitsUpTo(pol, vecs, args, n, effect, invert, t, u)
    requires BitsChanged(pol, vecs[1..], args + [vecs[0][n]], effect, invert, u, v)
    ensures BitsUpTo(pol, vecs, args, n + 1, effect, invert, t, v)
  {
    forall k: Key, b: nat {:trigger b in Data(v, k)} | IsBit(b)
      ensures b in Data(v, k) <==> if HitsUpTo(pol, vecs, args, n + 1, effect, invert, k, b) then !invert
                                   else b in Data(t, k)
    {
      assert b in Data(u, k) <==> if HitsUpTo(pol, vecs, args, n, effect, invert, k, b) then !invert
                                  else b in Data(t, k);
      var now := Hits(pol, vecs[1..], args + [vecs[0][n]], effect, invert, k, b);
      assert HitsUpTo(pol, vecs, args, n + 1, effect, invert, k, b) <==>
        HitsUpTo(pol, vecs, args, n, effect, invert, k, b) || now;
    }
  }

  lemma {:induction false} ChangedBits(t: Table, u: Table, box: Box, perm: Option<nat>, invert: bool)
    requires ChangedOn(t, u, box, perm, invert)
    ensures forall k: Key, b: nat {:trigger b in Data(u, k)} :: IsBit(b) ==>
      (b in Data(u, k) <==> if InBox(k, box) && (perm.None? || perm.value == b) then !invert else b in Data(t, k))
    ensures Tidy(t) ==> Tidy(u)
  {
    forall k: Key, b: nat {:trigger b in Data(u, k)} | IsBit(b)
      ensures b in Data(u, k) <==> if InBox(k, box) && (perm.None? || perm.value == b) then !invert else b in Data(t, k)
    {
      assert b in AllBits();
      assert Data(u, k) == if InBox(k, box) then NewData(Data(t, k), perm, invert) else Data(t, k);
    }
    if Tidy(t) {
      forall k | k in u ensures u[k] != Default(k.effect) {
        assert Data(u, k) == u[k];
      }
    }
  }

  /**
   * The first rule for a key: a permission that is set makes a node with it alone, a dontaudit makes
   * one with all permissions but that one, and what only repeats a missing node makes none.
   */
  lemma {:induction false} FirstRule(t: Table, u: Table, box: Box, b: nat, invert: bool, k: Key)
    requires ChangedOn(t, u, box, Some(b), invert) && InBox(k, box) && k !in t && IsBit(b)
    ensures k in u <==> (if k.effect == AUDITDENY then invert else !invert)
    ensures k in u && !invert ==> u[k] == {b}
    ensures k in u && invert ==> forall x :: x in u[k] <==> 0 <= x < 32 && x != b
  {
    assert Data(u, k) == NewData(Data(t, k), Some(b), invert) && (k in u <==> Data(u, k) != Default(k.effect));
    assert b in AllBits();
    if invert && k.effect == AUDITDENY {
      forall x ensures x in Data(u, k) <==> 0 <= x < 32 && x != b {
        assert x in AllBits() <==> 0 <= x < 32 && IsBit(x);
      }
      assert b !in Data(u, k);
    } else if !invert && k.effect == AUDITDENY {
      assert AllBits() + {b} == AllBits();
    }
  }

  // ---------------------------------------------------------------------
  // What a rule with its names stands for
  // ---------------------------------------------------------------------

  /** An empty name would be taken for a wildcard. */
  predicate NoBlank(names: seq<string>) {
    "" !in names
  }

  /** One of the names is this type, or none is given and the wildcard covers it. */
  predicate TypeNamed(pol: Policy, names: seq<string>, v: nat, strip: bool) {
    if names == [] then v in pol.types && (strip || pol.types[v])
    else exists n :: n in names && n in pol.typeNames && pol.typeNames[n] == v
  }

  predicate ClassNamed(pol: Policy, names: seq<string>, c: nat) {
    if names == [] then c in pol.classes
    else exists n :: n in names && n in pol.classNames && pol.classNames[n] == c
  }

  /** One of the names is this permission of the class; a permission needs a class. */
  predicate PermNamed(pol: Policy, clss: seq<string>, names: seq<string>, c: nat, b: nat) {
    names == [] || (clss != [] && exists n :: n in names && (c, n) in pol.permNames && pol.permNames[(c, n)] == b)
  }

  predicate Named(pol: Policy, s: seq<string>, t: seq<string>, c: seq<string>, p: seq<string>, strip: bool, k: Key,
      b: nat)
  {
    && TypeNamed(pol, s, k.src, strip) && TypeNamed(pol, t, k.tgt, strip)
    && ClassNamed(pol, c, k.cls) && PermNamed(pol, c, p, k.cls, b)
  }

  predicate Choice(names: seq<string>, n: string) {
    if names == [] then n == "" else n in names
  }

  lemma {:induction false} HitsFirst(pol: Policy, vecs: seq<seq<string>>, args: seq<string>, effect: Effect,
      invert: bool, k: Key, b: nat)
    requires |args| + |vecs| == 4 && vecs != []
    ensures Hits(pol, vecs, args, effect, invert, k, b) <==>
            exists n :: Choice(vecs[0], n) && Hits(pol, vecs[1..], args + [n], effect, invert, k, b)
  {
    if vecs[0] == [] {
      assert Choice(vecs[0], "");
    } else {
      assert forall i :: 0 <= i < |vecs[0]| ==> Choice(vecs[0], vecs[0][i]);
    }
  }

  lemma {:induction false} HitNamed(pol: Policy, s: seq<string>, t: seq<string>, c: seq<string>, p: seq<string>,
      a: seq<string>, effect: Effect, invert: bool, k: Key, b: nat)
    requires NoBlank(s) && NoBlank(t) && NoBlank(c) && NoBlank(p) && |a| == 4
    requires Choice(s, a[0]) && Choice(t, a[1]) && Choice(c, a[2]) && Choice(p, a[3])
    requires Hit(pol, a, effect, invert, k, b)
    ensures k.effect == effect && Named(pol, s, t, c, p, StripAv(effect, invert), k, b)
  {
  }

  lemma {:induction false} NamedHits(pol: Policy, s: seq<string>, t: seq<string>, c: seq<string>, p: seq<string>,
      effect: Effect, invert: bool, k: Key, b: nat)
      returns (a: seq<string>)
    requires NoBlank(s) && NoBlank(t) && NoBlank(c) && NoBlank(p)
    requires k.effect == effect && Named(pol, s, t, c, p, StripAv(effect, invert), k, b)
    ensures |a| == 4 && Choice(s, a[0]) && Choice(t, a[1]) && Choice(c, a[2]) && Choice(p, a[3])
    ensures Hit(pol, a, effect, invert, k, b)
  {
    var x, y, z, w := "", "", "", "";
    if s != [] {
      x :| x in s && x in pol.typeNames && pol.typeNames[x] == k.src;
    }
    if t != [] {
      y :| y in t && y in pol.typeNames && pol.typeNames[y] == k.tgt;
    }
    if c != [] {
      z :| z in c && z in pol.classNames && pol.classNames[z] == k.cls;
    }
    if p != [] {
      w :| w in p && (k.cls, w) in pol.permNames && pol.permNames[(k.cls, w)] == b;
    }
    a := [x, y, z, w];
  }

  lemma {:induction false} HitsChoice(pol: Policy, vecs: seq<seq<string>>, args: seq<string>, effect: Effect,
      invert: bool, k: Key, b: nat)
      returns (a: seq<string>)
    requires |args| + |vecs| == 4 && Hits(pol, vecs, args, effect, invert, k, b)
    ensures |a| == 4 && a[..|args|] == args && Hit(pol, a, effect, invert, k, b)
    ensures forall i :: 0 <= i < |vecs| ==> Choice(vecs[i], a[|args| + i])
    decreases |vecs|
  {
    if vecs == [] {
      a := args;
    } else {
      HitsFirst(pol, vecs, args, effect, invert, k, b);
      var n :| Choice(vecs[0], n) && Hits(pol, vecs[1..], args + [n], effect, invert, k, b);
      a := HitsChoice(pol, vecs[1..], args + [n], effect, invert, k, b);
      assert a[..|args|] == a[..|args| + 1][..|args|] == args;
      assert a[|args|] == a[..|args| + 1][|args|] == n;
      forall i | 0 <= i < |vecs| ensures Choice(vecs[i], a[|args| + i]) {
        if i > 0 {
          assert vecs[1..][i - 1] == vecs[i];
          assert Choice(vecs[1..][i - 1], a[|args| + 1 + (i - 1)]);
        }
      }
    }
  }

  lemma {:induction false} ChoiceHits(pol: Policy, vecs: seq<seq<string>>, args: seq<string>, a: seq<string>,
      effect: Effect, invert: bool, k: Key, b: nat)
    requires |args| + |vecs| == 4 && |a| == 4 && a[..|args|] == args && Hit(pol, a, effect, invert, k, b)
    requires forall i :: 0 <= i < |vecs| ==> Choice(vecs[i], a[|args| + i])
    ensures Hits(pol, vecs, args, effect, invert, k, b)
    decreases |vecs|
  {
    if vecs == [] {
      assert a == args;
    } else {
      var n := a[|args|];
      assert Choice(vecs[0], a[|args| + 0]);
      assert a[..|args| + 1] == args + [n];
      forall i | 0 <= i < |vecs[1..]| ensures Choice(vecs[1..][i], a[|args| + 1 + i]) {
        assert Choice(vecs[i + 1], a[|args| + (i + 1)]);
      }
      ChoiceHits(pol, vecs[1..], args + [n], a, effect, invert, k, b);
      HitsFirst(pol, vecs, args, effect, invert, k, b);
    }
  }

  /**
   * A rule sets or clears a permission of a key exactly when source, target and class name the
   * key and the permission is named, each on its own; unknown names count for nothing.
   */
  lemma {:induction false} HitsNamed(pol: Policy, s: seq<string>, t: seq<string>, c: seq<string>, p: seq<string>,
      effect: Effect, invert: bool, k: Key, b: nat)
    requires NoBlank(s) && NoBlank(t) && NoBlank(c) && NoBlank(p)
    ensures Hits(pol, [s, t, c, p], [], effect, invert, k, b) <==>
            k.effect == effect && Named(pol, s, t, c, p, (effect == AUDITDENY) != invert, k, b)
  {
    if Hits(pol, [s, t, c, p], [], effect, invert, k, b) {
      var a := HitsFour(pol, s, t, c, p, effect, invert, k, b);
      HitNamed(pol, s, t, c, p, a, effect, invert, k, b);
    }
    if k.effect == effect && Named(pol, s, t, c, p, StripAv(effect, invert), k, b) {
      var a := NamedHits(pol, s, t, c, p, effect, invert, k, b);
      FourHits(pol, s, t, c, p, a, effect, invert, k, b);
    }
  }

  lemma {:induction false} HitsFour(pol: Policy, s: seq<string>, t: seq<string>, c: seq<string>, p: seq<string>,
      effect: Effect, invert: bool, k: Key, b: nat)
      returns (a: seq<string>)
    requires Hits(pol, [s, t, c, p], [], effect, invert, k, b)
    ensures |a| == 4 && Choice(s, a[0]) && Choice(t, a[1]) && Choice(c, a[2]) && Choice(p, a[3])
    ensures Hit(pol, a, effect, invert, k, b)
  {
    var vecs := [s, t, c, p];
    a := HitsChoice(pol, vecs, [], effect, invert, k, b);
    assert Choice(vecs[0], a[0]) && Choice(vecs[1], a[1]) && Choice(vecs[2], a[2]) && Choice(vecs[3], a[3]);
  }

  lemma {:induction false} FourHits(pol: Policy, s: seq<string>, t: seq<string>, c: seq<string>, p: seq<string>,
      a: seq<string>, effect: Effect, invert: bool, k: Key, b: nat)
    requires |a| == 4 && Choice(s, a[0]) && Choice(t, a[1]) && Choice(c, a[2]) && Choice(p, a[3])
    requires Hit(pol, a, effect, invert, k, b)
    ensures Hits(pol, [s, t, c, p], [], effect, invert, k, b)
  {
    ChoiceHits(pol, [s, t, c, p], [], a, effect, invert, k, b);
  }

  // ---------------------------------------------------------------------
  // What types may do
  // ---------------------------------------------------------------------

  /** A type and its attributes. */
  function Faces(pol: Policy, v: nat): set<nat> {
    {v} + if v in pol.attrs then pol.attrs[v] else {}
  }

  ghost predicate Allowed(pol: Policy, t: Table, s: nat, d: nat, c: nat, b: nat) {
    exists x, y :: x in Faces(pol, s) && y in Faces(pol, d) && b in Data(t, Key(x, y, c, ALLOWED))
  }

  /** The attributes of a type are types of the policy, marked as attributes. */
  predicate WellFormed(pol: Policy) {
    forall v :: v in pol.attrs ==> v in pol.types && forall a :: a in pol.attrs[v] ==> a in pol.types && pol.types[a]
  }

  /** After a deny with wildcard source and target, no pair of types keeps the permission in any way. */
  lemma {:induction false} DenyEverywhere(pol: Policy, t: Table, u: Table, cls: Option<nat>, perm: Option<nat>,
      s: nat, d: nat, c: nat, b: nat)
    requires WellFormed(pol) && s in pol.types && d in pol.types && c in Classes(pol, cls)
    requires IsBit(b) && (perm.None? || perm.value == b)
    requires ChangedOn(t, u, RuleBox(pol, Rule(None, None, cls, perm), ALLOWED, true), perm, true)
    ensures !Allowed(pol, u, s, d, c, b)
  {
    var box := RuleBox(pol, Rule(None, None, cls, perm), ALLOWED, true);
    ChangedBits(t, u, box, perm, true);
    forall x, y | x in Faces(pol, s) && y in Faces(pol, d)
      ensures b !in Data(u, Key(x, y, c, ALLOWED))
    {
      assert InBox(Key(x, y, c, ALLOWED), box);
    }
  }

  predicate HasAttribute(pol: Policy, v: nat)
    requires v in pol.types
  {
    pol.types[v] || (v in pol.attrs && pol.attrs[v] != {})
  }

  /** After an allow with wildcard source and target, exactly the pairs with an attribute on both sides gain it. */
  lemma {:induction false} AllowEverywhereIff(pol: Policy, t: Table, u: Table, cls: Option<nat>, perm: Option<nat>,
      s: nat, d: nat, c: nat, b: nat)
    requires WellFormed(pol) && s in pol.types && d in pol.types && c in Classes(pol, cls)
    requires IsBit(b) && (perm.None? || perm.value == b)
    requires ChangedOn(t, u, RuleBox(pol, Rule(None, None, cls, perm), ALLOWED, false), perm, false)
    ensures Allowed(pol, u, s, d, c, b) <==>
            Allowed(pol, t, s, d, c, b) || (HasAttribute(pol, s) && HasAttribute(pol, d))
  {
    var box := RuleBox(pol, Rule(None, None, cls, perm), ALLOWED, false);
    ChangedBits(t, u, box, perm, false);
    if HasAttribute(pol, s) && HasAttribute(pol, d) {
      var x := AttributeOf(pol, s);
      var y := AttributeOf(pol, d);
      assert InBox(Key(x, y, c, ALLOWED), box) && b in Data(u, Key(x, y, c, ALLOWED));
    }
    if Allowed(pol, t, s, d, c, b) {
      var x, y :| x in Faces(pol, s) && y in Faces(pol, d) && b in Data(t, Key(x, y, c, ALLOWED));
      assert b in Data(u, Key(x, y, c, ALLOWED));
    }
    if Allowed(pol, u, s, d, c, b) {
      var x, y :| x in Faces(pol, s) && y in Faces(pol, d) && b in Data(u, Key(x, y, c, ALLOWED));
      assert InBox(Key(x, y, c, ALLOWED), box) || b in Data(t, Key(x, y, c, ALLOWED));
    }
  }

  lemma {:induction false} AttributeOf(pol: Policy, v: nat) returns (a: nat)
    requires WellFormed(pol) && v in pol.types && HasAttribute(pol, v)
    ensures a in Faces(pol, v) && a in pol.types && pol.types[a]
  {
    if pol.types[v] {
      a := v;
    } else {
      a :| a in pol.attrs[v];
    }
  }
}
