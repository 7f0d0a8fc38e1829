/**
 * From the list of modules to the mounts (native/src/core/module.rs): the trees of all
 * modules are collected into one virtual tree, the program's own binaries are injected
 * into it, and the overlay engine commits it.
 */
module ModuleLists {
  import opened Options
  import opened Overlays
  import opened BinDirs

  const MODULEMNT: Path := [".magisk", "modules"]
  const SKIP_MOUNT: Name := "skip_mount"

  // ---------------------------------------------------------------------
  // The trees of all modules
  // ---------------------------------------------------------------------

  /** A tree to collect and where it is mounted from. */
  datatype Layer = Layer(raw: Tree, src: Path)

  function SystemOf(name: Name): Path {
    MODULEMNT + [name] + [SYSTEM]
  }

  /** The modules that are mounted, in the order of the list. */
  function Layers(tmp: Tree, names: seq<Name>): seq<Layer> {
    if names == [] then []
    else
      var last := names[|names| - 1];
      var raw := At(tmp, SystemOf(last));
      Layers(tmp, names[..|names| - 1]) +
      if At(tmp, MODULEMNT + [last] + [SKIP_MOUNT]).None? && raw.Some? then [Layer(raw.value, SystemOf(last))] else []
  }

  /** One module after the other into the tree of those before. */
  function GatherAll(layers: seq<Layer>): (v: Node)
    ensures v.VDir?
  {
    if layers == [] then VDir(map[])
    else Gather(GatherAll(layers[..|layers| - 1]), layers[|layers| - 1].raw, layers[|layers| - 1].src)
  }

  method CollectAll(tmp: Tree, names: seq<Name>) returns (v: Node)
    ensures v == GatherAll(Layers(tmp, names))
  {
    v := VDir(map[]);
    for i := 0 to |names|
      invariant v == GatherAll(Layers(tmp, names[..i]))
    {
      var name := names[i];
      assert names[..i + 1][..i] == names[..i];
      var skip, raw := At(tmp, MODULEMNT + [name] + [SKIP_MOUNT]), At(tmp, SystemOf(name));
      if skip.None? && raw.Some? {
        GatherSnoc(Layers(tmp, names[..i]), Layer(raw.value, SystemOf(name)));
        v := Collect(v, raw.value, SystemOf(name));
      } else {
        assert Layers(tmp, names[..i]) + [] == Layers(tmp, names[..i]);
      }
    }
    assert names[..|names|] == names;
  }

  lemma {:induction false} GatherSnoc(layers: seq<Layer>, l: Layer)
    ensures GatherAll(layers + [l]) == Gather(GatherAll(layers), l.raw, l.src)
  {
    assert (layers + [l])[..|layers|] == layers;
  }

  // ---------------------------------------------------------------------
  // Name by name
  // ---------------------------------------------------------------------

  /** What the first module that has the name has there. */
  function First(layers: seq<Layer>, n: Name): Option<Layer> {
    if layers == [] then None
    else if n in Kids(layers[0].raw) then Some(Layer(Kids(layers[0].raw)[n], layers[0].src + [n]))
    else First(layers[1..], n)
  }

  /** The directories of that name in all the modules. */
  function Below(layers: seq<Layer>, n: Name): seq<Layer> {
    if layers == [] then []
    else
      (if n in Kids(layers[0].raw) && Kids(layers[0].raw)[n].Dir?
       then [Layer(Kids(layers[0].raw)[n], layers[0].src + [n])] else []) + Below(layers[1..], n)
  }

  lemma {:induction false} FirstSnoc(layers: seq<Layer>, l: Layer, n: Name)
    ensures First(layers + [l], n) ==
            if First(layers, n).Some? then First(layers, n)
            else if n in Kids(l.raw) then Some(Layer(Kids(l.raw)[n], l.src + [n])) else None
  {
    if layers == [] {
      assert [l][1..] == [];
    } else {
      assert (layers + [l])[1..] == layers[1..] + [l];
      FirstSnoc(layers[1..], l, n);
    }
  }

  lemma {:induction false} BelowSnoc(layers: seq<Layer>, l: Layer, n: Name)
    ensures Below(layers + [l], n) == Below(layers, n) + Below([l], n)
  {
    if layers != [] {
      assert (layers + [l])[1..] == layers[1..] + [l];
      BelowSnoc(layers[1..], l, n);
    }
  }

  lemma {:induction false} BelowOne(l: Layer, n: Name)
    ensures Below([l], n) ==
            if n in Kids(l.raw) && Kids(l.raw)[n].Dir? then [Layer(Kids(l.raw)[n], l.src + [n])] else []
  {
    assert [l][1..] == [];
  }

  lemma {:induction false} NoneBelow(layers: seq<Layer>, n: Name)
    requires First(layers, n).None?
    ensures Below(layers, n) == []
  {
    if layers != [] {
      NoneBelow(layers[1..], n);
    }
  }

  /** The node the modules together have under a name. */
  function Merged(layers: seq<Layer>, n: Name): Option<Node> {
    var first := First(layers, n);
    if first.None? then None
    else if first.value.raw.Dir? then Some(GatherAll(Below(layers, n)))
    else Some(Leaf(first.value.raw, first.value.src))
  }

  /**
   * Collecting module by module comes to the same as merging name by name: the first
   * module that has a name decides what it is, and directories merge.
   */
  lemma {:induction false} CollectedNameByName(layers: seq<Layer>, n: Name)
    ensures Have(GatherAll(layers), n) == Merged(layers, n)
  {
    if layers != [] {
      var front, l := layers[..|layers| - 1], layers[|layers| - 1];
      assert layers == front + [l];
      CollectedNameByName(front, n);
      FirstSnoc(front, l, n);
      GatherSnoc(front, l);
      MergeOne(front, l, n);
    }
  }

  lemma {:induction false} MergeOne(front: seq<Layer>, l: Layer, n: Name)
    requires Have(GatherAll(front), n) == Merged(front, n)
    ensures Have(Gather(GatherAll(front), l.raw, l.src), n) == Merged(front + [l], n)
  {
    var v := GatherAll(front);
    GatherRest(v, l.raw, l.src);
    FirstSnoc(front, l, n);
    BelowSnoc(front, l, n);
    BelowOne(l, n);
    if n in Kids(l.raw) {
      var entry := Kids(l.raw)[n];
      GatherKid(v, l.raw, l.src, n);
      if entry.Dir? {
        if First(front, n).None? {
          NoneBelow(front, n);
        }
        assert GatherAll([]) == VDir(map[]);
        GatherSnoc(Below(front, n), Layer(entry, l.src + [n]));
      } else {
        assert Below(front, n) + [] == Below(front, n);
      }
    } else {
      assert Below(front, n) + [] == Below(front, n);
    }
  }

  /** What the modules have at a path. */
  datatype Entry = Nothing | Directory | Other(node: Node)

  function EntryOf(node: Option<Node>): Entry {
    if node.None? then Nothing else if node.value.VDir? then Directory else Other(node.value)
  }

  /** On the way down a path, at each name the first module of those that still count decides. */
  function Says(layers: seq<Layer>, p: Path): Entry
    decreases |p|
  {
    if p == [] then Directory
    else
      var first := First(layers, p[0]);
      if first.None? then Nothing
      else if first.value.raw.Dir? then Says(Below(layers, p[0]), p[1..])
      else if |p| == 1 then Other(Leaf(first.value.raw, first.value.src))
      else Nothing
  }

  lemma {:induction false} FirstModuleDecides(layers: seq<Layer>, p: Path)
    ensures EntryOf(NodeAt(GatherAll(layers), p)) == Says(layers, p)
    decreases |p|
  {
    if p != [] {
      CollectedNameByName(layers, p[0]);
      var first := First(layers, p[0]);
      if first.Some? && first.value.raw.Dir? {
        FirstModuleDecides(Below(layers, p[0]), p[1..]);
      }
    }
  }

  /** The layers of a list lie where they say. */
  ghost predicate InPlace(tmp: Tree, layers: seq<Layer>) {
    forall i :: 0 <= i < |layers| ==> At(tmp, layers[i].src) == Some(layers[i].raw)
  }

  lemma {:induction false} LayersInPlace(tmp: Tree, names: seq<Name>)
    ensures InPlace(tmp, Layers(tmp, names))
  {
    if names != [] {
      LayersInPlace(tmp, names[..|names| - 1]);
    }
  }

  /** The collected tree only holds files that the modules have. */
  lemma {:induction false} CollectedSourced(tmp: Tree, layers: seq<Layer>)
    requires InPlace(tmp, layers)
    ensures Sourced(tmp, GatherAll(layers))
  {
    if layers != [] {
      var front, l := layers[..|layers| - 1], layers[|layers| - 1];
      CollectedSourced(tmp, front);
      GatherSourced(tmp, GatherAll(front), l.raw, l.src);
    }
  }

  /** Of the modules in front, those that are skipped or have no system tree count for nothing. */
  lemma {:induction false} ModuleCounts(tmp: Tree, front: seq<Name>, name: Name, rest: seq<Name>)
    ensures var skip, raw := At(tmp, MODULEMNT + [name] + ["skip_mount"]), At(tmp, MODULEMNT + [name] + ["system"]);
            Layers(tmp, front + [name] + rest) ==
            Layers(tmp, front) +
            (if skip.Some? || raw.None? then [] else [Layer(raw.value, MODULEMNT + [name] + ["system"])]) +
            Layers(tmp, rest)
  {
    LayersSplit(tmp, front + [name], rest);
    assert (front + [name])[..|front|] == front;
  }

  lemma {:induction false} LayersSplit(tmp: Tree, a: seq<Name>, b: seq<Name>)
    ensures Layers(tmp, a + b) == Layers(tmp, a) + Layers(tmp, b)
    decreases |b|
  {
    if b == [] {
      assert a + b == a;
    } else {
      assert (a + b)[..|a + b| - 1] == a + b[..|b| - 1];
      LayersSplit(tmp, a, b[..|b| - 1]);
    }
  }

  /** A module that is to be skipped leaves the whole virtual tree as it would be without it. */
  lemma {:induction false} SkippedAddsNothing(tmp: Tree, front: seq<Name>, name: Name, rest: seq<Name>, x: Injection)
    requires At(tmp, MODULEMNT + [name] + ["skip_mount"]).Some?
    ensures Virtual(tmp, front + [name] + rest, x) == Virtual(tmp, front + rest, x)
  {
    ModuleCounts(tmp, front, name, rest);
    LayersSplit(tmp, front, rest);
    assert Layers(tmp, front) + [] == Layers(tmp, front);
  }

  /** What the first module that still counts has at the path, where that is no directory. */
  function Decider(layers: seq<Layer>, p: Path): Option<Layer>
    decreases |p|
  {
    if p == [] then None
    else
      var first := First(layers, p[0]);
      if first.None? then None
      else if first.value.raw.Dir? then Decider(Below(layers, p[0]), p[1..])
      else if |p| == 1 then first else None
  }

  lemma {:induction false} FirstInPlace(tmp: Tree, layers: seq<Layer>, n: Name)
    requires InPlace(tmp, layers)
    ensures First(layers, n).Some? ==> At(tmp, First(layers, n).value.src) == Some(First(layers, n).value.raw)
    ensures InPlace(tmp, Below(layers, n))
  {
    if layers != [] {
      assert At(tmp, layers[0].src) == Some(layers[0].raw);
      AtChild(tmp, layers[0].src, n);
      FirstInPlace(tmp, layers[1..], n);
    }
  }

  lemma {:induction false} DeciderIs(tmp: Tree, layers: seq<Layer>, p: Path)
    requires InPlace(tmp, layers) && Decider(layers, p).Some?
    ensures var d := Decider(layers, p).value;
            && !d.raw.Dir? && At(tmp, d.src) == Some(d.raw)
            && NodeAt(GatherAll(layers), p) == Some(Leaf(d.raw, d.src))
    decreases |p|
  {
    FirstInPlace(tmp, layers, p[0]);
    CollectedNameByName(layers, p[0]);
    if First(layers, p[0]).value.raw.Dir? {
      DeciderIs(tmp, Below(layers, p[0]), p[1..]);
    } else {
      assert p[1..] == [];
    }
  }

  lemma {:induction false} LeafAlike(v: Node, p: Path)
    requires NodeUnder(v, p).Some?
    ensures NodeUnder(v, p) == NodeAt(v, p)
    decreases |p|
  {
    if p != [] {
      LeafAlike(v.nodes[p[0]], p[1..]);
    }
  }

  /**
   * A file or link of the module that decides on a path is what the path shows, and a whiteout
   * there makes it vanish, unless a replaced directory lies above.
   */
  lemma {:induction false} FirstModuleShows(e: Env, layers: seq<Layer>, here: Option<Tree>, path: Path, p: Path)
    requires InPlace(e.modules, layers) && Decider(layers, p).Some? && NodeUnder(GatherAll(layers), p).Some?
    ensures var entry := Decider(layers, p).value.raw;
            At(Overlay(e, GatherAll(layers), here, path).value, p) ==
            if entry.File? && entry.whiteout then None else Some(entry)
  {
    DeciderIs(e.modules, layers, p);
    LeafAlike(GatherAll(layers), p);
    NodeShows(e, GatherAll(layers), here, path, p);
  }

  // ---------------------------------------------------------------------
  // Injected files
  // ---------------------------------------------------------------------

  const BIN: Name := "bin"

  const BINS: map<Name, Node> :=
    map["magisk" := VFile(["magisk"]), "magiskpolicy" := VFile(["magiskpolicy"]),
        "su" := MagiskLink, "resetprop" := MagiskLink, "supolicy" := MagiskLink]

  /** No node on the way is anything but a directory. */
  predicate Passable(v: Node, p: Path)
    decreases |p|
  {
    v.VDir? && (p == [] || p[0] !in v.nodes || Passable(v.nodes[p[0]], p[1..]))
  }

  /** The directories on the way are made where they are missing; nodes with the same names are overwritten. */
  function Inserted(v: Node, p: Path, more: map<Name, Node>): (r: Node)
    requires Passable(v, p)
    ensures r.VDir?
    decreases |p|
  {
    if p == [] then VDir(v.nodes + more)
    else VDir(v.nodes[p[0] := Inserted(if p[0] in v.nodes then v.nodes[p[0]] else VDir(map[]), p[1..], more)])
  }

  function InsertedIf(v: Node, p: Path, more: map<Name, Node>): Node {
    if Passable(v, p) then Inserted(v, p, more) else v
  }

  /** The first candidate that can be reached, else the default. */
  function Chosen(v: Node, candidates: seq<Path>): Path {
    if candidates == [] then [BIN]
    else if Passable(v, candidates[0]) then candidates[0]
    else Chosen(v, candidates[1..])
  }

  /** The candidates of the search path in the order they are tried. */
  function Tried(items: seq<Item>, emulator: bool): seq<Path> {
    PathsOf(SortByFiles(Candidates(items, emulator, 0)))
  }

  method InjectMagiskBins(v: Node, items: seq<Item>, emulator: bool) returns (r: Node)
    requires v.VDir?
    ensures r.VDir? && r == InsertedIf(v, Chosen(v, Tried(items, emulator)), BINS)
  {
    var found := CollectCandidates(items, emulator);
    r := InjectInto(v, PathsOf(SortByFiles(found)));
  }

  predicate Reaches(v: Node, c: Candidate) {
    Passable(v, Components(c.path))
  }

  /** The one with the fewest files among those that can be reached, the earliest of them. */
  predicate Best(v: Node, cs: seq<Candidate>, i: nat) {
    && i < |cs| && Reaches(v, cs[i])
    && (forall j :: 0 <= j < |cs| && Reaches(v, cs[j]) ==> cs[i].files <= cs[j].files)
    && (forall j :: 0 <= j < i && Reaches(v, cs[j]) ==> cs[i].files < cs[j].files)
  }

  function FirstReached(v: Node, cs: seq<Candidate>): Option<Candidate> {
    if cs == [] then None else if Reaches(v, cs[0]) then Some(cs[0]) else FirstReached(v, cs[1..])
  }

  lemma {:induction false} ChosenIsFirst(v: Node, cs: seq<Candidate>)
    ensures Chosen(v, PathsOf(cs)) ==
            if FirstReached(v, cs).Some? then Components(FirstReached(v, cs).value.path) else [BIN]
  {
    if cs != [] {
      ChosenIsFirst(v, cs[1..]);
      assert PathsOf(cs)[1..] == PathsOf(cs[1..]);
    }
  }

  lemma {:induction false} FirstIsLeast(v: Node, cs: seq<Candidate>)
    requires Ordered(cs) && FirstReached(v, cs).Some?
    ensures FirstReached(v, cs).value in cs && Reaches(v, FirstReached(v, cs).value)
    ensures forall i :: 0 <= i < |cs| && Reaches(v, cs[i]) ==> FirstReached(v, cs).value.files <= cs[i].files
  {
    if !Reaches(v, cs[0]) {
      FirstIsLeast(v, cs[1..]);
      assert forall i :: 1 <= i < |cs| ==> cs[i] == cs[1..][i - 1];
    }
  }

  lemma {:induction false} PlacedFirst(v: Node, c: Candidate, cs: seq<Candidate>)
    requires Ordered(cs)
    ensures FirstReached(v, Place(c, cs)) ==
            var b := FirstReached(v, cs);
            if Reaches(v, c) && (b.None? || c.files <= b.value.files) then Some(c) else b
  {
    if cs == [] || c.files <= cs[0].files {
      assert ([c] + cs)[1..] == cs;
      if FirstReached(v, cs).Some? {
        FirstIsLeast(v, cs);
      }
    } else {
      PlacedFirst(v, c, cs[1..]);
      assert ([cs[0]] + Place(c, cs[1..]))[1..] == Place(c, cs[1..]);
    }
  }

  /** Behind the sort the first candidate that can be reached is the best one. */
  lemma {:induction false} SortedFirstIsBest(v: Node, cs: seq<Candidate>) returns (i: nat)
    ensures var b := FirstReached(v, SortByFiles(cs));
            if b.Some? then Best(v, cs, i) && b.value == cs[i] else forall j :: 0 <= j < |cs| ==> !Reaches(v, cs[j])
  {
    i := 0;
    if cs != [] {
      var rest := cs[1..];
      var k := SortedFirstIsBest(v, rest);
      SortIsOrdered(rest);
      PlacedFirst(v, cs[0], SortByFiles(rest));
      var b := FirstReached(v, SortByFiles(rest));
      if Reaches(v, cs[0]) && (b.None? || cs[0].files <= b.value.files) {
        FrontIsBest(v, cs, k, b.None?);
      } else if b.Some? {
        i := k + 1;
        LaterIsBest(v, cs, k);
      }
    }
  }

  lemma {:induction false} FrontIsBest(v: Node, cs: seq<Candidate>, k: nat, alone: bool)
    requires cs != [] && Reaches(v, cs[0])
    requires if alone then forall j :: 0 <= j < |cs[1..]| ==> !Reaches(v, cs[1..][j])
             else Best(v, cs[1..], k) && cs[0].files <= cs[1..][k].files
    ensures Best(v, cs, 0)
  {
    forall j | 0 <= j < |cs| && Reaches(v, cs[j]) ensures cs[0].files <= cs[j].files {
      if j > 0 {
        assert cs[1..][j - 1] == cs[j];
      }
    }
  }

  lemma {:induction false} LaterIsBest(v: Node, cs: seq<Candidate>, k: nat)
    requires cs != [] && Best(v, cs[1..], k) && (Reaches(v, cs[0]) ==> cs[1..][k].files < cs[0].files)
    ensures Best(v, cs, k + 1)
  {
    forall j | 0 <= j < |cs| && Reaches(v, cs[j])
      ensures cs[k + 1].files <= cs[j].files && (j < k + 1 ==> cs[k + 1].files < cs[j].files)
    {
      if j > 0 {
        assert cs[1..][j - 1] == cs[j];
      }
    }
  }

  /** The binaries go to the best candidate of the search path, and to the default where none can be reached. */
  lemma {:induction false} BinsGoToBest(v: Node, items: seq<Item>, emulator: bool, i: nat)
    ensures var cs := Candidates(items, emulator, 0);
            && (Best(v, cs, i) ==> Chosen(v, Tried(items, emulator)) == Components(cs[i].path))
            && ((forall j :: 0 <= j < |cs| ==> !Reaches(v, cs[j])) ==> Chosen(v, Tried(items, emulator)) == [BIN])
  {
    var cs := Candidates(items, emulator, 0);
    ChosenIsFirst(v, SortByFiles(cs));
    var k := SortedFirstIsBest(v, cs);
  }

  /**
   * A directory that has su is to be overridden first. It is the last candidate, and it is the
   * best one exactly when it can be reached and no earlier one that can be reached is empty.
   */
  lemma {:induction false} SuWinsIff(v: Node, items: seq<Item>, emulator: bool, k: nat)
    requires k < |items| && items[k].su && Suitable(items[k].path, emulator)
    requires forall j :: 0 <= j < k && Suitable(items[j].path, emulator) ==> !items[j].su
    ensures var cs := Candidates(items, emulator, 0);
            && cs != [] && cs[|cs| - 1] == Candidate(Stripped(items[k].path), 0)
            && (Best(v, cs, |cs| - 1) <==>
                Reaches(v, cs[|cs| - 1]) && forall j :: 0 <= j < |cs| - 1 && Reaches(v, cs[j]) ==> cs[j].files != 0)
  {
    SuIsLast(items, emulator, k, 0);
  }

  lemma {:induction false} SuIsLast(items: seq<Item>, emulator: bool, k: nat, i: nat)
    requires i <= k < |items| && items[k].su && Suitable(items[k].path, emulator)
    requires forall j :: 0 <= j < k && Suitable(items[j].path, emulator) ==> !items[j].su
    ensures var cs := Candidates(items, emulator, i);
            cs != [] && cs[|cs| - 1] == Candidate(Stripped(items[k].path), 0)
    decreases k - i
  {
    if i < k {
      SuIsLast(items, emulator, k, i + 1);
    }
  }

  /** An empty directory in front of one that has su gets the binaries. */
  lemma {:induction false} EmptyDirectoryWins(v: Node, a: Name, b: Name)
    requires PlainName(a) && PlainName(b) && a != b && Passable(v, [a])
    ensures var items := [Item(SYSTEM_PREFIX + a, false, Some(0)), Item(SYSTEM_PREFIX + b, true, None)];
            && Chosen(v, Tried(items, false)) == [a] != Components(Stripped(items[1].path))
            && Suitable(items[1].path, false)
  {
    SystemDirectory(a);
    SystemDirectory(b);
    SystemIsSuitable(a);
    SystemIsSuitable(b);
    TwoItems(SYSTEM_PREFIX + a, SYSTEM_PREFIX + b, v);
  }

  lemma {:induction false} TwoItems(a: string, b: string, v: Node)
    requires Suitable(a, false) && Suitable(b, false) && Passable(v, Components(Stripped(a)))
    ensures Chosen(v, Tried([Item(a, false, Some(0)), Item(b, true, None)], false)) == Components(Stripped(a))
  {
    var items := [Item(a, false, Some(0)), Item(b, true, None)];
    assert Candidates(items, false, 1) == [Candidate(Stripped(b), 0)];
    var cs := Candidates(items, false, 0);
    assert cs == [Candidate(Stripped(a), 0), Candidate(Stripped(b), 0)];
    assert Best(v, cs, 0);
    BinsGoToBest(v, items, false, 0);
  }

  method InjectInto(v: Node, candidates: seq<Path>) returns (r: Node)
    requires v.VDir?
    ensures r.VDir? && r == InsertedIf(v, Chosen(v, candidates), BINS)
  {
    var i := 0;
    while i < |candidates|
      invariant 0 <= i <= |candidates| && Chosen(v, candidates) == Chosen(v, candidates[i..])
    {
      assert candidates[i..][1..] == candidates[i + 1..];
      if Passable(v, candidates[i]) {
        return Inserted(v, candidates[i], BINS);
      }
      i := i + 1;
    }
    r := if Passable(v, [BIN]) then Inserted(v, [BIN], BINS) else v;
  }

  /** What is injected is there, whatever the modules have. */
  lemma {:induction false} InjectedIsThere(v: Node, p: Path, more: map<Name, Node>, n: Name)
    requires Passable(v, p) && n in more
    ensures NodeAt(Inserted(v, p, more), p + [n]) == Some(more[n])
    decreases |p|
  {
    if p == [] {
      assert [n][1..] == [];
    } else {
      assert (p + [n])[0] == p[0] && (p + [n])[1..] == p[1..] + [n];
      InjectedIsThere(if p[0] in v.nodes then v.nodes[p[0]] else VDir(map[]), p[1..], more, n);
    }
  }

  /** The path is, or lies below, one of the injected names. */
  predicate Hits(p: Path, more: map<Name, Node>, q: Path) {
    |q| > |p| && q[..|p|] == p && q[|p|] in more
  }

  lemma {:induction false} HitsBelow(p: Path, more: map<Name, Node>, q: Path)
    requires p != [] && q != [] && p[0] == q[0]
    ensures Hits(p[1..], more, q[1..]) <==> Hits(p, more, q)
  {
    if |q| > |p| {
      assert q[..|p|] == [q[0]] + q[1..][..|p| - 1] && p == [p[0]] + p[1..];
      assert (q[..|p|])[1..] == q[1..][..|p| - 1];
    }
  }

  /** No other file, link or whiteout of the modules is touched. */
  lemma {:induction false} InjectionKeepsRest(v: Node, p: Path, more: map<Name, Node>, q: Path)
    requires Passable(v, p) && !Hits(p, more, q) && NodeAt(v, q).Some? && !NodeAt(v, q).value.VDir?
    ensures NodeAt(Inserted(v, p, more), q) == NodeAt(v, q)
    decreases |p|
  {
    if p == [] {
      assert q[..0] == p;
    } else if q[0] == p[0] {
      HitsBelow(p, more, q);
      InjectionKeepsRest(v.nodes[p[0]], p[1..], more, q[1..]);
    }
  }

  lemma {:induction false} InsertedSourced(tmp: Tree, v: Node, p: Path, more: map<Name, Node>)
    requires Passable(v, p) && Sourced(tmp, v) && Sourced(tmp, VDir(more))
    ensures Sourced(tmp, Inserted(v, p, more))
    decreases |p|
  {
    if p != [] {
      InsertedSourced(tmp, if p[0] in v.nodes then v.nodes[p[0]] else VDir(map[]), p[1..], more);
    }
  }

  /** The library directories to inject into, and the file to put there where it exists. */
  datatype Library = Library(dir: Name, src: Option<Path>)

  function LibraryNodes(lib: Name, l: Library): map<Name, Node> {
    if l.src.Some? then map[lib := VFile(l.src.value)] else map[]
  }

  function InjectedLibraries(v: Node, lib: Name, libs: seq<Library>): (r: Node)
    requires v.VDir?
    ensures r.VDir?
  {
    if libs == [] then v
    else
      var last := libs[|libs| - 1];
      InsertedIf(InjectedLibraries(v, lib, libs[..|libs| - 1]), [last.dir], LibraryNodes(lib, last))
  }

  method InjectZygiskBins(v: Node, lib: Name, libs: seq<Library>) returns (r: Node)
    requires v.VDir?
    ensures r.VDir? && r == InjectedLibraries(v, lib, libs)
  {
    r := v;
    for i := 0 to |libs|
      invariant r.VDir? && r == InjectedLibraries(v, lib, libs[..i])
    {
      assert libs[..i + 1][..i] == libs[..i];
      if Passable(r, [libs[i].dir]) {
        r := Inserted(r, [libs[i].dir], LibraryNodes(lib, libs[i]));
      }
    }
    assert libs[..|libs|] == libs;
  }

  /** The build, and the linkers of the device. */
  datatype Device = Device(is64: bool, linker: bool, linker64: bool)

  /** The 32-bit library is checked for, the 64-bit one is not. */
  function Libraries(tmp: Tree, dev: Device): seq<Library> {
    var bin32 := if dev.is64 then ["magisk32"] else ["magisk"];
    (if !dev.is64 || dev.linker then [Library("lib", if At(tmp, bin32).Some? then Some(bin32) else None)] else [])
    + (if dev.is64 && dev.linker64 then [Library("lib64", Some(["magisk"]))] else [])
  }

  predicate CanHold(v: Node, dir: Name)
    requires v.VDir?
  {
    dir in v.nodes ==> v.nodes[dir].VDir?
  }

  lemma {:induction false} TwoDown(v: Node, a: Name, b: Name)
    ensures NodeAt(v, [a, b]) ==
            if v.VDir? && a in v.nodes && v.nodes[a].VDir? && b in v.nodes[a].nodes then Some(v.nodes[a].nodes[b])
            else None
  {
    assert [a, b][1..] == [b] && [b][1..] == [];
    if v.VDir? && a in v.nodes {
      assert NodeAt(v, [a, b]) == NodeAt(v.nodes[a], [b]);
      assert v.nodes[a].VDir? && b in v.nodes[a].nodes ==>
        NodeAt(v.nodes[a], [b]) == NodeAt(v.nodes[a].nodes[b], []);
    }
  }

  lemma {:induction false} InsertedOne(v: Node, dir: Name, more: map<Name, Node>)
    requires v.VDir?
    ensures InsertedIf(v, [dir], more) ==
            if !CanHold(v, dir) then v
            else VDir(v.nodes[dir := VDir((if dir in v.nodes then v.nodes[dir].nodes else map[]) + more)])
  {
    assert [dir][1..] == [];
    assert Passable(v, [dir]) <==> CanHold(v, dir) by {
      assert dir in v.nodes ==> (Passable(v.nodes[dir], []) <==> v.nodes[dir].VDir?);
    }
    if CanHold(v, dir) {
      var kid := if dir in v.nodes then v.nodes[dir] else VDir(map[]);
      assert Inserted(kid, [], more) == VDir(kid.nodes + more);
      assert Inserted(v, [dir], more) == VDir(v.nodes[dir := Inserted(kid, [], more)]);
    }
  }

  lemma {:induction false} InsertedAt(v: Node, dir: Name, more: map<Name, Node>, other: Name, n: Name)
    requires v.VDir?
    ensures var r := InsertedIf(v, [dir], more);
            && r.VDir? && (forall d :: d != dir ==> Have(r, d) == Have(v, d))
            && NodeAt(r, [other, n]) == if other == dir && CanHold(v, dir) && n in more then Some(more[n])
                                        else NodeAt(v, [other, n])
  {
    InsertedOne(v, dir, more);
    TwoDown(InsertedIf(v, [dir], more), other, n);
    TwoDown(v, other, n);
  }

  /**
   * The library of a 64-bit build goes into lib64 where there is a 64-bit linker, and its 32-bit one into
   * lib where there is a linker and the file; a 32-bit build only has the latter. All else there stays.
   */
  lemma {:induction false} LibrariesShow(tmp: Tree, v: Node, lib: Name, dev: Device, n: Name)
    requires v.VDir?
    ensures var r := InjectedLibraries(v, lib, Libraries(tmp, dev));
            && NodeAt(r, ["lib64", n]) ==
               (if n == lib && dev.is64 && dev.linker64 && CanHold(v, "lib64") then Some(VFile(["magisk"]))
                else NodeAt(v, ["lib64", n]))
            && NodeAt(r, ["lib", n]) ==
               (if n == lib && dev.is64 && dev.linker && At(tmp, ["magisk32"]).Some? && CanHold(v, "lib") then
                  Some(VFile(["magisk32"]))
                else if n == lib && !dev.is64 && At(tmp, ["magisk"]).Some? && CanHold(v, "lib") then
                  Some(VFile(["magisk"]))
                else NodeAt(v, ["lib", n]))
  {
    assert |"lib"| != |"lib64"|;
    var libs := Libraries(tmp, dev);
    assert forall k :: 0 <= k < |libs| ==> libs[..k + 1][..k] == libs[..k];
    var a, b := InjectedLibraries(v, lib, libs[..0]), if |libs| > 0 then InjectedLibraries(v, lib, libs[..1]) else v;
    assert a == v && libs[..|libs|] == libs;
    if |libs| > 0 {
      assert libs[..1] == [libs[0]] && [libs[0]][..0] == [];
      InsertedAt(v, libs[0].dir, LibraryNodes(lib, libs[0]), "lib64", n);
      InsertedAt(v, libs[0].dir, LibraryNodes(lib, libs[0]), "lib", n);
    }
    if |libs| > 1 {
      InsertedAt(b, libs[1].dir, LibraryNodes(lib, libs[1]), "lib64", n);
      InsertedAt(b, libs[1].dir, LibraryNodes(lib, libs[1]), "lib", n);
      assert Have(b, "lib64") == Have(v, "lib64");
    }
  }

  /** What is injected: the binaries, unless they are on the search path already, and the library, if enabled. */
  datatype Injection = Injection(items: Option<seq<Item>>, emulator: bool, lib: Option<Name>, dev: Device)

  function LibrariesOf(tmp: Tree, x: Injection): seq<Library> {
    if x.lib.Some? then Libraries(tmp, x.dev) else []
  }

  function LibName(x: Injection): Name {
    if x.lib.Some? then x.lib.value else ""
  }

  /** The files to inject exist. */
  ghost predicate Shipped(tmp: Tree, x: Injection) {
    && (x.items.Some? ==> Sourced(tmp, VDir(BINS)))
    && forall i :: 0 <= i < |LibrariesOf(tmp, x)| ==>
         Sourced(tmp, VDir(LibraryNodes(LibName(x), LibrariesOf(tmp, x)[i])))
  }

  function WithBins(v: Node, x: Injection): (r: Node)
    requires v.VDir?
    ensures r.VDir?
  {
    if x.items.Some? then InsertedIf(v, Chosen(v, Tried(x.items.value, x.emulator)), BINS) else v
  }

  /** The whole virtual tree. */
  function Virtual(tmp: Tree, names: seq<Name>, x: Injection): (r: Node)
    ensures r.VDir?
  {
    InjectedLibraries(WithBins(GatherAll(Layers(tmp, names)), x), LibName(x), LibrariesOf(tmp, x))
  }

  lemma {:induction false} LibrariesSourced(tmp: Tree, v: Node, lib: Name, libs: seq<Library>)
    requires v.VDir? && Sourced(tmp, v)
    requires forall i :: 0 <= i < |libs| ==> Sourced(tmp, VDir(LibraryNodes(lib, libs[i])))
    ensures Sourced(tmp, InjectedLibraries(v, lib, libs))
  {
    if libs != [] {
      var front, last := libs[..|libs| - 1], libs[|libs| - 1];
      LibrariesSourced(tmp, v, lib, front);
      var w := InjectedLibraries(v, lib, front);
      if Passable(w, [last.dir]) {
        InsertedSourced(tmp, w, [last.dir], LibraryNodes(lib, last));
      }
    }
  }

  lemma {:induction false} VirtualSourced(tmp: Tree, names: seq<Name>, x: Injection)
    requires Shipped(tmp, x)
    ensures Sourced(tmp, Virtual(tmp, names, x))
  {
    var v := GatherAll(Layers(tmp, names));
    LayersInPlace(tmp, names);
    CollectedSourced(tmp, Layers(tmp, names));
    if x.items.Some? && Passable(v, Chosen(v, Tried(x.items.value, x.emulator))) {
      InsertedSourced(tmp, v, Chosen(v, Tried(x.items.value, x.emulator)), BINS);
    }
    LibrariesSourced(tmp, WithBins(v, x), LibName(x), LibrariesOf(tmp, x));
  }

  // ---------------------------------------------------------------------
  // All steps
  // ---------------------------------------------------------------------

  /** Injecting makes no file of a partition. */
  lemma {:induction false} InsertedPartitions(v: Node, p: Path, more: map<Name, Node>, n: Name)
    requires Passable(v, p) && n !in more && n in Inserted(v, p, more).nodes
    ensures Inserted(v, p, more).nodes[n].VDir? || (n in v.nodes && Inserted(v, p, more).nodes[n] == v.nodes[n])
  {
  }

  lemma {:induction false} LibraryPartitions(v: Node, lib: Name, libs: seq<Library>, n: Name)
    requires v.VDir? && n in InjectedLibraries(v, lib, libs).nodes
    ensures var node := InjectedLibraries(v, lib, libs).nodes[n];
            node.VDir? || (n in v.nodes && node == v.nodes[n])
  {
    if libs != [] {
      var w := InjectedLibraries(v, lib, libs[..|libs| - 1]);
      if n in w.nodes {
        LibraryPartitions(v, lib, libs[..|libs| - 1], n);
      }
    }
  }

  lemma {:induction false} NoBinIsPartition()
    ensures forall n :: n in SECONDARY ==> n !in BINS
  {
    assert "vendor"[0] == 'v' && "product"[0] == 'p' && |"system_ext"| == 10;
    assert "magisk"[0] == 'm' && "magiskpolicy"[0] == 'm' && |"su"| == 2 && "resetprop"[0] == 'r' && |"supolicy"| == 8;
  }

  /** A partition is a file only where a module has a file for it. */
  lemma {:induction false} VirtualPartitions(e: Env, names: seq<Name>, x: Injection)
    ensures PartitionsFit(e, SECONDARY, Virtual(e.modules, names, x).nodes)
  {
    var v := GatherAll(Layers(e.modules, names));
    LayersInPlace(e.modules, names);
    CollectedSourced(e.modules, Layers(e.modules, names));
    NoBinIsPartition();
    forall n | n in SECONDARY && n in Virtual(e.modules, names, x).nodes
      ensures FileOrDir(e, Virtual(e.modules, names, x).nodes[n])
    {
      LibraryPartitions(WithBins(v, x), LibName(x), LibrariesOf(e.modules, x), n);
      if x.items.Some? && n in WithBins(v, x).nodes && Passable(v, Chosen(v, Tried(x.items.value, x.emulator))) {
        InsertedPartitions(v, Chosen(v, Tried(x.items.value, x.emulator)), BINS, n);
      }
      if n in v.nodes {
        assert Sourced(e.modules, v.nodes[n]);
      }
    }
  }

  /** Collects the modules, injects, splits the partitions off and commits them. */
  method ApplyModules(m: Mounts, names: seq<Name>, x: Injection)
    requires m.live.Dir? && SYSTEM in m.live.children && m.live.children[SYSTEM].Dir?
    requires m.worker == EMPTY_DIR
    modifies m
    ensures var system := Virtual(m.e.modules, names, x).nodes;
            m.live == Mixed(m.e, FilteredRoots(SECONDARY, system, old(m.live)), old(m.live), [],
                            Roots(SECONDARY, system, old(m.live)).Keys)
    ensures LandsWithin(old(m.log), m.log)
  {
    var v := CollectAll(m.e.modules, names);
    if x.items.Some? {
      v := InjectMagiskBins(v, x.items.value, x.emulator);
    }
    if x.lib.Some? {
      v := InjectZygiskBins(v, x.lib.value, Libraries(m.e.modules, x.dev));
    }
    VirtualPartitions(m.e, names, x);
    m.HandleModules(v.nodes);
  }

  /**
   * From the list of modules to what is visible: every partition shows the overlay of the
   * collected and injected tree exactly when, wherever the engine mounts in place, files
   * lie over files, directories over directories, and missing files over empty ones.
   */
  lemma {:induction false} ModuleListShowsOverlayIff(e: Env, names: seq<Name>, x: Injection, rootdir: Tree)
    requires rootdir.Dir? && SYSTEM in rootdir.children && rootdir.children[SYSTEM].Dir?
    ensures var system := Virtual(e.modules, names, x).nodes;
            var nodes := FilteredRoots(SECONDARY, system, rootdir);
            Mixed(e, nodes, rootdir, [], Roots(SECONDARY, system, rootdir).Keys) == Overlaid(e, nodes, rootdir)
            <==> forall n :: n in nodes ==> Compatible(e, nodes[n], rootdir.children[n])
  {
    assert SYSTEM[0] != SECONDARY[0][0] && SYSTEM[0] != SECONDARY[1][0] && |SYSTEM| != |SECONDARY[2]|;
    ModulesShowOverlayIff(e, SECONDARY, Virtual(e.modules, names, x).nodes, rootdir);
  }

  /** With the injected files there, no file is missing and the kinds alone decide. */
  lemma {:induction false} ShippedIsByKind(e: Env, names: seq<Name>, x: Injection, rootdir: Tree, n: Name)
    requires rootdir.Dir? && n in rootdir.children && Shipped(e.modules, x)
    requires n in FilteredRoots(SECONDARY, Virtual(e.modules, names, x).nodes, rootdir)
    ensures var node := FilteredRoots(SECONDARY, Virtual(e.modules, names, x).nodes, rootdir)[n];
            Compatible(e, node, rootdir.children[n]) <==> KindsAgree(node, rootdir.children[n])
  {
    var system := Virtual(e.modules, names, x).nodes;
    VirtualSourced(e.modules, names, x);
    assert Virtual(e.modules, names, x) == VDir(system);
    RootsSourced(e.modules, SECONDARY, system, rootdir, n);
    CompatibleIsByKind(e, FilteredRoots(SECONDARY, system, rootdir)[n], rootdir.children[n]);
  }
}
