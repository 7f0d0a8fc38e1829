/**
 * The module overlay engine of native/src/core/module.rs. A virtual tree collected
 * from the modules is turned into mounts: directories that need it are rebuilt in a
 * worker tree, which is then mounted over the real directory; all other files are
 * mounted in place.
 */
module Overlays {
  import opened Options

  type Name = string
  type Path = seq<Name>

  /** A visible file tree; a whiteout is the character device 0:0. */
  datatype Tree = File(content: string, whiteout: bool) | Link(target: string) | Dir(children: map<Name, Tree>)

  datatype Node = VDir(nodes: map<Name, Node>) | VFile(src: Path) | VLink(target: string) | MagiskLink | Whiteout

  /**
   * The tree the modules are mounted at, what opening a real symlink as a directory lists,
   * and where the symlinks of the modules lead, as far as they lead anywhere.
   */
  datatype Env = Env(modules: Tree, follow: map<Path, map<Name, Tree>>, links: map<Path, Tree>)

  const REPLACE: Name := ".replace"
  const PRIORITY: Name := "framework"
  const SYSTEM: Name := "system"
  const SECONDARY: seq<Name> := ["vendor", "product", "system_ext"]
  const EMPTY_DIR: Tree := Dir(map[])
  const EMPTY_FILE: Tree := File("", false)

  // ---------------------------------------------------------------------
  // Trees and paths
  // ---------------------------------------------------------------------

  function Kids(t: Tree): map<Name, Tree> {
    if t.Dir? then t.children else map[]
  }

  function Child(kids: map<Name, Tree>, n: Name): Option<Tree> {
    if n in kids then Some(kids[n]) else None
  }

  function At(t: Tree, p: Path): Option<Tree>
    decreases |p|
  {
    if p == [] then Some(t)
    else if p[0] in Kids(t) then At(Kids(t)[p[0]], p[1..])
    else None
  }

  function KidOrNew(t: Tree, n: Name): Tree {
    if n in Kids(t) then Kids(t)[n] else EMPTY_DIR
  }

  /** The tree with `x` at `p`; directories on the way are made where they are missing. */
  function Put(t: Tree, p: Path, x: Tree): Tree
    decreases |p|
  {
    if p == [] then x
    else Dir(Kids(t)[p[0] := Put(KidOrNew(t, p[0]), p[1..], x)])
  }

  lemma {:induction false} AtPut(t: Tree, p: Path, x: Tree, n: Name)
    ensures At(Put(t, p, x), p) == Some(x)
    ensures At(Put(t, p, x), p + [n]) == Child(Kids(x), n)
    decreases |p|
  {
    if p == [] {
      assert ([n])[1..] == [];
    } else {
      AtPut(KidOrNew(t, p[0]), p[1..], x, n);
      assert (p + [n])[0] == p[0] && (p + [n])[1..] == p[1..] + [n];
    }
  }

  lemma {:induction false} AtChild(t: Tree, p: Path, n: Name)
    requires At(t, p).Some?
    ensures At(t, p + [n]) == Child(Kids(At(t, p).value), n)
    decreases |p|
  {
    if p == [] {
      assert ([n])[1..] == [];
    } else {
      AtChild(Kids(t)[p[0]], p[1..], n);
      assert (p + [n])[0] == p[0] && (p + [n])[1..] == p[1..] + [n];
    }
  }

  lemma {:induction false} AbsentBelow(t: Tree, p: Path, n: Name)
    requires At(t, p).None?
    ensures At(t, p + [n]).None?
    decreases |p|
  {
    assert (p + [n])[0] == p[0] && (p + [n])[1..] == p[1..] + [n];
    if p[0] in Kids(t) {
      AbsentBelow(Kids(t)[p[0]], p[1..], n);
    }
  }

  lemma {:induction false} PutSame(t: Tree, p: Path)
    requires At(t, p).Some?
    ensures Put(t, p, At(t, p).value) == t
    decreases |p|
  {
    if p != [] {
      PutSame(Kids(t)[p[0]], p[1..]);
    }
  }

  lemma {:induction false} PutTwice(t: Tree, p: Path, x: Tree, y: Tree)
    ensures Put(Put(t, p, x), p, y) == Put(t, p, y)
    decreases |p|
  {
    if p != [] {
      PutTwice(KidOrNew(t, p[0]), p[1..], x, y);
    }
  }

  /** Putting a child of a directory is putting the directory with that child. */
  lemma {:induction false} PutChild(t: Tree, p: Path, kids: map<Name, Tree>, n: Name, x: Tree)
    ensures Put(Put(t, p, Dir(kids)), p + [n], x) == Put(t, p, Dir(kids[n := x]))
    decreases |p|
  {
    if p == [] {
      assert ([n])[1..] == [];
    } else {
      PutChild(KidOrNew(t, p[0]), p[1..], kids, n, x);
      assert (p + [n])[0] == p[0] && (p + [n])[1..] == p[1..] + [n];
    }
  }

  /** The paths part ways at some name. */
  ghost predicate Beside(p: Path, q: Path) {
    exists i :: 0 <= i < |p| && i < |q| && p[i] != q[i]
  }

  lemma {:induction false} SiblingsBeside(p: Path, m: Name, n: Name)
    requires m != n
    ensures Beside(p + [m], p + [n])
  {
    assert (p + [m])[|p|] == m && (p + [n])[|p|] == n;
  }

  lemma {:induction false} BesideBelow(p: Path, n: Name, q: Path)
    requires Beside(p, q)
    ensures Beside(p + [n], q)
  {
    var i :| 0 <= i < |p| && i < |q| && p[i] != q[i];
    assert (p + [n])[i] == p[i];
  }

  /** Paths beside are left alone, also where the directories in between are made. */
  lemma {:induction false} PutBeside(t: Tree, p: Path, x: Tree, q: Path)
    requires Beside(p, q)
    ensures At(Put(t, p, x), q) == At(t, q)
    decreases |p|
  {
    var i :| 0 <= i < |p| && i < |q| && p[i] != q[i];
    if p[0] == q[0] {
      assert p[1..][i - 1] == p[i] && q[1..][i - 1] == q[i];
      PutBeside(KidOrNew(t, p[0]), p[1..], x, q[1..]);
    }
  }

  ghost predicate SameBeside(a: Tree, b: Tree, p: Path) {
    forall q :: Beside(p, q) ==> At(a, q) == At(b, q)
  }

  lemma {:induction false} SameBesideChild(a: Tree, b: Tree, c: Tree, p: Path, n: Name)
    requires SameBeside(a, b, p) && SameBeside(b, c, p + [n])
    ensures SameBeside(a, c, p)
    ensures forall m :: m != n ==> At(c, p + [m]) == At(b, p + [m])
  {
    forall q | Beside(p, q) ensures At(a, q) == At(c, q) {
      BesideBelow(p, n, q);
    }
    forall m | m != n ensures At(c, p + [m]) == At(b, p + [m]) {
      SiblingsBeside(p, n, m);
    }
  }

  ghost predicate Vacant(w: Tree, names: set<Name>) {
    forall n :: n in names ==> At(w, [n]) == None
  }

  lemma {:induction false} StillVacant(b: Tree, c: Tree, names: set<Name>, n: Name)
    requires Vacant(b, names) && SameBeside(b, c, [n])
    ensures Vacant(c, names - {n})
  {
    forall m | m in names - {n} ensures At(c, [m]) == None {
      SiblingsBeside([], n, m);
      assert [] + [n] == [n] && [] + [m] == [m];
    }
  }

  // ---------------------------------------------------------------------
  // What the modules ask for
  // ---------------------------------------------------------------------

  /** What a bind mount from this path of the modules takes; it follows a symlink. */
  function Source(e: Env, src: Path): Option<Tree> {
    var t := At(e.modules, src);
    if t.Some? && t.value.Link? then (if src in e.links then Some(e.links[src]) else None) else t
  }

  /** What a bind mount of `src` shows on a dummy of the given kind. */
  function Bound(src: Option<Tree>, dummy: Tree): Tree {
    if src.Some? && src.value.Dir? == dummy.Dir? then src.value else dummy
  }

  /** The directory holding the `.replace` file, where there is one. */
  function ReplaceDir(nodes: map<Name, Node>): Option<Path> {
    if REPLACE in nodes && nodes[REPLACE].VFile? && nodes[REPLACE].src != [] then
      Some(nodes[REPLACE].src[..|nodes[REPLACE].src| - 1])
    else None
  }

  function Listing(e: Env, here: Option<Tree>, path: Path): map<Name, Tree> {
    match here
    case Some(Dir(kids)) => kids
    case Some(Link(_)) => if path in e.follow then e.follow[path] else map[]
    case _ => map[]
  }

  function LinkTarget(path: Path): string {
    if path != [] && path[|path| - 1] == "supolicy" then "./magiskpolicy" else "./magisk"
  }

  function Somes(view: map<Name, Option<Tree>>): map<Name, Tree> {
    map n | n in view && view[n].Some? :: view[n].value
  }

  /**
   * The overlay of a virtual node on what is at the real path: module nodes win,
   * whiteouts vanish, and all else in the real directory stays.
   */
  function Overlay(e: Env, v: Node, here: Option<Tree>, path: Path): Option<Tree>
    decreases v, 1
  {
    match v
    case VDir(_) => Some(Dir(Somes(View(e, v, here, path))))
    case VFile(src) => Some(Bound(Source(e, src), EMPTY_FILE))
    case VLink(target) => Some(Link(target))
    case MagiskLink => Some(Link(LinkTarget(path)))
    case Whiteout => None
  }

  /** What each name in a virtual directory comes to. */
  function View(e: Env, v: Node, here: Option<Tree>, path: Path): map<Name, Option<Tree>>
    requires v.VDir?
    decreases v, 0
  {
    var dir := ReplaceDir(v.nodes);
    if dir.Some? then
      map n | n in v.nodes && n != REPLACE ::
        if v.nodes[n].VDir? then Some(Bound(Source(e, dir.value + [n]), EMPTY_DIR))
        else Overlay(e, v.nodes[n], None, path + [n])
    else
      var list := Listing(e, here, path);
      map n | n in list.Keys + (v.nodes.Keys - {REPLACE}) ::
        if n in v.nodes && n != REPLACE then Overlay(e, v.nodes[n], Child(list, n), path + [n])
        else Some(list[n])
  }

  // ---------------------------------------------------------------------
  // What the engine does where it mounts in place
  // ---------------------------------------------------------------------

  predicate ParentShouldBeTmpfs(v: Node, target: Option<Tree>) {
    (v.VDir? || v.VFile?) ==> target.None? || target.value.Link?
  }

  predicate Unfit(nodes: map<Name, Node>, kids: map<Name, Tree>, n: Name)
    requires n in nodes
  {
    n == REPLACE || ParentShouldBeTmpfs(nodes[n], Child(kids, n))
  }

  predicate NeedsTmpfs(nodes: map<Name, Node>, kids: map<Name, Tree>) {
    exists n :: n in nodes && Unfit(nodes, kids, n)
  }

  /** What a partition root cannot take is dropped. */
  function Kept(nodes: map<Name, Node>, kids: map<Name, Tree>): map<Name, Node> {
    map n | n in nodes && !Unfit(nodes, kids, n) :: nodes[n]
  }

  /** What is at the real path after a node is committed; mounts of the wrong kind fail. */
  function Committed(e: Env, v: Node, here: Tree, path: Path): Tree
    decreases v
  {
    match v
    case VDir(nodes) =>
      if NeedsTmpfs(nodes, Kids(here)) then
        if here.Dir? then Dir(Somes(View(e, v, Some(here), path))) else here
      else if here.Dir? then
        Dir(map n | n in here.children ::
              if n in nodes then Committed(e, nodes[n], here.children[n], path + [n]) else here.children[n])
      else here
    case VFile(src) =>
      var from := Source(e, src);
      if from.Some? && from.value.Dir? == here.Dir? then from.value else here
    case _ => here
  }

  // ---------------------------------------------------------------------
  // The two trees agree
  // ---------------------------------------------------------------------

  /** Every file node points at a file of the modules. */
  ghost predicate Sourced(modules: Tree, v: Node) {
    match v
    case VDir(nodes) => forall n :: n in nodes ==> Sourced(modules, nodes[n])
    case VFile(src) => At(modules, src).Some? && At(modules, src).value.File?
    case _ => true
  }

  /**
   * Where the engine mounts in place, files lie over files and directories over directories,
   * and a file node without a file behind it lies over an empty file.
   */
  ghost predicate Compatible(e: Env, v: Node, here: Tree) {
    match v
    case VDir(nodes) =>
      && here.Dir?
      && (!NeedsTmpfs(nodes, here.children) ==>
            forall n :: n in nodes ==> n in here.children && Compatible(e, nodes[n], here.children[n]))
    case VFile(src) =>
      var from := Source(e, src);
      if from.Some? && !from.value.Dir? then !here.Dir? else here == EMPTY_FILE
    case _ => true
  }

  /** The same for nodes that all have a file behind them. */
  ghost predicate KindsAgree(v: Node, here: Tree) {
    match v
    case VDir(nodes) =>
      && here.Dir?
      && (!NeedsTmpfs(nodes, here.children) ==>
            forall n :: n in nodes ==> n in here.children && KindsAgree(nodes[n], here.children[n]))
    case VFile(_) => !here.Dir?
    case _ => true
  }

  lemma {:induction false} CompatibleIsByKind(e: Env, v: Node, here: Tree)
    requires Sourced(e.modules, v)
    ensures Compatible(e, v, here) <==> KindsAgree(v, here)
    decreases v
  {
    if v.VDir? && here.Dir? {
      forall n | n in v.nodes && n in here.children
        ensures Compatible(e, v.nodes[n], here.children[n]) <==> KindsAgree(v.nodes[n], here.children[n])
      {
        CompatibleIsByKind(e, v.nodes[n], here.children[n]);
      }
    }
  }

  lemma {:induction false} CommittedIsOverlayIff(e: Env, v: Node, here: Tree, path: Path)
    requires (v.VDir? || v.VFile?) && !here.Link?
    ensures Some(Committed(e, v, here, path)) == Overlay(e, v, Some(here), path) <==> Compatible(e, v, here)
    decreases v
  {
    if v.VDir? && here.Dir? && !NeedsTmpfs(v.nodes, here.children) {
      forall n | n in v.nodes
        ensures n in here.children
        ensures Overlay(e, v.nodes[n], Some(here.children[n]), path + [n]).Some?
        ensures Some(Committed(e, v.nodes[n], here.children[n], path + [n])) ==
                Overlay(e, v.nodes[n], Some(here.children[n]), path + [n])
                <==> Compatible(e, v.nodes[n], here.children[n])
      {
        assert !Unfit(v.nodes, here.children, n);
        CommittedIsOverlayIff(e, v.nodes[n], here.children[n], path + [n]);
      }
      SameDirIff(e, v, here, path);
    }
  }

  lemma {:induction false} SameDirIff(e: Env, v: Node, here: Tree, path: Path)
    requires v.VDir? && here.Dir? && !NeedsTmpfs(v.nodes, here.children)
    requires forall n :: n in v.nodes ==>
      n in here.children && Overlay(e, v.nodes[n], Some(here.children[n]), path + [n]).Some?
    ensures Some(Committed(e, v, here, path)) == Overlay(e, v, Some(here), path) <==>
            forall n :: n in v.nodes ==>
              Some(Committed(e, v.nodes[n], here.children[n], path + [n])) ==
              Overlay(e, v.nodes[n], Some(here.children[n]), path + [n])
  {
    var a, b := Committed(e, v, here, path).children, Somes(View(e, v, Some(here), path));
    assert a.Keys == here.children.Keys == b.Keys;
    forall n | n in here.children
      ensures a[n] == if n in v.nodes then Committed(e, v.nodes[n], here.children[n], path + [n]) else here.children[n]
      ensures b[n] == if n in v.nodes then Overlay(e, v.nodes[n], Some(here.children[n]), path + [n]).value
                      else here.children[n]
    {
    }
    assert a == b <==> forall n :: n in v.nodes ==> a[n] == b[n];
  }

  // ---------------------------------------------------------------------
  // The overlay, path by path
  // ---------------------------------------------------------------------

  /** The virtual node at a path that enters no subdirectory of a replaced directory. */
  function NodeUnder(v: Node, p: Path): Option<Node>
    decreases |p|
  {
    if p == [] then Some(v)
    else if v.VDir? && p[0] != REPLACE && p[0] in v.nodes && (ReplaceDir(v.nodes).None? || !v.nodes[p[0]].VDir?) then
      NodeUnder(v.nodes[p[0]], p[1..])
    else None
  }

  /** What is not a directory does not look at what it lies over. */
  lemma {:induction false} LeafAnywhere(e: Env, v: Node, here: Option<Tree>, path: Path)
    requires !v.VDir?
    ensures Overlay(e, v, here, path) == Overlay(e, v, None, path)
  {
  }

  /** Module nodes win and whiteouts vanish, with all that lay below them. */
  lemma {:induction false} ModuleNodesWin(e: Env, v: Node, here: Option<Tree>, path: Path, p: Path)
    requires p != [] && NodeUnder(v, p).Some? && !NodeUnder(v, p).value.VDir?
    ensures At(Overlay(e, v, here, path).value, p) == Overlay(e, NodeUnder(v, p).value, None, path + p)
    decreases |p|
  {
    var view, n := View(e, v, here, path), p[0];
    if |p| == 1 {
      assert path + p == path + [n] && p[1..] == [];
      LeafAnywhere(e, v.nodes[n], Child(Listing(e, here, path), n), path + [n]);
    } else {
      var kid := Child(Listing(e, here, path), n);
      assert v.nodes[n].VDir? && view[n] == Overlay(e, v.nodes[n], kid, path + [n]);
      ModuleNodesWin(e, v.nodes[n], kid, path + [n], p[1..]);
      assert path + [n] + p[1..] == path + p;
    }
  }

  /** What a file node shows: the file it names, through a symlink of the modules, and an empty file without one. */
  ghost predicate ShowsFile(e: Env, src: Path, shown: Option<Tree>) {
    match At(e.modules, src)
    case Some(File(content, whiteout)) => shown == Some(File(content, whiteout))
    case Some(Link(_)) =>
      if src in e.links && !e.links[src].Dir? then shown == Some(e.links[src]) else shown == Some(File("", false))
    case _ => shown == Some(File("", false))
  }

  /**
   * What each kind of node comes to at its path: a whiteout to nothing, a link to that link,
   * a file to the file behind it, a link of the program's own by its name, a directory to one.
   */
  lemma {:induction false} NodeShows(e: Env, v: Node, here: Option<Tree>, path: Path, p: Path)
    requires p != [] && NodeUnder(v, p).Some?
    ensures var shown := At(Overlay(e, v, here, path).value, p);
            match NodeUnder(v, p).value
            case Whiteout => shown == None
            case VLink(target) => shown == Some(Link(target))
            case VFile(src) => ShowsFile(e, src, shown)
            case MagiskLink =>
              shown == Some(Link(if p[|p| - 1] == "supolicy" then "./magiskpolicy" else "./magisk"))
            case VDir(_) => shown.Some? && shown.value.Dir?
  {
    if NodeUnder(v, p).value.VDir? {
      DirectoryShows(e, v, here, path, p);
    } else {
      ModuleNodesWin(e, v, here, path, p);
      assert (path + p)[|path + p| - 1] == p[|p| - 1];
    }
  }

  lemma {:induction false} DirectoryShows(e: Env, v: Node, here: Option<Tree>, path: Path, p: Path)
    requires p != [] && NodeUnder(v, p).Some? && NodeUnder(v, p).value.VDir?
    ensures At(Overlay(e, v, here, path).value, p).Some? && At(Overlay(e, v, here, path).value, p).value.Dir?
    decreases |p|
  {
    var view, n := View(e, v, here, path), p[0];
    var kid := Child(Listing(e, here, path), n);
    if |p| == 1 {
      assert p[1..] == [];
    }
    assert v.nodes[n].VDir? && view[n] == Overlay(e, v.nodes[n], kid, path + [n]);
    if |p| > 1 {
      DirectoryShows(e, v.nodes[n], kid, path + [n], p[1..]);
    }
  }

  /** What a path shows that leaves the virtual tree at a name it has no node for. */
  function Underneath(e: Env, v: Node, here: Option<Tree>, path: Path, p: Path): Option<Tree>
    requires v.VDir? && p != []
    decreases |p|
  {
    var kid := Child(Listing(e, here, path), p[0]);
    if ReplaceDir(v.nodes).Some? then None
    else if p[0] in v.nodes && p[0] != REPLACE && v.nodes[p[0]].VDir? && |p| > 1 then
      Underneath(e, v.nodes[p[0]], kid, path + [p[0]], p[1..])
    else if kid.Some? then At(kid.value, p[1..]) else None
  }

  predicate Leaves(v: Node, p: Path)
    decreases |p|
  {
    && v.VDir? && p != []
    && (p[0] == REPLACE || p[0] !in v.nodes || (ReplaceDir(v.nodes).None? && Leaves(v.nodes[p[0]], p[1..])))
  }

  /**
   * All else is mirrored, through real symlinks where a module directory lies over one;
   * in a replaced directory it is gone.
   */
  lemma {:induction false} RestIsMirrored(e: Env, v: Node, here: Option<Tree>, path: Path, p: Path)
    requires Leaves(v, p)
    ensures At(Overlay(e, v, here, path).value, p) == Underneath(e, v, here, path, p)
    decreases |p|
  {
    var view, n := View(e, v, here, path), p[0];
    if n in v.nodes && n != REPLACE {
      RestIsMirrored(e, v.nodes[n], Child(Listing(e, here, path), n), path + [n], p[1..]);
    }
  }

  /** On the way down the path, no module directory lies over a real symlink or in place of a replaced one. */
  predicate Straight(v: Node, here: Tree, p: Path)
    decreases |p|
  {
    && here.Dir? && v.VDir? && p != [] && ReplaceDir(v.nodes).None?
    && (p[0] != REPLACE && p[0] in v.nodes && v.nodes[p[0]].VDir? && |p| > 1 && p[0] in here.children ==>
          && !here.children[p[0]].Link?
          && (here.children[p[0]].Dir? ==> Straight(v.nodes[p[0]], here.children[p[0]], p[1..])))
  }

  /** There, a path the modules have nothing for shows what the real tree has. */
  lemma {:induction false} RestIsReal(e: Env, v: Node, here: Tree, path: Path, p: Path)
    requires Leaves(v, p) && Straight(v, here, p)
    ensures At(Overlay(e, v, Some(here), path).value, p) == At(here, p)
    decreases |p|
  {
    RestIsMirrored(e, v, Some(here), path, p);
    UnderneathIsReal(e, v, here, path, p);
  }

  lemma {:induction false} UnderneathIsReal(e: Env, v: Node, here: Tree, path: Path, p: Path)
    requires Leaves(v, p) && Straight(v, here, p)
    ensures Underneath(e, v, Some(here), path, p) == At(here, p)
    decreases |p|
  {
    if p[0] in v.nodes && p[0] != REPLACE && v.nodes[p[0]].VDir? && |p| > 1 {
      if p[0] in here.children && here.children[p[0]].Dir? {
        UnderneathIsReal(e, v.nodes[p[0]], here.children[p[0]], path + [p[0]], p[1..]);
      } else {
        NothingUnderneath(e, v.nodes[p[0]], Child(here.children, p[0]), path + [p[0]], p[1..]);
      }
    }
  }

  /** Over nothing, or over a file, there is nothing to mirror. */
  lemma {:induction false} NothingUnderneath(e: Env, v: Node, here: Option<Tree>, path: Path, p: Path)
    requires v.VDir? && p != [] && (here.None? || here.value.File?)
    ensures Underneath(e, v, here, path, p) == None
    decreases |p|
  {
    if ReplaceDir(v.nodes).None? && p[0] in v.nodes && p[0] != REPLACE && v.nodes[p[0]].VDir? && |p| > 1 {
      NothingUnderneath(e, v.nodes[p[0]], None, path + [p[0]], p[1..]);
    }
  }

  /** A module directory over a real symlink shows what opening that symlink lists, where the modules have nothing. */
  lemma {:induction false} LinkIsFollowed(e: Env, v: Node, target: string, path: Path, n: Name)
    requires v.VDir? && ReplaceDir(v.nodes).None? && (n == REPLACE || n !in v.nodes)
    ensures At(Overlay(e, v, Some(Link(target)), path).value, [n]) ==
            if path in e.follow && n in e.follow[path] then Some(e.follow[path][n]) else None
  {
    RestIsMirrored(e, v, Some(Link(target)), path, [n]);
    assert [n][1..] == [];
  }

  /** The path goes into a subdirectory of a replaced directory. */
  predicate Replaced(v: Node, p: Path)
    decreases |p|
  {
    && v.VDir? && p != [] && p[0] != REPLACE && p[0] in v.nodes && v.nodes[p[0]].VDir?
    && (ReplaceDir(v.nodes).Some? || Replaced(v.nodes[p[0]], p[1..]))
  }

  /** What the replacing module itself has there. */
  function RawAt(e: Env, v: Node, p: Path): Option<Tree>
    requires Replaced(v, p)
    decreases |p|
  {
    var dir := ReplaceDir(v.nodes);
    if dir.Some? then At(Bound(Source(e, dir.value + [p[0]]), EMPTY_DIR), p[1..])
    else RawAt(e, v.nodes[p[0]], p[1..])
  }

  /** A subdirectory of a replaced directory shows the replacing module's own, and no other module's. */
  lemma {:induction false} ReplacedIsRaw(e: Env, v: Node, here: Option<Tree>, path: Path, p: Path)
    requires Replaced(v, p)
    ensures At(Overlay(e, v, here, path).value, p) == RawAt(e, v, p)
    decreases |p|
  {
    var view, n := View(e, v, here, path), p[0];
    if ReplaceDir(v.nodes).None? {
      assert view[n] == Overlay(e, v.nodes[n], Child(Listing(e, here, path), n), path + [n]);
      ReplacedIsRaw(e, v.nodes[n], Child(Listing(e, here, path), n), path + [n], p[1..]);
    }
  }

  /** Below a file, a link or a whiteout there is nothing. */
  predicate BelowLeaf(v: Node, p: Path)
    decreases |p|
  {
    p != [] && (!v.VDir? || (p[0] != REPLACE && p[0] in v.nodes &&
                             (ReplaceDir(v.nodes).None? || !v.nodes[p[0]].VDir?) && BelowLeaf(v.nodes[p[0]], p[1..])))
  }

  lemma {:induction false} NothingBelowLeaf(e: Env, v: Node, here: Option<Tree>, path: Path, p: Path)
    requires BelowLeaf(v, p) && Overlay(e, v, here, path).Some?
    ensures At(Overlay(e, v, here, path).value, p).None?
    decreases |p|
  {
    if v.VDir? {
      var view, n := View(e, v, here, path), p[0];
      var kid := if ReplaceDir(v.nodes).Some? then None else Child(Listing(e, here, path), n);
      assert view[n] == Overlay(e, v.nodes[n], kid, path + [n]);
      if view[n].Some? {
        NothingBelowLeaf(e, v.nodes[n], kid, path + [n], p[1..]);
      }
    }
  }

  /** These are all the paths there are. */
  lemma {:induction false} PathCases(v: Node, p: Path)
    ensures NodeUnder(v, p).Some? || Leaves(v, p) || Replaced(v, p) || BelowLeaf(v, p)
    decreases |p|
  {
    if p != [] && v.VDir? && p[0] != REPLACE && p[0] in v.nodes {
      PathCases(v.nodes[p[0]], p[1..]);
    }
  }

  // ---------------------------------------------------------------------
  // The virtual tree
  // ---------------------------------------------------------------------

  function Leaf(entry: Tree, src: Path): Node
    requires !entry.Dir?
  {
    if entry.Link? then VLink(entry.target) else if entry.whiteout then Whiteout else VFile(src)
  }

  /** A virtual node with one more module's entry in it: what is there already stays, directories merge. */
  function GatherEntry(have: Option<Node>, entry: Tree, src: Path): Node
    decreases entry, 1
  {
    if entry.Dir? then Gather(if have.Some? then have.value else VDir(map[]), entry, src)
    else if have.Some? then have.value
    else Leaf(entry, src)
  }

  function Gather(v: Node, raw: Tree, src: Path): Node
    decreases raw, 0
  {
    if v.VDir? then
      VDir(map n | n in v.nodes.Keys + Kids(raw).Keys ::
             if n in Kids(raw) then GatherEntry(Have(v, n), Kids(raw)[n], src + [n]) else v.nodes[n])
    else v
  }

  function Have(v: Node, n: Name): Option<Node>
    requires v.VDir?
  {
    if n in v.nodes then Some(v.nodes[n]) else None
  }

  lemma {:induction false} GatherKid(v: Node, raw: Tree, src: Path, n: Name)
    requires v.VDir? && n in Kids(raw)
    ensures n in Gather(v, raw, src).nodes
    ensures Gather(v, raw, src).nodes[n] == GatherEntry(Have(v, n), Kids(raw)[n], src + [n])
  {
  }

  lemma {:induction false} GatherRest(v: Node, raw: Tree, src: Path)
    requires v.VDir?
    ensures Gather(v, raw, src).VDir? && Gather(v, raw, src).nodes.Keys == v.nodes.Keys + Kids(raw).Keys
    ensures forall n :: n in v.nodes && n !in Kids(raw) ==> Gather(v, raw, src).nodes[n] == v.nodes[n]
  {
  }

  /** The virtual directory when the entries in `todo` are still to come. */
  ghost predicate Collecting(v: Node, kids: map<Name, Tree>, full: map<Name, Node>, nodes: map<Name, Node>,
      todo: set<Name>)
    requires v.VDir?
  {
    && todo <= kids.Keys <= full.Keys
    && nodes.Keys == v.nodes.Keys + (kids.Keys - todo)
    && forall n :: n in nodes ==>
         if n in kids && n !in todo then nodes[n] == full[n] else n in v.nodes && nodes[n] == v.nodes[n]
  }

  lemma {:induction false} CollectOne(v: Node, kids: map<Name, Tree>, full: map<Name, Node>, nodes: map<Name, Node>,
      todo: set<Name>, n: Name)
    requires v.VDir? && Collecting(v, kids, full, nodes, todo) && n in todo
    ensures Collecting(v, kids, full, nodes[n := full[n]], todo - {n})
    ensures n in nodes <==> n in v.nodes
    ensures n in nodes ==> nodes[n] == v.nodes[n]
  {
  }

  method Collect(v: Node, raw: Tree, src: Path) returns (out: Node)
    ensures out == Gather(v, raw, src)
    decreases raw, 1
  {
    if !v.VDir? {
      return v;
    }
    forall n | n in Kids(raw)
      ensures n in Gather(v, raw, src).nodes
      ensures Gather(v, raw, src).nodes[n] == GatherEntry(Have(v, n), Kids(raw)[n], src + [n])
    {
      GatherKid(v, raw, src, n);
    }
    GatherRest(v, raw, src);
    var nodes := CollectEntries(v, raw, src, Gather(v, raw, src).nodes);
    CollectedAll(v, raw, src, nodes);
    out := VDir(nodes);
  }

  lemma {:induction false} CollectedAll(v: Node, raw: Tree, src: Path, nodes: map<Name, Node>)
    requires v.VDir? && Collecting(v, Kids(raw), Gather(v, raw, src).nodes, nodes, {})
    ensures nodes == Gather(v, raw, src).nodes
  {
    GatherRest(v, raw, src);
    assert Kids(raw).Keys - {} == Kids(raw).Keys;
  }

  method CollectEntries(v: Node, raw: Tree, src: Path, ghost full: map<Name, Node>) returns (nodes: map<Name, Node>)
    requires v.VDir? && forall n :: n in Kids(raw) ==>
      n in full && full[n] == GatherEntry(Have(v, n), Kids(raw)[n], src + [n])
    ensures Collecting(v, Kids(raw), full, nodes, {})
    decreases raw, 0
  {
    nodes := v.nodes;
    var todo := Kids(raw).Keys;
    while todo != {}
      invariant Collecting(v, Kids(raw), full, nodes, todo)
      decreases |todo|
    {
      var n :| n in todo;
      CollectOne(v, Kids(raw), full, nodes, todo, n);
      var node := CollectEntry(if n in nodes then Some(nodes[n]) else None, Kids(raw)[n], src + [n]);
      nodes := nodes[n := node];
      todo := todo - {n};
    }
  }

  method CollectEntry(have: Option<Node>, entry: Tree, src: Path) returns (node: Node)
    ensures node == GatherEntry(have, entry, src)
    decreases entry, 2
  {
    if entry.Dir? {
      node := Collect(if have.Some? then have.value else VDir(map[]), entry, src);
    } else if have.Some? {
      node := have.value;
    } else {
      node := Leaf(entry, src);
    }
  }

  /** Collecting a module keeps every file node pointing at a file. */
  lemma {:induction false} GatherSourced(modules: Tree, v: Node, raw: Tree, src: Path)
    requires Sourced(modules, v) && At(modules, src) == Some(raw)
    ensures Sourced(modules, Gather(v, raw, src))
    decreases raw
  {
    if v.VDir? {
      var all := Gather(v, raw, src).nodes;
      forall n | n in all ensures Sourced(modules, all[n]) {
        if n in Kids(raw) {
          AtChild(modules, src, n);
          GatherKid(v, raw, src, n);
          if Kids(raw)[n].Dir? {
            GatherSourced(modules, if n in v.nodes then v.nodes[n] else VDir(map[]), Kids(raw)[n], src + [n]);
          } else if n !in v.nodes {
            assert all[n] == Leaf(Kids(raw)[n], src + [n]);
          }
        } else {
          assert all[n] == v.nodes[n];
        }
      }
    }
  }

  function NodeAt(v: Node, p: Path): Option<Node>
    decreases |p|
  {
    if p == [] then Some(v)
    else if v.VDir? && p[0] in v.nodes then NodeAt(v.nodes[p[0]], p[1..])
    else None
  }

  /** A node that is not a directory and is no replace file is either reached or lies in a replaced subdirectory. */
  lemma {:induction false} LeafIsUnderOrReplaced(v: Node, p: Path)
    requires p != [] && REPLACE !in p && NodeAt(v, p).Some? && !NodeAt(v, p).value.VDir?
    ensures if Replaced(v, p) then NodeUnder(v, p).None? else NodeUnder(v, p) == NodeAt(v, p)
    decreases |p|
  {
    if |p| > 1 {
      assert v.nodes[p[0]].VDir?;
      assert REPLACE !in p[1..];
      LeafIsUnderOrReplaced(v.nodes[p[0]], p[1..]);
    }
  }

  /**
   * A module's file, link or whiteout decides what its path shows exactly when no
   * directory above its parent is replaced, or the replacing module shows the same.
   */
  lemma {:induction false} ModuleNodeWinsIff(e: Env, v: Node, here: Option<Tree>, path: Path, p: Path)
    requires p != [] && REPLACE !in p && NodeAt(v, p).Some? && !NodeAt(v, p).value.VDir?
    ensures At(Overlay(e, v, here, path).value, p) == Overlay(e, NodeAt(v, p).value, None, path + p) <==>
            !Replaced(v, p) || RawAt(e, v, p) == Overlay(e, NodeAt(v, p).value, None, path + p)
  {
    LeafIsUnderOrReplaced(v, p);
    if Replaced(v, p) {
      ReplacedIsRaw(e, v, here, path, p);
    } else {
      ModuleNodesWin(e, v, here, path, p);
    }
  }

  /** One module replaces a directory, another has a file further below it: the file does not show. */
  lemma {:induction false} FileBelowReplaceVanishes(e: Env, here: Option<Tree>, file: string)
    requires e.modules == Dir(map["a" := Dir(map[REPLACE := EMPTY_FILE]),
                                  "b" := Dir(map["sub" := Dir(map["x" := File(file, false)])])])
    ensures var v := Gather(Gather(VDir(map[]), Kids(e.modules)["a"], ["a"]), Kids(e.modules)["b"], ["b"]);
            && NodeAt(v, ["sub", "x"]) == Some(VFile(["b", "sub", "x"]))
            && At(Overlay(e, v, here, []).value, ["sub", "x"]).None?
  {
    var a, b := Kids(e.modules)["a"], Kids(e.modules)["b"];
    var v1 := Gather(VDir(map[]), a, ["a"]);
    var v := Gather(v1, b, ["b"]);
    NewNodesAppear(VDir(map[]), a, ["a"], [REPLACE]);
    EarlierNodesStay(v1, b, ["b"], [REPLACE]);
    assert v.nodes[REPLACE] == VFile(["a", REPLACE]);
    assert ReplaceDir(v.nodes) == Some(["a"]);
    var p := ["sub", "x"];
    assert p[1..] == ["x"] && p[1..][1..] == [];
    assert Free(v1, p);
    assert At(b, p) == Some(File(file, false));
    NewNodesAppear(v1, b, ["b"], p);
    assert ["b"] + p == ["b", "sub", "x"];
    assert v.nodes["sub"].VDir?;
    ReplacedIsRaw(e, v, here, [], p);
    assert ["a"] + ["sub"] == ["a", "sub"];
    assert At(e.modules, ["a", "sub"]).None?;
  }

  predicate Free(v: Node, p: Path)
    decreases |p|
  {
    p != [] && v.VDir? && (p[0] in v.nodes ==> Free(v.nodes[p[0]], p[1..]))
  }

  /** Earlier modules win. */
  lemma {:induction false} EarlierNodesStay(v: Node, raw: Tree, src: Path, p: Path)
    requires NodeAt(v, p).Some? && !NodeAt(v, p).value.VDir?
    ensures NodeAt(Gather(v, raw, src), p) == NodeAt(v, p)
    decreases |p|
  {
    if p != [] && p[0] in Kids(raw) && Kids(raw)[p[0]].Dir? {
      EarlierNodesStay(v.nodes[p[0]], Kids(raw)[p[0]], src + [p[0]], p[1..]);
    }
  }

  /** Where no earlier module has a node, the new one has its own. */
  lemma {:induction false} NewNodesAppear(v: Node, raw: Tree, src: Path, p: Path)
    requires Free(v, p) && At(raw, p).Some? && !At(raw, p).value.Dir?
    ensures NodeAt(Gather(v, raw, src), p) == Some(Leaf(At(raw, p).value, src + p))
    decreases |p|
  {
    var n, entry := p[0], Kids(raw)[p[0]];
    if |p| == 1 {
      assert src + p == src + [n] && p[1..] == [];
    } else {
      var below := if n in v.nodes then v.nodes[n] else VDir(map[]);
      assert src + [n] + p[1..] == src + p;
      assert p[1] in Kids(entry);
      NewNodesAppear(below, entry, src + [n], p[1..]);
    }
  }

  // ---------------------------------------------------------------------
  // The mounts
  // ---------------------------------------------------------------------

  /** The part of a view that is in place once the names in `done` are. */
  ghost function Shown(view: map<Name, Option<Tree>>, done: set<Name>): map<Name, Tree> {
    map n | n in done && n in view && view[n].Some? :: view[n].value
  }

  ghost function PutSome(t: Tree, p: Path, x: Option<Tree>): Tree {
    if x.Some? then Put(t, p, x.value) else t
  }

  lemma {:induction false} ShowOne(w: Tree, p: Path, view: map<Name, Option<Tree>>, done: set<Name>, n: Name)
    requires n in view && n !in done
    ensures var now := Put(w, p, Dir(Shown(view, done)));
            && At(now, p + [n]) == None
            && PutSome(now, p + [n], view[n]) == Put(w, p, Dir(Shown(view, done + {n})))
  {
    var kids, more := Shown(view, done), Shown(view, done + {n});
    AtPut(w, p, Dir(kids), n);
    if view[n].Some? {
      PutChild(w, p, kids, n, view[n].value);
      assert more == kids[n := view[n].value];
    } else {
      assert more == kids;
    }
  }

  /** What is at the real path while the children in `done` are committed. */
  ghost function Mixed(e: Env, nodes: map<Name, Node>, here: Tree, path: Path, done: set<Name>): Tree {
    if here.Dir? then
      Dir(map n | n in here.children ::
            if n in done && n in nodes then Committed(e, nodes[n], here.children[n], path + [n]) else here.children[n])
    else here
  }

  lemma {:induction false} MixOne(e: Env, nodes: map<Name, Node>, here: Tree, path: Path, done: set<Name>, r: Tree,
      n: Name)
    requires n in nodes && n in Kids(here) && n !in done
    ensures var now := Put(r, path, Mixed(e, nodes, here, path, done));
            && At(now, path + [n]) == Some(Kids(here)[n])
            && Put(now, path + [n], Committed(e, nodes[n], Kids(here)[n], path + [n])) ==
               Put(r, path, Mixed(e, nodes, here, path, done + {n}))
  {
    var mixed := Mixed(e, nodes, here, path, done).children;
    AtPut(r, path, Dir(mixed), n);
    PutChild(r, path, mixed, n, Committed(e, nodes[n], here.children[n], path + [n]));
    assert Mixed(e, nodes, here, path, done + {n}).children ==
           mixed[n := Committed(e, nodes[n], here.children[n], path + [n])];
  }

  lemma {:induction false} MixAll(e: Env, nodes: map<Name, Node>, here: Tree, path: Path)
    requires !NeedsTmpfs(nodes, Kids(here))
    ensures Mixed(e, nodes, here, path, {}) == here
    ensures Mixed(e, nodes, here, path, nodes.Keys) == Committed(e, VDir(nodes), here, path)
    ensures forall n :: n in nodes ==> n in Kids(here)
  {
    forall n | n in nodes ensures n in Kids(here) {
      assert !Unfit(nodes, Kids(here), n);
    }
    if here.Dir? {
      assert Mixed(e, nodes, here, path, {}).children == here.children;
      assert Mixed(e, nodes, here, path, nodes.Keys).children == Committed(e, VDir(nodes), here, path).children;
    }
  }

  /** What a partition root commits of its node; nothing, where that is no directory. */
  function Filtered(v: Node, here: Tree): Node {
    VDir(if v.VDir? then Kept(v.nodes, Kids(here)) else map[])
  }

  lemma {:induction false} NothingCommitted(e: Env, here: Tree, path: Path)
    requires here.Dir?
    ensures Committed(e, VDir(map[]), here, path) == here
  {
    assert Committed(e, VDir(map[]), here, path).children == here.children;
  }

  /** The mounts logged since `was` lie below `path`, and not on it where that is ruled out. */
  ghost predicate LandsBelow(was: seq<Path>, log: seq<Path>, path: Path, strictly: bool) {
    && was <= log
    && forall k :: |was| <= k < |log| ==> path <= log[k] && (strictly ==> path != log[k])
  }

  lemma {:induction false} LandsBelowChild(a: seq<Path>, b: seq<Path>, c: seq<Path>, path: Path, n: Name)
    requires LandsBelow(a, b, path, true) && LandsBelow(b, c, path + [n], false)
    ensures LandsBelow(a, c, path, true)
  {
    forall k | |a| <= k < |c| ensures path <= c[k] && path != c[k] {
      if k < |b| {
        assert b[k] == c[k];
      } else {
        assert path == (path + [n])[..|path|] == c[k][..|path|];
      }
    }
  }

  /** Every mount lies inside a partition. */
  ghost predicate LandsWithin(was: seq<Path>, log: seq<Path>) {
    was <= log && forall k :: |was| <= k < |log| ==> |log[k]| >= 2
  }

  lemma {:induction false} LandsWithinBoth(a: seq<Path>, b: seq<Path>, c: seq<Path>)
    requires LandsWithin(a, b) && LandsWithin(b, c)
    ensures LandsWithin(a, c)
  {
    forall k | |a| <= k < |c| ensures |c[k]| >= 2 {
      if k < |b| {
        assert b[k] == c[k];
      }
    }
  }

  /** A file node has no directory behind it. */
  predicate FileOrDir(e: Env, v: Node) {
    v.VFile? ==> Source(e, v.src).None? || !Source(e, v.src).value.Dir?
  }

  predicate PartitionsFit(e: Env, parts: seq<Name>, system: map<Name, Node>) {
    forall n :: n in parts && n in system ==> FileOrDir(e, system[n])
  }

  ghost predicate RootReady(e: Env, roots: map<Name, Node>, nodes: map<Name, Node>, rootdir: Tree, n: Name)
    requires n in roots
  {
    && IsDirIn(rootdir, n) && FileOrDir(e, roots[n])
    && n in nodes && nodes[n] == Filtered(roots[n], Kids(rootdir)[n])
  }

  ghost predicate RootsReady(e: Env, roots: map<Name, Node>, nodes: map<Name, Node>, rootdir: Tree) {
    forall n :: n in roots ==> RootReady(e, roots, nodes, rootdir, n)
  }

  predicate IsDirIn(rootdir: Tree, n: Name) {
    n in Kids(rootdir) && Kids(rootdir)[n].Dir?
  }

  function Partitions(parts: seq<Name>, system: map<Name, Node>, rootdir: Tree): map<Name, Node> {
    map n | n in system && n in parts && IsDirIn(rootdir, n) :: system[n]
  }

  /** The virtual tree of each partition. */
  function Roots(parts: seq<Name>, system: map<Name, Node>, rootdir: Tree): map<Name, Node> {
    var split := Partitions(parts, system, rootdir);
    split[SYSTEM := VDir(system - split.Keys)]
  }

  function FilteredRoots(parts: seq<Name>, system: map<Name, Node>, rootdir: Tree): map<Name, Node> {
    var roots := Roots(parts, system, rootdir);
    map n | n in roots :: Filtered(roots[n], KidOrNew(rootdir, n))
  }

  lemma {:induction false} RootsSourced(modules: Tree, parts: seq<Name>, system: map<Name, Node>, rootdir: Tree,
      n: Name)
    requires Sourced(modules, VDir(system)) && n in FilteredRoots(parts, system, rootdir)
    ensures Sourced(modules, FilteredRoots(parts, system, rootdir)[n])
  {
    assert Sourced(modules, Roots(parts, system, rootdir)[n]);
  }

  class Mounts {
    const e: Env
    var live: Tree
    var worker: Tree
    var log: seq<Path>  // where on the real tree something was mounted

    constructor (e: Env, live: Tree)
      ensures this.e == e && this.live == live && worker == EMPTY_DIR && log == []
    {
      this.e, this.live, worker, log := e, live, EMPTY_DIR, [];
    }

    /** A bind mount on the real tree; it fails when one side is a directory and the other is not. */
    method BindReal(src: Option<Tree>, path: Path)
      requires At(live, path).Some?
      modifies this`live, this`log
      ensures var here := At(old(live), path).value;
              if src.Some? && src.value.Dir? == here.Dir?
              then live == Put(old(live), path, src.value) && log == old(log) + [path]
              else live == old(live) && log == old(log)
    {
      if src.Some? && src.value.Dir? == At(live, path).value.Dir? {
        live := Put(live, path, src.value);
        log := log + [path];
      }
    }

    /** A dummy in the worker tree and a bind mount on it. */
    method MountDummy(src: Option<Tree>, path: Path, dummy: Tree)
      requires At(worker, path).None?
      modifies this`worker
      ensures worker == Put(old(worker), path, Bound(src, dummy))
    {
      worker := Put(worker, path, dummy);
      if src.Some? && src.value.Dir? == dummy.Dir? {
        PutTwice(old(worker), path, dummy, src.value);
        worker := Put(worker, path, src.value);
      }
    }

    /** An empty directory node rebuilt over a real directory shows that directory. */
    method MirrorDir(tree: Tree, path: Path)
      requires tree.Dir? && At(worker, path).None?
      modifies this`worker
      ensures worker == Put(old(worker), path, tree)
      decreases tree, 1
    {
      worker := Put(worker, path, EMPTY_DIR);
      var todo := tree.children.Keys;
      ghost var view := map n | n in tree.children :: Some(tree.children[n]);
      assert Shown(view, view.Keys - todo) == map[];
      while todo != {}
        invariant todo <= tree.children.Keys
        invariant worker == Put(old(worker), path, Dir(Shown(view, view.Keys - todo)))
        decreases |todo|
      {
        var n :| n in todo;
        ShowOne(old(worker), path, view, view.Keys - todo, n);
        MirrorEntry(tree.children[n], path + [n]);
        assert view.Keys - (todo - {n}) == (view.Keys - todo) + {n};
        todo := todo - {n};
      }
      assert Shown(view, view.Keys - todo) == tree.children;
    }

    method MirrorEntry(entry: Tree, path: Path)
      requires At(worker, path).None?
      modifies this`worker
      ensures worker == Put(old(worker), path, entry)
      decreases entry, 2
    {
      if entry.Dir? {
        MirrorDir(entry, path);
      } else if entry.Link? {
        worker := Put(worker, path, Link(entry.target));
      } else {
        MountDummy(Some(entry), path, EMPTY_FILE);
      }
    }

    /** Rebuilds a node in the worker tree; nothing it makes is there already. */
    method CommitTmpfs(v: Node, here: Option<Tree>, path: Path)
      requires At(worker, path).None?
      modifies this`worker
      ensures worker == PutSome(old(worker), path, Overlay(e, v, here, path))
      decreases v, 1
    {
      match v
      case VDir(nodes) =>
        worker := Put(worker, path, EMPTY_DIR);
        AtPut(old(worker), path, EMPTY_DIR, REPLACE);
        if ReplaceDir(nodes).Some? {
          CommitReplaced(v, here, path);
        } else {
          CommitMirrored(v, here, path);
        }
        PutTwice(old(worker), path, EMPTY_DIR, Dir(Somes(View(e, v, here, path))));
      case VFile(src) =>
        MountDummy(Source(e, src), path, EMPTY_FILE);
      case VLink(target) =>
        worker := Put(worker, path, Link(target));
      case MagiskLink =>
        worker := Put(worker, path, Link(LinkTarget(path)));
      case Whiteout =>
    }

    method CommitReplaced(v: Node, here: Option<Tree>, path: Path)
      requires v.VDir? && ReplaceDir(v.nodes).Some? && At(worker, path) == Some(EMPTY_DIR)
      modifies this`worker
      ensures worker == Put(old(worker), path, Dir(Somes(View(e, v, here, path))))
      decreases v, 0
    {
      var dir := ReplaceDir(v.nodes).value;
      var todo := v.nodes.Keys - {REPLACE};
      ghost var view := View(e, v, here, path);
      PutSame(worker, path);
      assert Shown(view, view.Keys - todo) == map[];
      while todo != {}
        invariant todo <= view.Keys
        invariant worker == Put(old(worker), path, Dir(Shown(view, view.Keys - todo)))
        decreases |todo|
      {
        var n :| n in todo;
        ShowOne(old(worker), path, view, view.Keys - todo, n);
        if v.nodes[n].VDir? {
          MountDummy(Source(e, dir + [n]), path + [n], EMPTY_DIR);
        } else {
          CommitTmpfs(v.nodes[n], None, path + [n]);
        }
        assert view.Keys - (todo - {n}) == (view.Keys - todo) + {n};
        todo := todo - {n};
      }
      assert Shown(view, view.Keys - todo) == Somes(view);
    }

    method CommitMirrored(v: Node, here: Option<Tree>, path: Path)
      requires v.VDir? && ReplaceDir(v.nodes).None? && At(worker, path) == Some(EMPTY_DIR)
      modifies this`worker
      ensures worker == Put(old(worker), path, Dir(Somes(View(e, v, here, path))))
      decreases v, 0, 1
    {
      var list := Listing(e, here, path);
      var mine := v.nodes.Keys - {REPLACE};
      ghost var view := View(e, v, here, path);
      PutSame(worker, path);
      MirrorRest(list, list.Keys - mine, path, old(worker), view);
      assert list.Keys - mine == view.Keys - mine;
      CommitNodes(v, list, mine, path, old(worker), view);
      assert Shown(view, view.Keys) == Somes(view);
    }

    /** Mirrors the real entries no module has a node for. */
    method MirrorRest(list: map<Name, Tree>, rest: set<Name>, path: Path, ghost w: Tree,
        ghost view: map<Name, Option<Tree>>)
      requires worker == Put(w, path, EMPTY_DIR)
      requires forall n :: n in rest ==> n in list && n in view && view[n] == Some(list[n])
      modifies this`worker
      ensures worker == Put(w, path, Dir(Shown(view, rest)))
    {
      var todo := rest;
      assert Shown(view, rest - todo) == map[];
      while todo != {}
        invariant todo <= rest
        invariant worker == Put(w, path, Dir(Shown(view, rest - todo)))
        decreases |todo|
      {
        var n :| n in todo;
        ShowOne(w, path, view, rest - todo, n);
        MirrorEntry(list[n], path + [n]);
        assert rest - (todo - {n}) == (rest - todo) + {n};
        todo := todo - {n};
      }
      assert rest - todo == rest;
    }

    method CommitNodes(v: Node, list: map<Name, Tree>, mine: set<Name>, path: Path, ghost w: Tree,
        ghost view: map<Name, Option<Tree>>)
      requires v.VDir? && mine <= v.nodes.Keys && mine <= view.Keys
      requires worker == Put(w, path, Dir(Shown(view, view.Keys - mine)))
      requires forall n :: n in mine ==> view[n] == Overlay(e, v.nodes[n], Child(list, n), path + [n])
      modifies this`worker
      ensures worker == Put(w, path, Dir(Shown(view, view.Keys)))
      decreases v, 0, 0
    {
      var todo := mine;
      while todo != {}
        invariant todo <= mine
        invariant worker == Put(w, path, Dir(Shown(view, view.Keys - todo)))
        decreases |todo|
      {
        var n :| n in todo && (PRIORITY in todo ==> n == PRIORITY);
        ShowOne(w, path, view, view.Keys - todo, n);
        CommitTmpfs(v.nodes[n], Child(list, n), path + [n]);
        assert view.Keys - (todo - {n}) == (view.Keys - todo) + {n};
        todo := todo - {n};
      }
      assert view.Keys - todo == view.Keys;
    }

    /** Decides whether the directory has to be rebuilt; a partition root drops what would need it. */
    method Retain(nodes: map<Name, Node>, here: Tree, root: bool) returns (kept: map<Name, Node>, isTmpfs: bool)
      ensures kept == if root then Kept(nodes, Kids(here)) else nodes
      ensures isTmpfs == NeedsTmpfs(kept, Kids(here))
    {
      kept, isTmpfs := nodes, false;
      var todo := nodes.Keys;
      while todo != {}
        invariant todo <= nodes.Keys
        invariant kept == map n | n in nodes && (n in todo || !root || n in Kept(nodes, Kids(here))) :: nodes[n]
        invariant isTmpfs == (!root && exists n :: n in nodes && n !in todo && Unfit(nodes, Kids(here), n))
        decreases |todo|
      {
        var n :| n in todo;
        if Unfit(nodes, Kids(here), n) {
          if root {
            kept := kept - {n};
          } else {
            isTmpfs := true;
          }
        }
        todo := todo - {n};
      }
    }

    /** Commits a node over what is at the real path. */
    method Commit(v: Node, here: Tree, path: Path, root: bool)
      requires At(live, path) == Some(here) && At(worker, path).None?
      requires root ==> here.Dir? && FileOrDir(e, v)
      modifies this
      ensures live == Put(old(live), path, Committed(e, if root then Filtered(v, here) else v, here, path))
      ensures SameBeside(old(worker), worker, path)
      ensures LandsBelow(old(log), log, path, root)
      decreases v, 1
    {
      PutSame(live, path);
      if root {
        NothingCommitted(e, here, path);
      }
      match v
      case VDir(nodes) =>
        var kept, isTmpfs := Retain(nodes, here, root);
        if isTmpfs {
          CommitTmpfs(VDir(kept), Some(here), path);
          AtPut(old(worker), path, Overlay(e, VDir(kept), Some(here), path).value, REPLACE);
          BindReal(At(worker, path), path);
          forall q | Beside(path, q) ensures At(old(worker), q) == At(worker, q) {
            PutBeside(old(worker), path, Overlay(e, VDir(kept), Some(here), path).value, q);
          }
        } else {
          CommitChildren(v, kept, here, path);
        }
      case VFile(src) =>
        BindReal(Source(e, src), path);
      case _ =>
    }

    method CommitChild(ghost v: Node, nodes: map<Name, Node>, here: Tree, path: Path, n: Name, ghost done: set<Name>,
        ghost was: Tree)
      requires v.VDir? && n in v.nodes
      requires n in nodes && nodes[n] == v.nodes[n] && n in Kids(here) && n !in done
      requires live == Put(was, path, Mixed(e, nodes, here, path, done)) && At(worker, path + [n]).None?
      modifies this
      ensures live == Put(was, path, Mixed(e, nodes, here, path, done + {n}))
      ensures SameBeside(old(worker), worker, path + [n])
      ensures LandsBelow(old(log), log, path + [n], false)
      decreases v, 0, 0
    {
      MixOne(e, nodes, here, path, done, was, n);
      Commit(nodes[n], here.children[n], path + [n], false);
    }

    method CommitChildren(ghost v: Node, nodes: map<Name, Node>, here: Tree, path: Path)
      requires At(live, path) == Some(here) && At(worker, path).None?
      requires !NeedsTmpfs(nodes, Kids(here))
      requires v.VDir? && forall n :: n in nodes ==> n in v.nodes && v.nodes[n] == nodes[n]
      modifies this
      ensures live == Put(old(live), path, Committed(e, VDir(nodes), here, path))
      ensures SameBeside(old(worker), worker, path)
      ensures LandsBelow(old(log), log, path, true)
      decreases v, 0, 2
    {
      PutSame(live, path);
      MixAll(e, nodes, here, path);
      forall n | n in nodes ensures At(worker, path + [n]) == None {
        AbsentBelow(worker, path, n);
      }
      CommitEach(v, nodes, here, path, live);
    }

    method CommitEach(ghost v: Node, nodes: map<Name, Node>, here: Tree, path: Path, ghost was: Tree)
      requires live == Put(was, path, Mixed(e, nodes, here, path, {}))
      requires v.VDir? && forall n :: n in nodes ==>
        n in v.nodes && v.nodes[n] == nodes[n] && n in Kids(here) &&
        At(worker, path + [n]) == None
      modifies this
      ensures live == Put(was, path, Mixed(e, nodes, here, path, nodes.Keys))
      ensures SameBeside(old(worker), worker, path)
      ensures LandsBelow(old(log), log, path, true)
      decreases v, 0, 1
    {
      var todo := nodes.Keys;
      assert nodes.Keys - todo == {};
      while todo != {}
        invariant todo <= nodes.Keys
        invariant live == Put(was, path, Mixed(e, nodes, here, path, nodes.Keys - todo))
        invariant forall n :: n in todo ==> At(worker, path + [n]) == None
        invariant SameBeside(old(worker), worker, path)
        invariant LandsBelow(old(log), log, path, true)
        decreases |todo|
      {
        var n :| n in todo && (PRIORITY in todo ==> n == PRIORITY);
        ghost var w, before := worker, log;
        CommitChild(v, nodes, here, path, n, nodes.Keys - todo, was);
        SameBesideChild(old(worker), w, worker, path, n);
        LandsBelowChild(old(log), before, log, path, n);
        assert nodes.Keys - (todo - {n}) == (nodes.Keys - todo) + {n};
        todo := todo - {n};
      }
      assert nodes.Keys - todo == nodes.Keys;
    }

    /**
     * Splits the partitions off the system tree and commits each over its own root. No
     * mount lands on a partition root.
     */
    method ApplyModules(parts: seq<Name>, system: map<Name, Node>)
      requires SYSTEM !in parts && live.Dir? && SYSTEM in live.children && live.children[SYSTEM].Dir?
      requires worker == EMPTY_DIR && PartitionsFit(e, parts, system)
      modifies this
      ensures live == Mixed(e, FilteredRoots(parts, system, old(live)), old(live), [],
        Roots(parts, system, old(live)).Keys)
      ensures LandsWithin(old(log), log)
    {
      var roots := ExtractRoots(parts, system, live);
      assert Mixed(e, FilteredRoots(parts, system, live), live, [], {}).children == live.children;
      CommitRoots(roots, live, FilteredRoots(parts, system, live));
    }

    /** With the partitions of the source. */
    method HandleModules(system: map<Name, Node>)
      requires live.Dir? && SYSTEM in live.children && live.children[SYSTEM].Dir?
      requires worker == EMPTY_DIR && PartitionsFit(e, SECONDARY, system)
      modifies this
      ensures live == Mixed(e, FilteredRoots(SECONDARY, system, old(live)), old(live), [],
        Roots(SECONDARY, system, old(live)).Keys)
      ensures LandsWithin(old(log), log)
    {
      assert SYSTEM[0] != SECONDARY[0][0] && SYSTEM[0] != SECONDARY[1][0] && |SYSTEM| != |SECONDARY[2]|;
      ApplyModules(SECONDARY, system);
    }

    method CommitRoots(roots: map<Name, Node>, rootdir: Tree, ghost nodes: map<Name, Node>)
      requires live == Mixed(e, nodes, rootdir, [], {}) && Vacant(worker, roots.Keys)
      requires RootsReady(e, roots, nodes, rootdir)
      modifies this
      ensures live == Mixed(e, nodes, rootdir, [], roots.Keys)
      ensures LandsWithin(old(log), log)
    {
      var todo := roots.Keys;
      assert roots.Keys - todo == {};
      while todo != {}
        invariant todo <= roots.Keys
        invariant live == Mixed(e, nodes, rootdir, [], roots.Keys - todo)
        invariant Vacant(worker, todo)
        invariant LandsWithin(old(log), log)
        decreases |todo|
      {
        var n :| n in todo;
        CommitRoot(roots, rootdir, n, nodes, todo, old(log));
        todo := todo - {n};
      }
      assert roots.Keys - todo == roots.Keys;
    }

    method CommitRoot(roots: map<Name, Node>, rootdir: Tree, n: Name, ghost nodes: map<Name, Node>,
        ghost todo: set<Name>, ghost was: seq<Path>)
      requires n in todo && todo <= roots.Keys && RootsReady(e, roots, nodes, rootdir)
      requires live == Mixed(e, nodes, rootdir, [], roots.Keys - todo) && Vacant(worker, todo) && LandsWithin(was, log)
      modifies this
      ensures live == Mixed(e, nodes, rootdir, [], roots.Keys - (todo - {n}))
      ensures Vacant(worker, todo - {n}) && LandsWithin(was, log)
    {
      assert RootReady(e, roots, nodes, rootdir, n);
      MixOne(e, nodes, rootdir, [], roots.Keys - todo, rootdir, n);
      assert [] + [n] == [n];
      ghost var w, before := worker, log;
      Commit(roots[n], rootdir.children[n], [n], true);
      StillVacant(w, worker, todo, n);
      LandsWithinBoth(was, before, log);
      assert roots.Keys - (todo - {n}) == (roots.Keys - todo) + {n};
    }

    method ExtractRoots(parts: seq<Name>, system: map<Name, Node>, rootdir: Tree) returns (roots: map<Name, Node>)
      ensures roots == Roots(parts, system, rootdir)
    {
      roots := map[];
      var children := system;
      for i := 0 to |parts|
        invariant roots == Partitions(parts[..i], system, rootdir)
        invariant children == system - roots.Keys
      {
        var name := parts[i];
        if IsDirIn(rootdir, name) && name in children {
          roots := roots[name := children[name]];
          children := children - {name};
        }
        assert parts[..i + 1] == parts[..i] + [name];
      }
      assert parts[..|parts|] == parts;
      roots := roots[SYSTEM := VDir(children)];
    }
  }

  /**
   * A partition shows the overlay of what it can take of its virtual tree exactly when,
   * wherever the engine mounts in place, files lie over files and directories over directories.
   */
  lemma {:induction false} PartitionShowsOverlayIff(e: Env, v: Node, here: Tree, n: Name)
    requires here.Dir?
    ensures Some(Committed(e, Filtered(v, here), here, [n])) == Overlay(e, Filtered(v, here), Some(here), [n])
            <==> Compatible(e, Filtered(v, here), here)
  {
    CommittedIsOverlayIff(e, Filtered(v, here), here, [n]);
  }

  /** The root directory with every partition under its overlay. */
  ghost function Overlaid(e: Env, nodes: map<Name, Node>, rootdir: Tree): Tree
    requires rootdir.Dir? && forall n :: n in nodes ==> nodes[n].VDir?
  {
    Dir(map n | n in rootdir.children ::
          if n in nodes then Overlay(e, nodes[n], Some(rootdir.children[n]), [n]).value else rootdir.children[n])
  }

  /** What the engine leaves visible is the overlay of every partition, exactly when all of them are compatible. */
  lemma {:induction false} ModulesShowOverlayIff(e: Env, parts: seq<Name>, system: map<Name, Node>, rootdir: Tree)
    requires rootdir.Dir? && SYSTEM in rootdir.children && rootdir.children[SYSTEM].Dir?
    requires SYSTEM !in parts
    ensures
      var nodes := FilteredRoots(parts, system, rootdir);
      Mixed(e, nodes, rootdir, [], Roots(parts, system, rootdir).Keys) == Overlaid(e, nodes, rootdir)
      <==> forall n :: n in nodes ==> Compatible(e, nodes[n], rootdir.children[n])
  {
    var roots, nodes := Roots(parts, system, rootdir), FilteredRoots(parts, system, rootdir);
    var a, b := Mixed(e, nodes, rootdir, [], roots.Keys).children, Overlaid(e, nodes, rootdir).children;
    forall n | n in nodes
      ensures n in rootdir.children && (a[n] == b[n] <==> Compatible(e, nodes[n], rootdir.children[n]))
    {
      assert [] + [n] == [n];
      PartitionShowsOverlayIff(e, roots[n], rootdir.children[n], n);
    }
    assert a.Keys == b.Keys;
    assert a == b <==> forall n :: n in nodes ==> a[n] == b[n];
  }
}
