/**
 * Where the program's own binaries go (native/src/core/module.rs): the directories of the
 * search path, filtered, cut off at one that has su, and sorted by their number of files.
 */
module BinDirs {
  import opened Options

  /** An entry of the search path: whether it has su, and its number of files where it can be walked. */
  datatype Item = Item(path: string, su: bool, files: Option<nat>)

  datatype Candidate = Candidate(path: string, files: nat)

  const PARTITIONS: seq<string> := ["/system/", "/vendor/", "/product/", "/system_ext/"]
  const APEX := "/system/apex/"
  const XBIN := "/system/xbin"
  const SYSTEM_PREFIX := "/system/"

  predicate Suitable(path: string, emulator: bool) {
    && (exists i :: 0 <= i < |PARTITIONS| && PARTITIONS[i] <= path)
    && !(APEX <= path)
    && !(emulator && XBIN <= path)
  }

  function Stripped(path: string): string {
    if SYSTEM_PREFIX <= path then "/" + path[|SYSTEM_PREFIX|..] else path
  }

  /** The candidates from the entry `i` on; nothing behind the first suitable one with su is looked at. */
  function Candidates(items: seq<Item>, emulator: bool, i: nat): seq<Candidate>
    requires i <= |items|
    decreases |items| - i
  {
    if i == |items| then []
    else
      var it := items[i];
      if !Suitable(it.path, emulator) then Candidates(items, emulator, i + 1)
      else if it.su then [Candidate(Stripped(it.path), 0)]
      else if it.files.Some? then
        [Candidate(Stripped(it.path), it.files.value)] + Candidates(items, emulator, i + 1)
      else Candidates(items, emulator, i + 1)
  }

  method CollectCandidates(items: seq<Item>, emulator: bool) returns (cs: seq<Candidate>)
    ensures cs == Candidates(items, emulator, 0)
  {
    cs := [];
    var i := 0;
    while i < |items|
      invariant 0 <= i <= |items| && Candidates(items, emulator, 0) == cs + Candidates(items, emulator, i)
    {
      var it := items[i];
      i := i + 1;
      if !Suitable(it.path, emulator) {
        continue;
      }
      if it.su {
        cs := cs + [Candidate(Stripped(it.path), 0)];
        return;
      }
      if it.files.Some? {
        Regroup(cs, Candidate(Stripped(it.path), it.files.value), Candidates(items, emulator, i));
        cs := cs + [Candidate(Stripped(it.path), it.files.value)];
      }
    }
  }

  lemma {:induction false} Regroup(a: seq<Candidate>, c: Candidate, b: seq<Candidate>)
    ensures a + ([c] + b) == a + [c] + b
  {
  }

  // ---------------------------------------------------------------------
  // The stable sort
  // ---------------------------------------------------------------------

  /** Before the first one with at least as many files. */
  function Place(c: Candidate, cs: seq<Candidate>): seq<Candidate> {
    if cs == [] || c.files <= cs[0].files then [c] + cs else [cs[0]] + Place(c, cs[1..])
  }

  function SortByFiles(cs: seq<Candidate>): seq<Candidate> {
    if cs == [] then [] else Place(cs[0], SortByFiles(cs[1..]))
  }

  ghost predicate Ordered(cs: seq<Candidate>) {
    forall i, j :: 0 <= i < j < |cs| ==> cs[i].files <= cs[j].files
  }

  lemma {:induction false} PlaceKeeps(c: Candidate, cs: seq<Candidate>)
    ensures multiset(Place(c, cs)) == multiset(cs) + multiset{c}
    ensures forall x :: x in Place(c, cs) ==> x == c || x in cs
  {
    if cs != [] && c.files > cs[0].files {
      PlaceKeeps(c, cs[1..]);
      assert cs == [cs[0]] + cs[1..];
    }
  }

  lemma {:induction false} OrderedCons(c: Candidate, cs: seq<Candidate>)
    requires Ordered(cs) && forall x :: x in cs ==> c.files <= x.files
    ensures Ordered([c] + cs)
  {
  }

  lemma {:induction false} PlaceOrdered(c: Candidate, cs: seq<Candidate>)
    requires Ordered(cs)
    ensures Ordered(Place(c, cs)) && multiset(Place(c, cs)) == multiset(cs) + multiset{c}
  {
    PlaceKeeps(c, cs);
    if cs == [] || c.files <= cs[0].files {
      OrderedCons(c, cs);
    } else {
      PlaceOrdered(c, cs[1..]);
      PlaceKeeps(c, cs[1..]);
      OrderedCons(cs[0], Place(c, cs[1..]));
    }
  }

  /** The candidates, each as often as before, with fewer files first. */
  lemma {:induction false} SortIsOrdered(cs: seq<Candidate>)
    ensures Ordered(SortByFiles(cs)) && multiset(SortByFiles(cs)) == multiset(cs)
  {
    if cs != [] {
      SortIsOrdered(cs[1..]);
      PlaceOrdered(cs[0], SortByFiles(cs[1..]));
      assert cs == [cs[0]] + cs[1..];
    }
  }

  // ---------------------------------------------------------------------
  // Paths
  // ---------------------------------------------------------------------

  function Pieces(s: string): (ps: seq<string>)
    ensures ps != []
  {
    if s == "" then [""]
    else
      var rest := Pieces(s[1..]);
      if s[0] == '/' then [""] + rest else [[s[0]] + rest[0]] + rest[1..]
  }

  function Normal(ps: seq<string>): seq<string> {
    if ps == [] then []
    else if ps[0] == "" || ps[0] == "." || ps[0] == ".." then Normal(ps[1..])
    else [ps[0]] + Normal(ps[1..])
  }

  function Components(path: string): seq<string> {
    Normal(Pieces(path))
  }

  function PathsOf(cs: seq<Candidate>): seq<seq<string>> {
    if cs == [] then [] else [Components(cs[0].path)] + PathsOf(cs[1..])
  }

  /** The name of a directory, without slashes and dots. */
  predicate PlainName(name: string) {
    '/' !in name && name != "" && name != "." && name != ".."
  }

  lemma {:induction false} PiecesPlain(s: string)
    requires '/' !in s
    ensures Pieces(s) == [s]
  {
    if s != "" {
      PiecesPlain(s[1..]);
      assert s == [s[0]] + s[1..];
    }
  }

  lemma {:induction false} StripsSystem(name: string)
    ensures Stripped(SYSTEM_PREFIX + name) == "/" + name
  {
    assert (SYSTEM_PREFIX + name)[|SYSTEM_PREFIX|..] == name;
  }

  /** A directory of the system partition is named by its name alone. */
  lemma {:induction false} SystemDirectory(name: string)
    requires PlainName(name)
    ensures Components(Stripped(SYSTEM_PREFIX + name)) == [name]
  {
    StripsSystem(name);
    PiecesPlain(name);
    var s := "/" + name;
    assert s[0] == '/' && s[1..] == name;
    assert Pieces(s) == [""] + [name];
    assert ([""] + [name])[1..] == [name] && [name][1..] == [];
    assert Normal([name]) == [name] + Normal([]);
  }

  lemma {:induction false} SystemIsSuitable(name: string)
    requires '/' !in name
    ensures Suitable(SYSTEM_PREFIX + name, false)
  {
    var path := SYSTEM_PREFIX + name;
    assert PARTITIONS[0] == SYSTEM_PREFIX && PARTITIONS[0] <= path;
    assert APEX[12] == '/' && (|name| > 4 ==> path[12] == name[4]);
  }

  /** A directory of one of the four partitions, not of an apex, and on an emulator not one that begins like xbin. */
  predicate Eligible(path: string, emulator: bool) {
    && ("/system/" <= path || "/vendor/" <= path || "/product/" <= path || "/system_ext/" <= path)
    && !("/system/apex/" <= path) && (emulator ==> !("/system/xbin" <= path))
  }

  lemma {:induction false} EligibleIff(path: string, emulator: bool)
    ensures Suitable(path, emulator) <==> Eligible(path, emulator)
  {
    assert PARTITIONS[0] == "/system/" && PARTITIONS[1] == "/vendor/" && PARTITIONS[2] == "/product/";
    assert PARTITIONS[3] == "/system_ext/";
  }

  /** The directory with the first part of a system path cut off. */
  predicate Renamed(path: string, dir: string) {
    if "/system/" <= path then dir == "/" + path[8..] else dir == path
  }

  /** The entry at `k` makes this candidate. */
  predicate Makes(items: seq<Item>, emulator: bool, k: nat, c: Candidate)
    requires k < |items|
  {
    && Eligible(items[k].path, emulator) && Renamed(items[k].path, c.path)
    && (if items[k].su then c.files == 0 else items[k].files == Some(c.files))
  }

  ghost predicate NoSuBefore(items: seq<Item>, emulator: bool, from: nat, k: nat)
    requires k <= |items|
  {
    forall j :: from <= j < k && Eligible(items[j].path, emulator) ==> !items[j].su
  }

  ghost predicate MadeFrom(items: seq<Item>, emulator: bool, i: nat, c: Candidate) {
    exists k :: i <= k < |items| && Makes(items, emulator, k, c) && NoSuBefore(items, emulator, i, k)
  }

  lemma {:induction false} MadeNext(items: seq<Item>, emulator: bool, i: nat, c: Candidate)
    requires i < |items|
    ensures MadeFrom(items, emulator, i, c) <==>
            || Makes(items, emulator, i, c)
            || (!(Eligible(items[i].path, emulator) && items[i].su) && MadeFrom(items, emulator, i + 1, c))
  {
    var next := i + 1;
    if MadeFrom(items, emulator, i, c) {
      var k :| i <= k < |items| && Makes(items, emulator, k, c) && NoSuBefore(items, emulator, i, k);
      assert k > i ==> NoSuBefore(items, emulator, next, k);
    }
    if MadeFrom(items, emulator, next, c) && !(Eligible(items[i].path, emulator) && items[i].su) {
      var k :| next <= k < |items| && Makes(items, emulator, k, c) && NoSuBefore(items, emulator, next, k);
      assert NoSuBefore(items, emulator, i, k);
    }
    if Makes(items, emulator, i, c) {
      assert NoSuBefore(items, emulator, i, i);
    }
  }

  /** The candidates are made by the eligible entries up to the first that has su, and by no other. */
  lemma {:induction false} CandidatesIff(items: seq<Item>, emulator: bool, i: nat, c: Candidate)
    requires i <= |items|
    ensures c in Candidates(items, emulator, i) <==> MadeFrom(items, emulator, i, c)
    decreases |items| - i
  {
    if i < |items| {
      EligibleIff(items[i].path, emulator);
      CandidatesIff(items, emulator, i + 1, c);
      MadeNext(items, emulator, i, c);
    }
  }
}
