/**
 * When restore after backup is exact, for archives with any names, and with the dump
 * and the load that lie between the two commands (native/src/boot/cpio.rs).
 */
module BackupExact {
  import opened Options
  import opened Bytes
  import opened CpioFormat
  import opened CpioBackup

  // ---------------------------------------------------------------------
  // Paths are normalised once
  // ---------------------------------------------------------------------

  lemma {:induction false} PiecesArePlain(s: bytes, sep: byte)
    ensures forall i :: 0 <= i < |Split(s, sep)| ==> sep !in Split(s, sep)[i]
  {
    if s != [] {
      PiecesArePlain(s[1..], sep);
    }
  }

  lemma {:induction false} NonEmptyKeeps(pieces: seq<bytes>)
    requires forall i :: 0 <= i < |pieces| ==> SLASH !in pieces[i]
    ensures forall i :: 0 <= i < |NonEmpty(pieces)| ==> SLASH !in NonEmpty(pieces)[i] && NonEmpty(pieces)[i] != []
  {
    if pieces != [] {
      NonEmptyKeeps(pieces[1..]);
    }
  }

  lemma {:induction false} NonEmptySame(pieces: seq<bytes>)
    requires forall i :: 0 <= i < |pieces| ==> pieces[i] != []
    ensures NonEmpty(pieces) == pieces
  {
    if pieces != [] {
      NonEmptySame(pieces[1..]);
    }
  }

  lemma {:induction false} SplitInterspersed(pieces: seq<bytes>)
    requires pieces != [] && forall i :: 0 <= i < |pieces| ==> SLASH !in pieces[i]
    ensures Split(Intersperse(pieces), SLASH) == pieces
  {
    if |pieces| == 1 {
      SplitPlain(pieces[0], SLASH);
    } else {
      SplitInterspersed(pieces[1..]);
      SplitFirst(pieces[0], SLASH, Intersperse(pieces[1..]));
      assert pieces == [pieces[0]] + pieces[1..];
    }
  }

  lemma {:induction false} NormTwice(path: bytes)
    ensures NormPath(NormPath(path)) == NormPath(path)
  {
    var pieces := NonEmpty(Split(path, SLASH));
    PiecesArePlain(path, SLASH);
    NonEmptyKeeps(Split(path, SLASH));
    if pieces == [] {
      assert Split([], SLASH) == [[]];
      assert NonEmpty([[]]) == NonEmpty([[]][1..]);
    } else {
      SplitInterspersed(pieces);
      NonEmptySame(pieces);
    }
  }

  /** A removal list takes away all the names it was made of exactly when these are paths in normal form. */
  lemma {:induction false} TakenAwayIff(added: set<bytes>, taken: set<bytes>)
    requires taken == set x | x in added && x != [] :: NormPath(x)
    ensures added <= taken <==> forall n :: n in added ==> n != [] && NormPath(n) == n
    ensures added <= taken ==> taken == added
  {
    if added <= taken {
      forall n | n in added ensures NormPath(n) == n {
        var x :| x in added && x != [] && NormPath(x) == n;
        NormTwice(x);
      }
    }
  }

  // ---------------------------------------------------------------------
  // Counting
  // ---------------------------------------------------------------------

  ghost predicate OneToOne(f: map<bytes, bytes>) {
    forall x, y :: x in f && y in f && x != y ==> f[x] != f[y]
  }

  lemma {:induction false} FewValues(f: map<bytes, bytes>)
    ensures |f.Values| <= |f.Keys|
    ensures |f.Values| == |f.Keys| ==> OneToOne(f)
    decreases |f|
  {
    if f != map[] {
      var x :| x in f;
      var g := f - {x};
      FewValues(g);
      assert f.Keys == g.Keys + {x} && x !in g.Keys;
      ValuesSplit(f, x);
      if f[x] in g.Values {
        assert g.Values + {f[x]} == g.Values;
      } else {
        forall y | y in g ensures f[y] != f[x] {
          assert g[y] in g.Values;
        }
      }
    }
  }

  lemma {:induction false} ValuesSplit(f: map<bytes, bytes>, x: bytes)
    requires x in f
    ensures f.Values == (f - {x}).Values + {f[x]}
  {
    var g := f - {x};
    forall v | v in f.Values ensures v in g.Values + {f[x]} {
      var y :| y in f && f[y] == v;
      if y != x {
        assert y in g && g[y] == v;
      }
    }
    forall v | v in g.Values ensures v in f.Values {
      var y :| y in g && g[y] == v;
      assert f[y] == v;
    }
    assert f[x] in f.Values;
  }

  lemma {:induction false} Within(a: set<bytes>, b: set<bytes>)
    requires a <= b
    ensures |a| <= |b| && (|a| == |b| ==> a == b)
  {
    var rest := b - a;
    assert b == a + rest;
    if |a| == |b| {
      assert rest == {};
    }
  }

  /** A chain of maps from a set back over all of it loses nothing on the way. */
  lemma {:induction false} Chain(names: set<bytes>, back: set<bytes>, places: map<bytes, bytes>,
      ways: map<bytes, bytes>)
    requires places.Keys <= names && names <= back && back <= ways.Values && ways.Keys <= places.Values
    ensures places.Keys == names && OneToOne(places)
  {
    FewValues(places);
    FewValues(ways);
    Within(names, back);
    Within(back, ways.Values);
    Within(ways.Keys, places.Values);
    Within(places.Keys, names);
  }

  // ---------------------------------------------------------------------
  // Where the backup directory loses an entry
  // ---------------------------------------------------------------------

  lemma {:induction false} StoredKeys(xz: Xz, skip: bool, o: Archive, names: seq<bytes>)
    requires forall n :: n in names ==> n in o
    ensures forall k :: k in StoreAll(xz, skip, o, names) ==>
              k == BACKUP || exists n :: n in names && k == KeyOf(xz, skip, o, n)
    decreases |names|
  {
    if names != [] {
      var init, last := names[..|names| - 1], names[|names| - 1];
      StoredKeys(xz, skip, o, init);
      forall k | k in StoreAll(xz, skip, o, names) && k != BACKUP
        ensures exists n :: n in names && k == KeyOf(xz, skip, o, n)
      {
        if k == KeyOf(xz, skip, o, last) {
          assert last in names;
        } else {
          assert k in StoreAll(xz, skip, o, init);
          var n :| n in init && k == KeyOf(xz, skip, o, n);
          assert n in names;
        }
      }
    }
  }

  lemma {:induction false} UnstoredNames(xz: Xz, a: Archive, keys: seq<bytes>)
    requires forall k :: k in keys ==> k in a && StartsWith(k, PREFIX)
    ensures forall n :: n in UnstoreAll(xz, a, keys) ==>
              exists k :: k in keys && !Special(NameOf(k)) && n == Unstored(xz, NameOf(k), a[k]).0
    decreases |keys|
  {
    if keys != [] {
      var init, last := keys[..|keys| - 1], keys[|keys| - 1];
      UnstoredNames(xz, a, init);
      forall n | n in UnstoreAll(xz, a, keys)
        ensures exists k :: k in keys && !Special(NameOf(k)) && n == Unstored(xz, NameOf(k), a[k]).0
      {
        if n in UnstoreAll(xz, a, init) {
          var k :| k in init && !Special(NameOf(k)) && n == Unstored(xz, NameOf(k), a[k]).0;
          assert k in keys;
        } else {
          assert last in keys;
        }
      }
    }
  }

  /** The place in the backup directory of each entry, where that is not taken for something else. */
  ghost function Places(xz: Xz, skip: bool, o: Archive, names: set<bytes>): map<bytes, bytes>
    requires forall n :: n in names ==> n in o
  {
    map n | n in names && !Special(Stored(xz, skip, n, o[n]).0) :: KeyOf(xz, skip, o, n)
  }

  /** The name under which restore puts the entry at each key back. */
  ghost function Returns(xz: Xz, e: Archive, keys: set<bytes>): map<bytes, bytes>
    requires forall k :: k in keys ==> k in e && StartsWith(k, PREFIX)
  {
    map k | k in keys && !Special(NameOf(k)) :: Unstored(xz, NameOf(k), e[k]).0
  }

  lemma {:induction false} HasPlace(xz: Xz, skip: bool, o: Archive, names: set<bytes>, n: bytes)
    requires (forall m :: m in names ==> m in o) && n in names
    requires StartsWith(KeyOf(xz, skip, o, n), PREFIX) && !Special(NameOf(KeyOf(xz, skip, o, n)))
    ensures KeyOf(xz, skip, o, n) in Places(xz, skip, o, names).Values
  {
    PrefixInjective(Stored(xz, skip, n, o[n]).0, []);
    assert n in Places(xz, skip, o, names);
  }

  /** The name under which an entry put away alone comes back. */
  ghost function BackAs(xz: Xz, skip: bool, name: bytes, e: CpioEntry): bytes {
    Unstored(xz, Stored(xz, skip, name, e).0, Stored(xz, skip, name, e).1).0
  }

  /** An entry that looks compressed returns under a shorter name, so another one must return as it. */
  lemma {:induction false} NoneLooksCompressed(xz: Xz, skip: bool, o: Archive, names: set<bytes>, n: bytes, bound: nat)
    requires Inverse(xz) && (forall m :: m in names ==> m in o && |m| <= bound) && n in names
    requires forall m :: m in names ==> exists from :: from in names && BackAs(xz, skip, from, o[from]) == m
    ensures !LooksCompressed(xz, skip, n, o[n])
    decreases bound - |n|
  {
    var from :| from in names && BackAs(xz, skip, from, o[from]) == n;
    UnstoredStored(xz, skip, from, o[from]);
    if from != n {
      assert |from| == |n| + 3;
      NoneLooksCompressed(xz, skip, o, names, from, bound);
    }
  }

  lemma {:induction false} Longest(names: set<bytes>) returns (bound: nat)
    ensures forall n :: n in names ==> |n| <= bound
    decreases |names|
  {
    if names == {} {
      bound := 0;
    } else {
      var n :| n in names;
      var rest := Longest(names - {n});
      bound := rest + |n|;
      forall m | m in names ensures |m| <= bound {
        if m != n {
          assert m in names - {n};
        }
      }
    }
  }

  // ---------------------------------------------------------------------
  // What the names must satisfy
  // ---------------------------------------------------------------------

  /** The keys of the backup directory are those of the stored entries and of the removal list. */
  lemma {:induction false} DirectoryKeys(xz: Xz, skip: bool, o: Archive, names: seq<bytes>, rmList: bytes)
    requires forall n :: n in names ==> n in o
    ensures forall k :: k in WithRmList(StoreAll(xz, skip, o, names), rmList) ==>
              InBackup(k) &&
              (k == BACKUP || k == PREFIX + RMLIST || exists n :: n in names && k == KeyOf(xz, skip, o, n))
  {
    StoredKeys(xz, skip, o, names);
    forall k | k in WithRmList(StoreAll(xz, skip, o, names), rmList)
      ensures InBackup(k)
      ensures k == BACKUP || k == PREFIX + RMLIST || exists n :: n in names && k == KeyOf(xz, skip, o, n)
    {
      PrefixInjective(RMLIST, []);
      if n :| n in names && k == KeyOf(xz, skip, o, n) {
        PrefixInjective(Stored(xz, skip, n, o[n]).0, []);
      }
    }
  }

  /** What the archive after a backup holds below the backup directory. */
  ghost predicate AfterBackup(xz: Xz, skip: bool, o: Archive, held: set<bytes>, e: Archive)
    requires forall n :: n in held ==> n in o
  {
    forall k :: k in BackupKeys(e) && !Special(NameOf(k)) ==> exists n :: n in held && k == KeyOf(xz, skip, o, n)
  }

  lemma {:induction false} KeysAfterBackup(xz: Xz, skip: bool, o: Archive, r: Archive, names: seq<bytes>,
      held: set<bytes>, rmList: bytes, e: Archive)
    requires (forall n :: n in names ==> n in o) && (forall n :: n in held <==> n in names)
    requires (forall n :: n in r ==> !InBackup(n)) && e == r + WithRmList(StoreAll(xz, skip, o, names), rmList)
    ensures AfterBackup(xz, skip, o, held, e) && Clean(e) == r
  {
    var st := WithRmList(StoreAll(xz, skip, o, names), rmList);
    DirectoryKeys(xz, skip, o, names, rmList);
    CleanMerge(r, st);
    forall k | k in BackupKeys(e) && !Special(NameOf(k)) ensures exists n :: n in held && k == KeyOf(xz, skip, o, n) {
      assert InBackup(k) && k in st;
      KeyName(k);
      assert k != BACKUP;
      var n :| n in names && k == KeyOf(xz, skip, o, n);
      assert n in held;
    }
  }

  lemma {:induction false} WaysBack(xz: Xz, e: Archive, keys: seq<bytes>)
    requires forall k :: k in keys <==> k in BackupKeys(e)
    ensures UnstoreAll(xz, e, keys).Keys <= Returns(xz, e, BackupKeys(e)).Values
  {
    UnstoredNames(xz, e, keys);
    var ways := Returns(xz, e, BackupKeys(e));
    forall n | n in UnstoreAll(xz, e, keys) ensures n in ways.Values {
      var k :| k in keys && !Special(NameOf(k)) && n == Unstored(xz, NameOf(k), e[k]).0;
      assert k in ways && ways[k] == n;
    }
  }

  lemma {:induction false} WaysFromPlaces(xz: Xz, skip: bool, o: Archive, held: set<bytes>, e: Archive)
    requires (forall n :: n in held ==> n in o) && AfterBackup(xz, skip, o, held, e)
    ensures Returns(xz, e, BackupKeys(e)).Keys <= Places(xz, skip, o, held).Values
  {
    forall k | k in Returns(xz, e, BackupKeys(e)) ensures k in Places(xz, skip, o, held).Values {
      var n :| n in held && k == KeyOf(xz, skip, o, n);
      HasPlace(xz, skip, o, held, n);
    }
  }

  /** All differing entries come back only if each has a place of its own. */
  lemma {:induction false} PlacesNeeded(xz: Xz, skip: bool, o: Archive, held: set<bytes>, e: Archive, keys: seq<bytes>)
    requires (forall n :: n in held ==> n in o) && AfterBackup(xz, skip, o, held, e)
    requires (forall k :: k in keys <==> k in BackupKeys(e)) && held <= UnstoreAll(xz, e, keys).Keys
    ensures Places(xz, skip, o, held).Keys == held && OneToOne(Places(xz, skip, o, held))
  {
    WaysBack(xz, e, keys);
    WaysFromPlaces(xz, skip, o, held, e);
    PlacesWithin(xz, skip, o, held);
    Chain(held, UnstoreAll(xz, e, keys).Keys, Places(xz, skip, o, held), Returns(xz, e, BackupKeys(e)));
  }

  lemma {:induction false} PlacesWithin(xz: Xz, skip: bool, o: Archive, held: set<bytes>)
    requires forall n :: n in held ==> n in o
    ensures Places(xz, skip, o, held).Keys <= held
  {
  }

  lemma {:induction false} DistinctFromPlaces(xz: Xz, skip: bool, o: Archive, held: set<bytes>, names: seq<bytes>)
    requires (forall n :: n in held ==> n in o) && (forall n :: n in held <==> n in names)
    requires Places(xz, skip, o, held).Keys == held && OneToOne(Places(xz, skip, o, held))
    ensures DistinctKeys(xz, skip, o, names)
    ensures forall n, m :: n in held && m in held && n != m ==>
              Stored(xz, skip, n, o[n]).0 != Stored(xz, skip, m, o[m]).0
    ensures forall n :: n in held ==> !Special(Stored(xz, skip, n, o[n]).0)
  {
    forall n | n in held ensures n in Places(xz, skip, o, held) && !Special(Stored(xz, skip, n, o[n]).0) {
      assert n in Places(xz, skip, o, held).Keys;
    }
    forall n, m | n in held && m in held && n != m ensures KeyOf(xz, skip, o, n) != KeyOf(xz, skip, o, m) {
      assert Places(xz, skip, o, held)[n] != Places(xz, skip, o, held)[m];
    }
  }

  /** Each entry that comes back was put away under some name. */
  lemma {:induction false} Comes(xz: Xz, skip: bool, o: Archive, held: set<bytes>, e: Archive, keys: seq<bytes>,
      m: bytes)
    requires (forall n :: n in held ==> n in o) && AfterBackup(xz, skip, o, held, e) &&
      HoldsBackups(xz, skip, o, held, e)
    requires (forall k :: k in keys <==> k in BackupKeys(e)) && m in UnstoreAll(xz, e, keys)
    ensures exists from :: from in held && BackAs(xz, skip, from, o[from]) == m
  {
    UnstoredNames(xz, e, keys);
    var k :| k in keys && !Special(NameOf(k)) && m == Unstored(xz, NameOf(k), e[k]).0;
    var from :| from in held && k == KeyOf(xz, skip, o, from);
    PrefixInjective(Stored(xz, skip, from, o[from]).0, []);
    assert BackAs(xz, skip, from, o[from]) == m;
  }

  /** What the first half of `WellNamed` says, for a set of entries. */
  ghost predicate Travels(xz: Xz, skip: bool, o: Archive, held: set<bytes>)
    requires forall n :: n in held ==> n in o
  {
    && (forall n :: n in held ==> !LooksCompressed(xz, skip, n, o[n]) && !Special(Stored(xz, skip, n, o[n]).0))
    && (forall n, m :: n in held && m in held && n != m ==>
          Stored(xz, skip, n, o[n]).0 != Stored(xz, skip, m, o[m]).0)
  }

  lemma {:induction false} TravelsNeeded(xz: Xz, skip: bool, o: Archive, r: Archive, names: seq<bytes>,
      held: set<bytes>, rmList: bytes, e: Archive, keys: seq<bytes>)
    requires Inverse(xz) && (forall n :: n in names ==> n in o) && held == set n | n in names
    requires (forall n :: n in r ==> !InBackup(n)) && e == r + WithRmList(StoreAll(xz, skip, o, names), rmList)
    requires (forall k :: k in keys <==> k in BackupKeys(e)) && held <= UnstoreAll(xz, e, keys).Keys
    ensures Travels(xz, skip, o, held) && BackupState(xz, skip, o, r, held, rmList, e)
  {
    KeysAfterBackup(xz, skip, o, r, names, held, rmList, e);
    PlacesNeeded(xz, skip, o, held, e, keys);
    DistinctFromPlaces(xz, skip, o, held, names);
    var e' := BackupLeaves(xz, skip, o, r, names, rmList);
    NoneLookCompressed(xz, skip, o, held, e, keys);
  }

  lemma {:induction false} NoneLookCompressed(xz: Xz, skip: bool, o: Archive, held: set<bytes>, e: Archive,
      keys: seq<bytes>)
    requires Inverse(xz) && forall n :: n in held ==> n in o
    requires AfterBackup(xz, skip, o, held, e) && HoldsBackups(xz, skip, o, held, e)
    requires (forall k :: k in keys <==> k in BackupKeys(e)) && held <= UnstoreAll(xz, e, keys).Keys
    ensures forall n :: n in held ==> !LooksCompressed(xz, skip, n, o[n])
  {
    forall m | m in held ensures exists from :: from in held && BackAs(xz, skip, from, o[from]) == m {
      Comes(xz, skip, o, held, e, keys, m);
    }
    var bound := Longest(held);
    forall n | n in held ensures !LooksCompressed(xz, skip, n, o[n]) {
      NoneLooksCompressed(xz, skip, o, held, n, bound);
    }
  }

  /** The names a list takes away, for any names. */
  lemma {:induction false} TakenAway(e: Archive, names: seq<bytes>, added: set<bytes>)
    requires (forall n :: n in names <==> n in added) && forall n :: n in added ==> Utf8(n) && 0 !in n
    requires PREFIX + RMLIST in e <==> RmList(names) != []
    requires RmList(names) != [] ==> e[PREFIX + RMLIST].data == RmList(names)
    ensures RmNames(RmText(e)) == set x | x in added && x != [] :: NormPath(x)
  {
    RmListIsUtf8(names);
    RmListSplits(names);
    assert RmText(e) == RmList(names);
    var pieces := names + [[]];
    forall x ensures x in pieces && x != [] <==> x in added && x != [] {
    }
  }

  // ---------------------------------------------------------------------
  // The main results
  // ---------------------------------------------------------------------

  /** The names an archive can have in the source: text without a NUL. */
  ghost predicate Texts(a: Archive) {
    forall n :: n in a ==> Utf8(n) && 0 !in n
  }

  /** The names of the original, with the original's own entry wherever the data differs. */
  ghost predicate GivesBack(o: Archive, r: Archive, t: Archive) {
    t.Keys == o.Keys && forall n :: n in Differing(o, r) ==> t[n] == o[n]
  }

  lemma {:induction false} DifferingComeBack(xz: Xz, o: Archive, r: Archive, e: Archive)
    requires Clean(e) == r && GivesBack(o, r, Restored(xz, e))
    ensures Differing(o, r) <= UnstoreAll(xz, e, SortedKeys(BackupKeys(e))).Keys
  {
    var backups, t := UnstoreAll(xz, e, SortedKeys(BackupKeys(e))), Restored(xz, e);
    forall n | n in Differing(o, r) ensures n in backups {
      assert n in t && t[n] == o[n];
    }
  }

  lemma {:induction false} AddedGo(xz: Xz, o: Archive, r: Archive, e: Archive, added: seq<bytes>)
    requires Clean(e) == r && GivesBack(o, r, Restored(xz, e)) && Texts(r)
    requires forall n :: n in added <==> n in Added(o, r)
    requires PREFIX + RMLIST in e <==> RmList(added) != []
    requires RmList(added) != [] ==> e[PREFIX + RMLIST].data == RmList(added)
    ensures forall n :: n in Added(o, r) ==> n != [] && NormPath(n) == n
  {
    TakenAway(e, added, Added(o, r));
    RmListIsUtf8(added);
    RmListSplits(added);
    forall n | n in Added(o, r) ensures n in RmNames(RmText(e)) {
      assert n in added && n !in Restored(xz, e);
    }
    TakenAwayIff(Added(o, r), RmNames(RmText(e)));
  }

  /** Restore gives the differing entries back and the added names away only with well-chosen names. */
  lemma {:induction false} NamesNeeded(xz: Xz, skip: bool, o: Archive, r: Archive, names: seq<bytes>, added: seq<bytes>,
      e: Archive)
    requires Inverse(xz) && Texts(r) && (forall n :: n in r ==> !InBackup(n))
    requires (forall n :: n in names <==> n in Differing(o, r)) && forall n :: n in added <==> n in Added(o, r)
    requires e == r + WithRmList(StoreAll(xz, skip, o, names), RmList(added))
    requires GivesBack(o, r, Restored(xz, e))
    ensures WellNamed(xz, skip, o, r)
  {
    var held, keys := Differing(o, r), SortedKeys(BackupKeys(e));
    KeysAfterBackup(xz, skip, o, r, names, held, RmList(added), e);
    DifferingComeBack(xz, o, r, e);
    assert held == set n | n in names;
    TravelsNeeded(xz, skip, o, r, names, held, RmList(added), e, keys);
    AddedGo(xz, o, r, e, added);
  }

  lemma {:induction false} CleanTexts(a: Archive)
    requires Texts(a)
    ensures Texts(Clean(a)) && forall n :: n in Clean(a) ==> !InBackup(n)
  {
  }

  /**
   * Restore after backup, for archives with any names. Without any difference it empties
   * the archive. Otherwise it gives the original back, up to metadata of entries whose
   * data never changed, exactly when the names find their way.
   */
  lemma {:induction false} RestoreRecoversIff(xz: Xz, skip: bool, self: Archive, origin: Archive)
    requires Inverse(xz) && Texts(self)
    ensures
      var o, r := Clean(origin), Clean(self);
      var t := Restored(xz, BackedUp(xz, skip, self, origin));
      if Differing(o, r) == {} && Added(o, r) == {} then t == map[]
      else t == Recovered(o, r) <==> WellNamed(xz, skip, o, r)
  {
    var o, r := Clean(origin), Clean(self);
    var e := BackedUp(xz, skip, self, origin);
    CleanTexts(self);
    if Differing(o, r) == {} && Added(o, r) == {} {
      assert WellNamed(xz, skip, o, r);
    }
    if WellNamed(xz, skip, o, r) {
      RestoreAfterBackup(xz, skip, self, origin);
    } else if Restored(xz, e) == Recovered(o, r) {
      NamesNeeded(xz, skip, o, r, SortedKeys(Differing(o, r)), SortedKeys(Added(o, r)), e);
    }
  }

  /**
   * Exactly when the round trip gives the original back unchanged: the names find their
   * way, no entry changed its metadata alone, and something differs or nothing was there.
   */
  lemma {:induction false} RestoreIsExactIff(xz: Xz, skip: bool, self: Archive, origin: Archive)
    requires Inverse(xz) && Texts(self)
    ensures
      var o, r := Clean(origin), Clean(self);
      Restored(xz, BackedUp(xz, skip, self, origin)) == o <==>
        && WellNamed(xz, skip, o, r)
        && (forall n :: n in o && n in r && o[n].data == r[n].data ==> o[n] == r[n])
        && (Differing(o, r) != {} || Added(o, r) != {} || o == map[])
  {
    var o, r := Clean(origin), Clean(self);
    var e := BackedUp(xz, skip, self, origin);
    CleanTexts(self);
    if WellNamed(xz, skip, o, r) {
      RestoreAfterBackup(xz, skip, self, origin);
      RecoveredExactIff(o, r);
    } else if Restored(xz, e) == o {
      NamesNeeded(xz, skip, o, r, SortedKeys(Differing(o, r)), SortedKeys(Added(o, r)), e);
    }
  }

  const INIT: bytes := [0x69, 0x6E, 0x69, 0x74]                // init
  const SLASH_INIT: bytes := [0x2F, 0x69, 0x6E, 0x69, 0x74]    // /init

  lemma {:induction false} SlashInitNorm()
    ensures NormPath(SLASH_INIT) == INIT && INIT != SLASH_INIT
  {
    SplitPlain(INIT, SLASH);
    SplitFirst([], SLASH, INIT);
    assert [] + [SLASH] + INIT == SLASH_INIT;
    var pieces := [[]] + [INIT];
    assert pieces[1..] == [INIT] && [INIT][1..] == [];
    assert NonEmpty([INIT]) == [INIT] + NonEmpty([]);
  }

  /** An entry added as /init is listed for removal as init: the round trip does not give the original back. */
  lemma {:induction false} SlashInitStays(xz: Xz, skip: bool, origin: Archive, e: CpioEntry)
    requires Inverse(xz) && Texts(origin) && SLASH_INIT !in origin
    ensures Restored(xz, BackedUp(xz, skip, origin[SLASH_INIT := e], origin)) != Clean(origin)
  {
    var self := origin[SLASH_INIT := e];
    var name := SLASH_INIT;
    AsciiIsUtf8(name, 0);
    SlashInitNorm();
    assert name in Added(Clean(origin), Clean(self));
    RestoreIsExactIff(xz, skip, self, origin);
  }

  // ---------------------------------------------------------------------
  // Through a file
  // ---------------------------------------------------------------------

  /** The sizes backup adds still fit the format. */
  ghost predicate Fits(xz: Xz, skip: bool, o: Archive, r: Archive) {
    && (forall n :: n in Differing(o, r) ==> |Stored(xz, skip, n, o[n]).1.data| < U32 && |n| + 12 < U32)
    && |RmList(SortedKeys(Added(o, r)))| < U32
    && FIRST_INODE + |r| + |Differing(o, r)| + 2 < U32
  }

  lemma {:induction false} NotControl(name: bytes)
    requires Utf8(name) && 0 !in name && |name| > 1 && name[0] == 0x2E && name[1] == 0x62
    ensures LegalName(name)
  {
  }

  lemma {:induction false} InDirectory(prefix: bytes, name: bytes)
    requires prefix == PREFIX && Utf8(name) && 0 !in name
    ensures LegalName(prefix + name)
  {
    AsciiIsUtf8(prefix, 0);
    Utf8Concat(prefix, name);
    NotControl(prefix + name);
  }

  lemma {:induction false} StoredName(prefix: bytes, name: bytes, xz: bytes)
    requires prefix == PREFIX && xz == XZ && Utf8(name) && 0 !in name
    ensures LegalName(prefix + name) && LegalName(prefix + (name + xz))
  {
    AsciiIsUtf8(xz, 0);
    Utf8Concat(name, xz);
    InDirectory(prefix, name);
    InDirectory(prefix, name + xz);
  }

  lemma {:induction false} DirectoryName(name: bytes)
    requires name == BACKUP
    ensures LegalName(name)
  {
    AsciiIsUtf8(name, 0);
    NotControl(name);
  }

  lemma {:induction false} ListName(key: bytes, name: bytes)
    requires name == RMLIST && key == PREFIX + name
    ensures LegalName(key)
  {
    AsciiIsUtf8(name, 0);
    InDirectory(PREFIX, name);
  }

  ghost predicate LegalEntries(a: Archive) {
    forall n :: n in a ==> LegalEntry(n, a[n])
  }

  lemma {:induction false} StoreLegal(xz: Xz, skip: bool, o: Archive, names: seq<bytes>)
    requires forall n :: n in names ==> n in o && LegalEntry(n, o[n])
    requires forall n :: n in names ==> |Stored(xz, skip, n, o[n]).1.data| < U32 && |n| + 12 < U32
    ensures LegalEntries(StoreAll(xz, skip, o, names)) && |StoreAll(xz, skip, o, names)| <= |names| + 1
    decreases |names|
  {
    if names == [] {
      forall n | n in map[BACKUP := DIRECTORY] ensures LegalEntry(n, DIRECTORY) {
        DirectoryName(n);
      }
      assert map[BACKUP := DIRECTORY].Keys == {BACKUP};
      assert |map[BACKUP := DIRECTORY]| == |{BACKUP}|;
    } else {
      var init, last := names[..|names| - 1], names[|names| - 1];
      forall n | n in init ensures n in names {
      }
      assert last in names;
      StoreLegal(xz, skip, o, init);
      StoredName(PREFIX, last, XZ);
      OneMore(StoreAll(xz, skip, o, init), KeyOf(xz, skip, o, last), Stored(xz, skip, last, o[last]).1);
    }
  }

  lemma {:induction false} OneMore(a: Archive, k: bytes, e: CpioEntry)
    ensures |a[k := e]| <= |a| + 1
  {
    assert a[k := e].Keys == a.Keys + {k};
  }

  lemma {:induction false} BothCount(a: Archive, b: Archive)
    ensures |a + b| <= |a| + |b|
  {
    assert (a + b).Keys == a.Keys + b.Keys;
    var rest := b.Keys - a.Keys;
    assert a.Keys + b.Keys == a.Keys + rest;
    Within(rest, b.Keys);
  }

  lemma {:induction false} EnumerationCount(names: seq<bytes>, keys: set<bytes>)
    requires Sorted(names) && forall n :: n in names <==> n in keys
    ensures |names| == |keys|
    decreases |names|
  {
    if names == [] {
      assert keys == {};
    } else {
      var init, last := names[..|names| - 1], names[|names| - 1];
      NotYetSeen(names, |names| - 1);
      assert names == init + [last];
      EnumerationCount(init, keys - {last});
    }
  }

  /** A backup of archives the format can carry can be carried, as far as the sizes go. */
  lemma {:induction false} BackupIsLegal(xz: Xz, skip: bool, self: Archive, origin: Archive)
    requires Legal(self) && Legal(origin) && Fits(xz, skip, Clean(origin), Clean(self))
    ensures Legal(BackedUp(xz, skip, self, origin))
  {
    var o, r := Clean(origin), Clean(self);
    var names, rmList := SortedKeys(Differing(o, r)), RmList(SortedKeys(Added(o, r)));
    StoreLegal(xz, skip, o, names);
    EnumerationCount(names, Differing(o, r));
    Within(r.Keys, self.Keys);
    LegalTogether(r, StoreAll(xz, skip, o, names), rmList);
  }

  lemma {:induction false} LegalTogether(r: Archive, stored: Archive, rmList: bytes)
    requires LegalEntries(r) && LegalEntries(stored) && |rmList| < U32 && FIRST_INODE + |r| + |stored| + 1 < U32
    ensures Legal(r + WithRmList(stored, rmList))
  {
    var all := WithRmList(stored, rmList);
    forall n | n in all ensures LegalEntry(n, all[n]) {
      if n !in stored || all[n] != stored[n] {
        ListName(n, RMLIST);
      }
    }
    OneMore(stored, PREFIX + RMLIST, CpioEntry(0x8000, 0, 0, 0, 0, rmList));
    BothCount(r, all);
  }

  /** The commands as they are used: backup, dump, load, restore. */
  lemma {:induction false} RestoreThroughFileIff(xz: Xz, skip: bool, self: Archive, origin: Archive)
    requires Inverse(xz) && Legal(self) && Legal(origin) && Fits(xz, skip, Clean(origin), Clean(self))
    ensures
      var o, r := Clean(origin), Clean(self);
      var file := DumpBytes(BackedUp(xz, skip, self, origin));
      && Load(file).Loaded?
      && (Restored(xz, Load(file).entries) == o <==>
          && WellNamed(xz, skip, o, r)
          && (forall n :: n in o && n in r && o[n].data == r[n].data ==> o[n] == r[n])
          && (Differing(o, r) != {} || Added(o, r) != {} || o == map[]))
  {
    BackupIsLegal(xz, skip, self, origin);
    LoadDump(BackedUp(xz, skip, self, origin));
    RestoreIsExactIff(xz, skip, self, origin);
  }
}
