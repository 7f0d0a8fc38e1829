/**
 * The backup and restore commands of native/src/boot/cpio.rs. Backup is a sorted
 * merge of the original archive with the current one; restore is the patch that
 * takes the current archive back.
 */
module CpioBackup {
  import opened Options
  import opened Bytes
  import opened CpioFormat

  const SLASH: byte := 0x2F
  const BACKUP: bytes := [0x2E, 0x62, 0x61, 0x63, 0x6B, 0x75, 0x70]              // .backup
  const PREFIX: bytes := [0x2E, 0x62, 0x61, 0x63, 0x6B, 0x75, 0x70, 0x2F]        // .backup/
  const RMLIST: bytes := [0x2E, 0x72, 0x6D, 0x6C, 0x69, 0x73, 0x74]              // .rmlist
  const MAGISK: bytes := [0x2E, 0x6D, 0x61, 0x67, 0x69, 0x73, 0x6B]              // .magisk
  const XZ: bytes := [0x2E, 0x78, 0x7A]                                          // .xz

  const DIRECTORY: CpioEntry := CpioEntry(0x4000, 0, 0, 0, 0, [])

  // ---------------------------------------------------------------------
  // Paths
  // ---------------------------------------------------------------------

  function NonEmpty(pieces: seq<bytes>): seq<bytes> {
    if pieces == [] then []
    else if pieces[0] == [] then NonEmpty(pieces[1..])
    else [pieces[0]] + NonEmpty(pieces[1..])
  }

  function Intersperse(pieces: seq<bytes>): bytes {
    if pieces == [] then []
    else if |pieces| == 1 then pieces[0]
    else pieces[0] + [SLASH] + Intersperse(pieces[1..])
  }

  function NormPath(path: bytes): bytes {
    Intersperse(NonEmpty(Split(path, SLASH)))
  }

  /** A single component is its own normal form. */
  lemma {:induction false} NormComponent(s: bytes)
    requires SLASH !in s && s != []
    ensures NormPath(s) == s
  {
    SplitPlain(s, SLASH);
    assert NonEmpty([s]) == [s] + NonEmpty([s][1..]);
    assert [s][1..] == [];
  }

  /** The entries that `rm path` keeps. */
  function Removed(a: Archive, path: bytes, recursive: bool): Archive {
    var p := NormPath(path);
    map n | n in a && n != p && !(recursive && StartsWith(n, p + [SLASH])) :: a[n]
  }

  predicate InBackup(n: bytes) {
    n == BACKUP || StartsWith(n, PREFIX)
  }

  /** The archive without its backup subtree. */
  function Clean(a: Archive): Archive {
    map n | n in a && !InBackup(n) :: a[n]
  }

  lemma {:induction false} RemovedBackup(a: Archive, recursive: bool)
    ensures Removed(a, BACKUP, true) == Clean(a)
    ensures Removed(a, BACKUP, false) == map n | n in a && n != BACKUP :: a[n]
  {
    NormComponent(BACKUP);
    assert BACKUP + [SLASH] == PREFIX;
  }

  // ---------------------------------------------------------------------
  // The XZ coder, as far as the commands rely on it
  // ---------------------------------------------------------------------

  datatype Xz = Xz(compress: bytes -> Option<bytes>, decompress: bytes -> Option<bytes>)

  ghost predicate Inverse(xz: Xz) {
    forall d :: xz.compress(d).Some? ==> xz.decompress(xz.compress(d).value) == Some(d)
  }

  predicate IsRegular(e: CpioEntry) {
    e.mode / 0x1000 % 16 == 8
  }

  /** The name, without the directory, and the entry under which backup keeps an entry. */
  function Stored(xz: Xz, skip: bool, name: bytes, e: CpioEntry): (bytes, CpioEntry) {
    if !skip && IsRegular(e) && xz.compress(e.data).Some?
    then (name + XZ, e.(data := xz.compress(e.data).value))
    else (name, e)
  }

  /** The entry that restore makes of one it finds in the backup directory. */
  function Unstored(xz: Xz, name: bytes, e: CpioEntry): (bytes, CpioEntry) {
    if EndsWith(name, XZ) && IsRegular(e) && xz.decompress(e.data).Some?
    then (name[..|name| - 3], e.(data := xz.decompress(e.data).value))
    else (name, e)
  }

  /** Stored uncompressed, the entry would be taken for a compressed one. */
  predicate LooksCompressed(xz: Xz, skip: bool, name: bytes, e: CpioEntry) {
    Stored(xz, skip, name, e) == (name, e) && Unstored(xz, name, e) != (name, e)
  }

  /** An entry comes back from the backup directory exactly when it does not look compressed there. */
  lemma {:induction false} UnstoredStored(xz: Xz, skip: bool, name: bytes, e: CpioEntry)
    requires Inverse(xz)
    ensures Unstored(xz, Stored(xz, skip, name, e).0, Stored(xz, skip, name, e).1) == (name, e) <==>
            !LooksCompressed(xz, skip, name, e)
  {
    var (n, s) := Stored(xz, skip, name, e);
    if n == name + XZ {
      assert n[|n| - 3..] == XZ && n[..|n| - 3] == name;
    }
  }

  // ---------------------------------------------------------------------
  // What backup computes
  // ---------------------------------------------------------------------

  /** Entries of the original that the current archive lacks or has with other data. */
  function Differing(o: Archive, r: Archive): set<bytes> {
    set n | n in o && (n !in r || r[n].data != o[n].data)
  }

  /** Entries that only the current archive has. */
  function Added(o: Archive, r: Archive): set<bytes> {
    set n | n in r && n !in o
  }

  function Insert1(xz: Xz, skip: bool, name: bytes, e: CpioEntry, acc: Archive): Archive {
    acc[PREFIX + Stored(xz, skip, name, e).0 := Stored(xz, skip, name, e).1]
  }

  /** The backup directory with these entries of the original, inserted in turn. */
  function StoreAll(xz: Xz, skip: bool, o: Archive, names: seq<bytes>): Archive
    requires forall n :: n in names ==> n in o
    decreases |names|
  {
    if names == [] then map[BACKUP := DIRECTORY]
    else
      var last := names[|names| - 1];
      Insert1(xz, skip, last, o[last], StoreAll(xz, skip, o, names[..|names| - 1]))
  }

  /** The names to remove, each ended by a NUL. */
  function RmList(names: seq<bytes>): bytes
    decreases |names|
  {
    if names == [] then [] else RmList(names[..|names| - 1]) + names[|names| - 1] + [0]
  }

  function WithRmList(backups: Archive, rmList: bytes): Archive {
    if rmList == [] then backups
    else backups[PREFIX + RMLIST := CpioEntry(0x8000, 0, 0, 0, 0, rmList)]
  }

  ghost function BackedUp(xz: Xz, skip: bool, self: Archive, origin: Archive): Archive {
    var o, r := Clean(origin), Clean(self);
    r + WithRmList(StoreAll(xz, skip, o, SortedKeys(Differing(o, r))), RmList(SortedKeys(Added(o, r))))
  }

  // ---------------------------------------------------------------------
  // What restore computes
  // ---------------------------------------------------------------------

  /** The text of the removal list; a list that is not UTF-8 counts as empty. */
  function RmText(a: Archive): bytes {
    if PREFIX + RMLIST in a && Utf8(a[PREFIX + RMLIST].data) then a[PREFIX + RMLIST].data else []
  }

  /** The entries to put back, taken from these keys in turn. */
  function UnstoreAll(xz: Xz, a: Archive, keys: seq<bytes>): Archive
    requires forall k :: k in keys ==> k in a && StartsWith(k, PREFIX)
    decreases |keys|
  {
    if keys == [] then map[]
    else
      var k := keys[|keys| - 1];
      assert k in keys && StartsWith(k, PREFIX);
      var rest := UnstoreAll(xz, a, keys[..|keys| - 1]);
      var name := k[|PREFIX|..];
      if name == RMLIST || name == MAGISK then rest
      else rest[Unstored(xz, name, a[k]).0 := Unstored(xz, name, a[k]).1]
  }

  function BackupKeys(a: Archive): set<bytes> {
    set k | k in a && StartsWith(k, PREFIX)
  }

  /** The names that a removal list takes away. */
  function RmNames(text: bytes): set<bytes> {
    set x | x in Split(text, 0) && x != [] :: NormPath(x)
  }

  ghost function Restored(xz: Xz, a: Archive): Archive {
    var text := RmText(a);
    var backups := UnstoreAll(xz, a, SortedKeys(BackupKeys(a)));
    if text == [] && backups == map[] then map[] else (Clean(a) - RmNames(text)) + backups
  }

  lemma {:induction false} ConfigStaysOut(xz: Xz, a: Archive, b: Archive, keys: seq<bytes>)
    requires forall k :: k in keys ==> k in a && k in b && StartsWith(k, PREFIX)
    requires forall k :: k in keys && k != PREFIX + MAGISK ==> a[k] == b[k]
    ensures UnstoreAll(xz, a, keys) == UnstoreAll(xz, b, keys)
    decreases |keys|
  {
    if keys != [] {
      var k, init := keys[|keys| - 1], keys[..|keys| - 1];
      ConfigStaysOut(xz, a, b, init);
      assert k in keys && (k[|PREFIX|..] == MAGISK ==> k == PREFIX + MAGISK);
    }
  }

  /** The configuration kept in the backup directory is not put back: what it holds makes no difference. */
  lemma {:induction false} ConfigIsNotRestored(xz: Xz, a: Archive, e: CpioEntry)
    requires PREFIX + MAGISK in a
    ensures Restored(xz, a[PREFIX + MAGISK := e]) == Restored(xz, a)
  {
    var key := PREFIX + MAGISK;
    var b := a[key := e];
    assert key != PREFIX + RMLIST by {
      assert key[9] != (PREFIX + RMLIST)[9];
    }
    assert StartsWith(key, PREFIX);
    assert BackupKeys(a) == BackupKeys(b) && RmText(a) == RmText(b) && Clean(a) == Clean(b);
    ConfigStaysOut(xz, a, b, SortedKeys(BackupKeys(a)));
  }

  // ---------------------------------------------------------------------
  // Restore after backup
  // ---------------------------------------------------------------------

  /**
   * What the names must satisfy for restore to find its way back: an added name
   * survives its trip through the removal list, and a differing entry survives its
   * trip through the backup directory, without meeting another one there.
   */
  ghost predicate WellNamed(xz: Xz, skip: bool, o: Archive, r: Archive) {
    && (forall n :: n in Added(o, r) ==> Utf8(n) && 0 !in n && n != [] && NormPath(n) == n)
    && (forall n :: n in Differing(o, r) ==>
          !LooksCompressed(xz, skip, n, o[n]) && Stored(xz, skip, n, o[n]).0 !in {RMLIST, MAGISK})
    && (forall n, m :: n in Differing(o, r) && m in Differing(o, r) && n != m ==>
          Stored(xz, skip, n, o[n]).0 != Stored(xz, skip, m, o[m]).0)
  }

  /** The original, except that an entry with unchanged data keeps its current metadata. */
  function Recovered(o: Archive, r: Archive): Archive {
    map n | n in o :: if n in Differing(o, r) then o[n] else r[n]
  }

  function KeyOf(xz: Xz, skip: bool, o: Archive, n: bytes): bytes
    requires n in o
  {
    PREFIX + Stored(xz, skip, n, o[n]).0
  }

  lemma {:induction false} PrefixInjective(a: bytes, b: bytes)
    ensures PREFIX + a == PREFIX + b ==> a == b
    ensures StartsWith(PREFIX + a, PREFIX) && (PREFIX + a)[|PREFIX|..] == a
    ensures PREFIX + a != BACKUP
  {
    assert (PREFIX + a)[|PREFIX|..] == a && (PREFIX + b)[|PREFIX|..] == b;
    assert (PREFIX + a)[..|PREFIX|] == PREFIX;
    assert |PREFIX + a| >= 8;
  }

  ghost predicate DistinctKeys(xz: Xz, skip: bool, o: Archive, names: seq<bytes>)
    requires forall n :: n in names ==> n in o
  {
    forall n, m :: n in names && m in names && n != m ==> KeyOf(xz, skip, o, n) != KeyOf(xz, skip, o, m)
  }

  /** With distinct keys, the backup directory holds exactly one entry for each name. */
  lemma {:induction false} StoreAllHolds(xz: Xz, skip: bool, o: Archive, names: seq<bytes>)
    requires forall n :: n in names ==> n in o
    requires DistinctKeys(xz, skip, o, names)
    ensures forall n :: n in names ==>
              KeyOf(xz, skip, o, n) in StoreAll(xz, skip, o, names)
              && StoreAll(xz, skip, o, names)[KeyOf(xz, skip, o, n)] == Stored(xz, skip, n, o[n]).1
    ensures forall k :: k in StoreAll(xz, skip, o, names) ==>
              k == BACKUP || exists n :: n in names && k == KeyOf(xz, skip, o, n)
    decreases |names|
  {
    if names != [] {
      var init, last := names[..|names| - 1], names[|names| - 1];
      assert names == init + [last];
      StoreAllHolds(xz, skip, o, init);
    }
  }

  /** What backup compresses: regular files, unless told not to, where the coder succeeds. */
  predicate Packed(xz: Xz, skip: bool, e: CpioEntry) {
    !skip && 0x8000 <= e.mode % 0x10000 < 0x9000 && xz.compress(e.data).Some?
  }

  /** Two names would meet in the backup directory: one compressed, the other with that ending of its own. */
  predicate Meet(xz: Xz, skip: bool, o: Archive, n: bytes, m: bytes)
    requires n in o && m in o
  {
    || (m == n + XZ && Packed(xz, skip, o[n]) && !Packed(xz, skip, o[m]))
    || (n == m + XZ && Packed(xz, skip, o[m]) && !Packed(xz, skip, o[n]))
  }

  lemma {:induction false} StoredIs(xz: Xz, skip: bool, n: bytes, e: CpioEntry)
    ensures Packed(xz, skip, e) ==> Stored(xz, skip, n, e) == (n + XZ, e.(data := xz.compress(e.data).value))
    ensures !Packed(xz, skip, e) ==> Stored(xz, skip, n, e) == (n, e)
  {
    assert IsRegular(e) <==> 0x8000 <= e.mode % 0x10000 < 0x9000;
  }

  lemma {:induction false} MeetIff(xz: Xz, skip: bool, o: Archive, n: bytes, m: bytes)
    requires n in o && m in o && n != m
    ensures KeyOf(xz, skip, o, n) == KeyOf(xz, skip, o, m) <==> Meet(xz, skip, o, n, m)
  {
    StoredIs(xz, skip, n, o[n]);
    StoredIs(xz, skip, m, o[m]);
    PrefixInjective(Stored(xz, skip, n, o[n]).0, Stored(xz, skip, m, o[m]).0);
    assert (n + XZ)[..|n|] == n && (m + XZ)[..|m|] == m;
  }

  /** A name that meets no other keeps its place. */
  lemma {:induction false} StoreAllKeeps(xz: Xz, skip: bool, o: Archive, names: seq<bytes>, n: bytes)
    requires (forall m :: m in names ==> m in o) && n in names
    requires forall m :: m in names && m != n ==> KeyOf(xz, skip, o, m) != KeyOf(xz, skip, o, n)
    ensures KeyOf(xz, skip, o, n) in StoreAll(xz, skip, o, names)
    ensures StoreAll(xz, skip, o, names)[KeyOf(xz, skip, o, n)] == Stored(xz, skip, n, o[n]).1
    decreases |names|
  {
    var init, last := names[..|names| - 1], names[|names| - 1];
    assert names == init + [last];
    if last != n {
      StoreAllKeeps(xz, skip, o, init, n);
    }
  }

  lemma {:induction false} NotTheList(n: bytes)
    ensures n + XZ != RMLIST && PREFIX + n + XZ == PREFIX + (n + XZ)
  {
    assert (n + XZ)[|n| + 2] == 0x7A && RMLIST[|RMLIST| - 1] == 0x74;
  }

  lemma {:induction false} ListLeaves(r: Archive, stored: Archive, list: bytes, key: bytes)
    requires key in stored && key != PREFIX + RMLIST
    ensures key in r + WithRmList(stored, list) && (r + WithRmList(stored, list))[key] == stored[key]
  {
  }

  /**
   * An entry of the original that is missing now or has other data is kept under its name in the backup
   * directory, compressed and with the ending `.xz` exactly when it is a regular file, compression was
   * not switched off and worked; so long as it meets neither another name nor the removal list there.
   */
  lemma {:induction false} BackupKeeps(xz: Xz, skip: bool, self: Archive, origin: Archive, n: bytes)
    requires var o, r := Clean(origin), Clean(self);
             && n in o && (n !in r || r[n].data != o[n].data)
             && (forall m :: m in o && (m !in r || r[m].data != o[m].data) ==> !Meet(xz, skip, o, n, m))
             && (n != RMLIST || Packed(xz, skip, o[n]))
    ensures var e, after := Clean(origin)[n], BackedUp(xz, skip, self, origin);
            if Packed(xz, skip, e) then
              PREFIX + n + XZ in after && after[PREFIX + n + XZ] == e.(data := xz.compress(e.data).value)
            else PREFIX + n in after && after[PREFIX + n] == e
  {
    var o, r := Clean(origin), Clean(self);
    var names, key := SortedKeys(Differing(o, r)), KeyOf(xz, skip, o, n);
    forall m | m in names && m != n ensures KeyOf(xz, skip, o, m) != key {
      MeetIff(xz, skip, o, n, m);
    }
    StoreAllKeeps(xz, skip, o, names, n);
    StoredIs(xz, skip, n, o[n]);
    NotTheList(n);
    PrefixInjective(Stored(xz, skip, n, o[n]).0, RMLIST);
    ListLeaves(r, StoreAll(xz, skip, o, names), RmList(SortedKeys(Added(o, r))), key);
  }

  predicate Special(name: bytes) {
    name == RMLIST || name == MAGISK
  }

  function NameOf(k: bytes): bytes
    requires StartsWith(k, PREFIX)
  {
    k[|PREFIX|..]
  }

  /** With distinct names to go back to, every kept entry is put back. */
  lemma {:induction false} UnstoreAllHolds(xz: Xz, a: Archive, keys: seq<bytes>)
    requires forall k :: k in keys ==> k in a && StartsWith(k, PREFIX)
    requires forall k, m :: k in keys && m in keys && k != m && !Special(NameOf(k)) && !Special(NameOf(m)) ==>
               Unstored(xz, NameOf(k), a[k]).0 != Unstored(xz, NameOf(m), a[m]).0
    ensures forall k :: k in keys && !Special(NameOf(k)) ==>
              Unstored(xz, NameOf(k), a[k]).0 in UnstoreAll(xz, a, keys)
              && UnstoreAll(xz, a, keys)[Unstored(xz, NameOf(k), a[k]).0] == Unstored(xz, NameOf(k), a[k]).1
    ensures forall n :: n in UnstoreAll(xz, a, keys) ==>
              exists k :: k in keys && !Special(NameOf(k)) && n == Unstored(xz, NameOf(k), a[k]).0
    decreases |keys|
  {
    if keys != [] {
      var init, last := keys[..|keys| - 1], keys[|keys| - 1];
      assert keys == init + [last];
      UnstoreAllHolds(xz, a, init);
    }
  }

  /** Exactly these keys stand in the backup directory of `e`, with these entries. */
  ghost predicate HoldsBackups(xz: Xz, skip: bool, o: Archive, names: set<bytes>, e: Archive)
    requires forall n :: n in names ==> n in o
  {
    && (forall n :: n in names ==>
          KeyOf(xz, skip, o, n) in e && e[KeyOf(xz, skip, o, n)] == Stored(xz, skip, n, o[n]).1)
    && (forall k :: k in e && StartsWith(k, PREFIX) ==>
          k == PREFIX + RMLIST || exists n :: n in names && k == KeyOf(xz, skip, o, n))
  }

  lemma {:induction false} BackupsComeBack(xz: Xz, skip: bool, o: Archive, names: set<bytes>, e: Archive,
      keys: seq<bytes>)
    requires Inverse(xz) && forall n :: n in names ==> n in o
    requires HoldsBackups(xz, skip, o, names, e)
    requires forall n :: n in names ==> !LooksCompressed(xz, skip, n, o[n]) && !Special(Stored(xz, skip, n, o[n]).0)
    requires forall k :: k in keys <==> k in BackupKeys(e)
    ensures UnstoreAll(xz, e, keys) == map n | n in names :: o[n]
  {
    forall n | n in names
      ensures KeyOf(xz, skip, o, n) in keys && NameOf(KeyOf(xz, skip, o, n)) == Stored(xz, skip, n, o[n]).0
      ensures Unstored(xz, NameOf(KeyOf(xz, skip, o, n)), e[KeyOf(xz, skip, o, n)]) == (n, o[n])
    {
      var k := KeyOf(xz, skip, o, n);
      PrefixInjective(Stored(xz, skip, n, o[n]).0, []);
      assert k in BackupKeys(e);
      UnstoredStored(xz, skip, n, o[n]);
    }
    forall k | k in keys && !Special(NameOf(k))
      ensures exists n :: n in names && k == KeyOf(xz, skip, o, n) && Unstored(xz, NameOf(k), e[k]) == (n, o[n])
    {
      assert k in BackupKeys(e);
      PrefixInjective(RMLIST, []);
    }
    UnstoreAllHolds(xz, e, keys);
  }

  // ---------------------------------------------------------------------
  // The removal list
  // ---------------------------------------------------------------------

  lemma {:induction false} Rejoined(a: bytes, b: bytes, c: bytes, d: bytes)
    ensures a + b + c + d == a + (b + c + d)
  {
  }

  lemma {:induction false} RmListFront(names: seq<bytes>)
    requires names != []
    ensures RmList(names) == names[0] + [0] + RmList(names[1..])
    decreases |names|
  {
    var init, last, rest := names[..|names| - 1], names[|names| - 1], names[1..];
    if |names| > 1 {
      RmListFront(init);
      assert rest[..|rest| - 1] == init[1..] && rest[|rest| - 1] == last;
      Rejoined(names[0] + [0], RmList(init[1..]), last, [0]);
    } else {
      assert RmList(init) == [] && RmList(rest) == [];
    }
  }

  lemma {:induction false} RmListSplits(names: seq<bytes>)
    requires forall i :: 0 <= i < |names| ==> 0 !in names[i]
    ensures Split(RmList(names), 0) == names + [[]]
    ensures RmList(names) == [] <==> names == []
    decreases |names|
  {
    if names != [] {
      RmListFront(names);
      RmListSplits(names[1..]);
      SplitFirst(names[0], 0, RmList(names[1..]));
      assert names == [names[0]] + names[1..];
    }
  }

  lemma {:induction false} RmListIsUtf8(names: seq<bytes>)
    requires forall i :: 0 <= i < |names| ==> Utf8(names[i])
    ensures Utf8(RmList(names))
    decreases |names|
  {
    if names != [] {
      var init, last := names[..|names| - 1], names[|names| - 1];
      RmListIsUtf8(init);
      Utf8Concat(RmList(init), last);
      AsciiIsUtf8([0], 0);
      Utf8Concat(RmList(init) + last, [0]);
    }
  }

  /** Names that are their own normal form leave the removal list as they entered it. */
  lemma {:induction false} RmListNames(names: seq<bytes>, added: set<bytes>)
    requires forall n :: n in names <==> n in added
    requires forall n :: n in added ==> 0 !in n && n != [] && NormPath(n) == n
    ensures RmNames(RmList(names)) == added
  {
    RmListSplits(names);
    forall n ensures n in RmNames(RmList(names)) <==> n in added {
      if n in added {
        assert n in names + [[]] && NormPath(n) == n;
      }
      if x :| x in names + [[]] && x != [] && NormPath(x) == n {
        assert x in names;
      }
    }
  }

  // ---------------------------------------------------------------------
  // The main result
  // ---------------------------------------------------------------------

  /** What restore can see in the result of a backup. */
  ghost predicate BackupState(xz: Xz, skip: bool, o: Archive, r: Archive, names: set<bytes>, rmList: bytes, e: Archive)
    requires forall n :: n in names ==> n in o
  {
    && HoldsBackups(xz, skip, o, names, e)
    && Clean(e) == r
    && (PREFIX + RMLIST in e <==> rmList != [])
    && (rmList != [] ==> e[PREFIX + RMLIST].data == rmList)
  }

  /** The key of the removal list is none of the stored ones. */
  lemma {:induction false} KeysAreNotRmList(xz: Xz, skip: bool, o: Archive, names: seq<bytes>)
    requires (forall n :: n in names ==> n in o)
    requires forall n :: n in names ==> !Special(Stored(xz, skip, n, o[n]).0)
    ensures PREFIX + RMLIST != BACKUP && InBackup(PREFIX + RMLIST) && InBackup(BACKUP)
    ensures forall n :: n in names ==>
      KeyOf(xz, skip, o, n) != PREFIX + RMLIST && StartsWith(KeyOf(xz, skip, o, n), PREFIX) &&
        InBackup(KeyOf(xz, skip, o, n))
  {
    PrefixInjective(RMLIST, []);
    forall n | n in names
      ensures KeyOf(xz, skip, o, n) != PREFIX + RMLIST && StartsWith(KeyOf(xz, skip, o, n), PREFIX)
    {
      PrefixInjective(Stored(xz, skip, n, o[n]).0, RMLIST);
    }
  }

  /** A table that differs from the stored one only in the removal list. */
  ghost predicate OnlyRmListNew(stored: Archive, st: Archive, rmKey: bytes) {
    && (forall k :: k in stored && k != rmKey ==> k in st && st[k] == stored[k])
    && (forall k :: k in st && k != rmKey ==> k in stored)
  }

  lemma {:induction false} StoredStay(xz: Xz, skip: bool, o: Archive, names: seq<bytes>, stored: Archive, st: Archive,
      rmKey: bytes)
    requires (forall n :: n in names ==> n in o) && OnlyRmListNew(stored, st, rmKey) && InBackup(rmKey)
    requires forall n :: n in names ==>
      KeyOf(xz, skip, o, n) != rmKey && InBackup(KeyOf(xz, skip, o, n)) &&
      KeyOf(xz, skip, o, n) in stored && stored[KeyOf(xz, skip, o, n)] == Stored(xz, skip, n, o[n]).1
    requires forall k :: k in stored ==> k == BACKUP || exists n :: n in names && k == KeyOf(xz, skip, o, n)
    ensures forall n :: n in names ==>
      KeyOf(xz, skip, o, n) in st && st[KeyOf(xz, skip, o, n)] == Stored(xz, skip, n, o[n]).1
    ensures forall k :: k in st && k != BACKUP ==> k == rmKey || exists n :: n in names && k == KeyOf(xz, skip, o, n)
    ensures forall k :: k in st ==> InBackup(k)
  {
  }

  lemma {:induction false} HeldBySet(xz: Xz, skip: bool, o: Archive, names: seq<bytes>, held: set<bytes>, st: Archive)
    requires (forall n :: n in names ==> n in o) && forall n :: n in held <==> n in names
    requires forall n :: n in names ==>
      KeyOf(xz, skip, o, n) in st && st[KeyOf(xz, skip, o, n)] == Stored(xz, skip, n, o[n]).1
    requires forall k :: k in st && k != BACKUP ==>
      k == PREFIX + RMLIST || exists n :: n in names && k == KeyOf(xz, skip, o, n)
    ensures HoldsBackups(xz, skip, o, held, st)
  {
    assert !StartsWith(BACKUP, PREFIX);
    forall k | k in st && StartsWith(k, PREFIX)
      ensures k == PREFIX + RMLIST || exists n :: n in held && k == KeyOf(xz, skip, o, n)
    {
      if k != PREFIX + RMLIST {
        var n :| n in names && k == KeyOf(xz, skip, o, n);
        assert n in held;
      }
    }
  }

  lemma {:induction false} OnlyRmList(stored: Archive, rmList: bytes)
    requires PREFIX + RMLIST !in stored
    ensures OnlyRmListNew(stored, WithRmList(stored, rmList), PREFIX + RMLIST)
    ensures PREFIX + RMLIST in WithRmList(stored, rmList) <==> rmList != []
  {
  }

  lemma {:induction false} ListedHolds(xz: Xz, skip: bool, o: Archive, names: seq<bytes>, rmList: bytes)
    requires (forall n :: n in names ==> n in o) && DistinctKeys(xz, skip, o, names)
    requires forall n :: n in names ==> !Special(Stored(xz, skip, n, o[n]).0)
    ensures
      var st := WithRmList(StoreAll(xz, skip, o, names), rmList);
      && HoldsBackups(xz, skip, o, (set n | n in names), st)
      && (forall k :: k in st ==> InBackup(k))
      && (PREFIX + RMLIST in st <==> rmList != [])
  {
    var stored := StoreAll(xz, skip, o, names);
    var st := WithRmList(stored, rmList);
    StoreAllHolds(xz, skip, o, names);
    KeysAreNotRmList(xz, skip, o, names);
    OnlyRmList(stored, rmList);
    StoredStay(xz, skip, o, names, stored, st, PREFIX + RMLIST);
    HeldBySet(xz, skip, o, names, (set n | n in names), st);
  }

  lemma {:induction false} CleanMerge(r: Archive, st: Archive)
    requires forall n :: n in r ==> !InBackup(n)
    requires forall k :: k in st ==> InBackup(k)
    ensures Clean(r + st) == r
    ensures forall k :: InBackup(k) ==> (k in r + st <==> k in st)
    ensures forall k :: k in st ==> (r + st)[k] == st[k]
  {
  }

  lemma {:induction false} BackupLeaves(xz: Xz, skip: bool, o: Archive, r: Archive, names: seq<bytes>, rmList: bytes)
      returns (e: Archive)
    requires (forall n :: n in names ==> n in o) && DistinctKeys(xz, skip, o, names)
    requires forall n :: n in names ==> !Special(Stored(xz, skip, n, o[n]).0)
    requires forall n :: n in r ==> !InBackup(n)
    ensures e == r + WithRmList(StoreAll(xz, skip, o, names), rmList)
    ensures BackupState(xz, skip, o, r, (set n | n in names), rmList, e)
  {
    var st := WithRmList(StoreAll(xz, skip, o, names), rmList);
    e := r + st;
    ListedHolds(xz, skip, o, names, rmList);
    CleanMerge(r, st);
    PrefixInjective(RMLIST, []);
    StateOfMerge(xz, skip, o, r, (set n | n in names), rmList, st);
  }

  lemma {:induction false} StateOfMerge(xz: Xz, skip: bool, o: Archive, r: Archive, names: set<bytes>, rmList: bytes,
      st: Archive)
    requires forall n :: n in names ==> n in o
    requires HoldsBackups(xz, skip, o, names, st) && Clean(r + st) == r
    requires forall k :: InBackup(k) ==> (k in r + st <==> k in st)
    requires forall k :: k in st ==> (r + st)[k] == st[k]
    requires PREFIX + RMLIST in st <==> rmList != []
    requires rmList != [] ==> st[PREFIX + RMLIST].data == rmList
    ensures BackupState(xz, skip, o, r, names, rmList, r + st)
  {
    PrefixInjective(RMLIST, []);
    forall n | n in names ensures InBackup(KeyOf(xz, skip, o, n)) {
      PrefixInjective(Stored(xz, skip, n, o[n]).0, []);
    }
  }

  lemma {:induction false} DifferingDistinct(xz: Xz, skip: bool, o: Archive, r: Archive, names: seq<bytes>)
    requires WellNamed(xz, skip, o, r) && forall n :: n in names ==> n in Differing(o, r)
    ensures DistinctKeys(xz, skip, o, names)
  {
    forall n, m | n in names && m in names && n != m ensures KeyOf(xz, skip, o, n) != KeyOf(xz, skip, o, m) {
      PrefixInjective(Stored(xz, skip, n, o[n]).0, Stored(xz, skip, m, o[m]).0);
    }
  }

  lemma {:induction false} ListComesBack(e: Archive, added: seq<bytes>, names: set<bytes>)
    requires forall n :: n in added <==> n in names
    requires forall n :: n in names ==> Utf8(n) && 0 !in n && n != [] && NormPath(n) == n
    requires PREFIX + RMLIST in e <==> RmList(added) != []
    requires RmList(added) != [] ==> e[PREFIX + RMLIST].data == RmList(added)
    ensures RmNames(RmText(e)) == names && (RmText(e) == [] <==> names == {})
  {
    RmListIsUtf8(added);
    RmListSplits(added);
    RmListNames(added, names);
    assert RmText(e) == RmList(added);
    assert added != [] ==> added[0] in names;
  }

  /** Everything restore reads from the result of a backup. */
  lemma {:induction false} RestoreReads(xz: Xz, skip: bool, o: Archive, r: Archive, names: seq<bytes>,
      added: seq<bytes>) returns (e: Archive)
    requires Inverse(xz) && WellNamed(xz, skip, o, r) && forall n :: n in r ==> !InBackup(n)
    requires forall n :: n in names <==> n in Differing(o, r)
    requires forall n :: n in added <==> n in Added(o, r)
    ensures e == r + WithRmList(StoreAll(xz, skip, o, names), RmList(added))
    ensures Clean(e) == r
    ensures forall keys :: (forall k :: k in keys <==> k in BackupKeys(e)) ==>
              UnstoreAll(xz, e, keys) == map n | n in Differing(o, r) :: o[n]
    ensures RmNames(RmText(e)) == Added(o, r) && (RmText(e) == [] <==> Added(o, r) == {})
  {
    DifferingDistinct(xz, skip, o, r, names);
    e := BackupLeaves(xz, skip, o, r, names, RmList(added));
    assert (set n | n in names) == Differing(o, r);
    forall keys | forall k :: k in keys <==> k in BackupKeys(e)
      ensures UnstoreAll(xz, e, keys) == map n | n in Differing(o, r) :: o[n]
    {
      BackupsComeBack(xz, skip, o, Differing(o, r), e, keys);
    }
    ListComesBack(e, added, Added(o, r));
  }

  lemma {:induction false} RecoveredIs(o: Archive, r: Archive)
    ensures (r - Added(o, r)) + (map n | n in Differing(o, r) :: o[n]) == Recovered(o, r)
  {
  }

  /**
   * Restore after backup gives the original back, up to metadata of entries whose
   * data never changed; without any difference it empties the archive instead.
   */
  lemma {:induction false} RestoreAfterBackup(xz: Xz, skip: bool, self: Archive, origin: Archive)
    requires Inverse(xz) && WellNamed(xz, skip, Clean(origin), Clean(self))
    ensures
      var o, r := Clean(origin), Clean(self);
      Restored(xz, BackedUp(xz, skip, self, origin)) ==
        if Differing(o, r) == {} && Added(o, r) == {} then map[] else Recovered(o, r)
  {
    var o, r := Clean(origin), Clean(self);
    var e := RestoreReads(xz, skip, o, r, SortedKeys(Differing(o, r)), SortedKeys(Added(o, r)));
    RestoredIs(xz, e, o, r);
  }

  lemma {:induction false} RestoredIs(xz: Xz, e: Archive, o: Archive, r: Archive)
    requires Clean(e) == r
    requires UnstoreAll(xz, e, SortedKeys(BackupKeys(e))) == map n | n in Differing(o, r) :: o[n]
    requires RmNames(RmText(e)) == Added(o, r) && (RmText(e) == [] <==> Added(o, r) == {})
    ensures Restored(xz, e) == if Differing(o, r) == {} && Added(o, r) == {} then map[] else Recovered(o, r)
  {
    RecoveredIs(o, r);
    if Differing(o, r) != {} {
      var n :| n in Differing(o, r);
      assert n in UnstoreAll(xz, e, SortedKeys(BackupKeys(e)));
    }
  }

  lemma {:induction false} RecoveredExactIff(o: Archive, r: Archive)
    ensures Recovered(o, r) == o <==> forall n :: n in o && n in r && o[n].data == r[n].data ==> o[n] == r[n]
    ensures Differing(o, r) == {} && Added(o, r) == {} && o == map[] ==> r == map[]
  {
    if Recovered(o, r) == o {
      forall n | n in o && n in r && o[n].data == r[n].data ensures o[n] == r[n] {
        assert Recovered(o, r)[n] == r[n];
      }
    }
    if Added(o, r) == {} && o == map[] {
      forall n ensures n !in r {
        assert n !in Added(o, r);
      }
    }
  }

  // ---------------------------------------------------------------------
  // The merge loop
  // ---------------------------------------------------------------------

  /** Everything already passed on one side is smaller than everything to come on the other. */
  ghost predicate Crossed(left: seq<bytes>, right: seq<bytes>, i: nat, j: nat) {
    && i <= |left| && j <= |right|
    && (forall a, b :: 0 <= a < i && j <= b < |right| ==> Less(left[a], right[b]))
    && (forall a, b :: i <= a < |left| && 0 <= b < j ==> Less(right[b], left[a]))
  }

  /** `picked` lists, in order, the names among the first `i` that belong to `chosen`. */
  ghost predicate Picked(picked: seq<bytes>, names: seq<bytes>, i: nat, chosen: set<bytes>) {
    && i <= |names| && Sorted(picked)
    && forall n :: n in picked <==> n in chosen && n in names[..i]
  }

  lemma {:induction false} PickedStep(picked: seq<bytes>, names: seq<bytes>, i: nat, chosen: set<bytes>)
    requires Sorted(names) && i < |names| && Picked(picked, names, i, chosen)
    ensures Picked(if names[i] in chosen then picked + [names[i]] else picked, names, i + 1, chosen)
  {
    assert names[..i + 1] == names[..i] + [names[i]];
    forall k | 0 <= k < |picked| ensures Less(picked[k], names[i]) {
      assert picked[k] in picked && picked[k] in names[..i];
    }
  }

  lemma {:induction false} PickedAll(picked: seq<bytes>, names: seq<bytes>, keys: set<bytes>, chosen: set<bytes>)
    requires Enumerates(names, keys) && chosen <= keys && Picked(picked, names, |names|, chosen)
    ensures picked == SortedKeys(chosen)
  {
    assert names[..|names|] == names;
    EnumerationUnique(picked, SortedKeys(chosen), chosen);
  }

  /** A name smaller than the other side's next one is not on the other side. */
  lemma {:induction false} SmallerIsMissing(left: seq<bytes>, right: seq<bytes>, i: nat, j: nat)
    requires Sorted(left) && Sorted(right) && Crossed(left, right, i, j) && i < |left|
    requires j < |right| ==> Less(left[i], right[j])
    ensures left[i] !in right && Crossed(left, right, i + 1, j)
  {
    forall b | j <= b < |right| ensures Less(left[i], right[b]) {
      if j < b {
        LessTransitive(left[i], right[j], right[b]);
      }
    }
    forall b | 0 <= b < |right| ensures left[i] != right[b] {
      LessTrichotomy(left[i], right[b]);
    }
  }

  lemma {:induction false} CrossedSymmetric(left: seq<bytes>, right: seq<bytes>, i: nat, j: nat)
    ensures Crossed(left, right, i, j) <==> Crossed(right, left, j, i)
  {
  }

  lemma {:induction false} EqualIsPassed(left: seq<bytes>, right: seq<bytes>, i: nat, j: nat)
    requires Sorted(left) && Sorted(right) && Crossed(left, right, i, j)
    requires i < |left| && j < |right| && left[i] == right[j]
    ensures Crossed(left, right, i + 1, j + 1)
  {
  }

  method Merge(xz: Xz, skip: bool, o: Archive, r: Archive) returns (backups: Archive, rmList: bytes)
    ensures backups == StoreAll(xz, skip, o, SortedKeys(Differing(o, r)))
    ensures rmList == RmList(SortedKeys(Added(o, r)))
  {
    var left := NamesInOrder(o.Keys);
    var right := NamesInOrder(r.Keys);
    backups, rmList := MergeNames(xz, skip, o, r, left, right);
  }

  method MergeNames(xz: Xz, skip: bool, o: Archive, r: Archive, left: seq<bytes>, right: seq<bytes>)
    returns (backups: Archive, rmList: bytes)
    requires Enumerates(left, o.Keys) && Enumerates(right, r.Keys)
    ensures backups == StoreAll(xz, skip, o, SortedKeys(Differing(o, r)))
    ensures rmList == RmList(SortedKeys(Added(o, r)))
  {
    backups, rmList := map[BACKUP := DIRECTORY], [];
    var i, j := 0, 0;
    ghost var ds, as_: seq<bytes> := [], [];
    while i < |left| || j < |right|
      invariant Crossed(left, right, i, j)
      invariant Picked(ds, left, i, Differing(o, r)) && Picked(as_, right, j, Added(o, r))
      invariant backups == StoreAll(xz, skip, o, ds) && rmList == RmList(as_)
      decreases |left| - i + |right| - j
    {
      if i < |left| && (j == |right| || Less(left[i], right[j])) {
        SmallerIsMissing(left, right, i, j);
        PickedStep(ds, left, i, Differing(o, r));
        assert left[i] in o && left[i] !in r;
        backups, ds := Keep(xz, skip, o, left[i], backups, ds);
        i := i + 1;
      } else if i == |left| || Less(right[j], left[i]) {
        CrossedSymmetric(left, right, i, j);
        SmallerIsMissing(right, left, j, i);
        CrossedSymmetric(left, right, i, j + 1);
        PickedStep(as_, right, j, Added(o, r));
        assert right[j] in r && right[j] !in o;
        rmList, as_ := Record(right[j], rmList, as_);
        j := j + 1;
      } else {
        LessTrichotomy(left[i], right[j]);
        EqualIsPassed(left, right, i, j);
        PickedStep(ds, left, i, Differing(o, r));
        PickedStep(as_, right, j, Added(o, r));
        assert left[i] in o && right[j] in r;
        if r[right[j]].data != o[left[i]].data {
          backups, ds := Keep(xz, skip, o, left[i], backups, ds);
        }
        i, j := i + 1, j + 1;
      }
    }
    PickedAll(ds, left, o.Keys, Differing(o, r));
    PickedAll(as_, right, r.Keys, Added(o, r));
  }

  method Keep(xz: Xz, skip: bool, o: Archive, name: bytes, before: Archive, ghost ds: seq<bytes>)
    returns (backups: Archive, ghost ds': seq<bytes>)
    requires name in o && (forall n :: n in ds ==> n in o) && before == StoreAll(xz, skip, o, ds)
    ensures ds' == ds + [name] && backups == StoreAll(xz, skip, o, ds')
  {
    var (backup, entry) := Stored(xz, skip, name, o[name]);
    backups := before[PREFIX + backup := entry];
    ds' := ds + [name];
    assert ds'[..|ds'| - 1] == ds;
  }

  method Record(name: bytes, before: bytes, ghost names: seq<bytes>) returns (rmList: bytes, ghost names': seq<bytes>)
    requires before == RmList(names)
    ensures names' == names + [name] && rmList == RmList(names')
  {
    rmList := before + name + [0];
    names' := names + [name];
    assert names'[..|names'| - 1] == names;
  }

  // ---------------------------------------------------------------------
  // The archive object
  // ---------------------------------------------------------------------

  class Cpio {
    var entries: Archive

    constructor ()
      ensures entries == map[]
    {
      entries := map[];
    }

    method Rm(path: bytes, recursive: bool)
      modifies this
      ensures entries == Removed(old(entries), path, recursive)
    {
      var p := NormPath(path);
      entries := entries - {p};
      if recursive {
        entries := map n | n in entries && !StartsWith(n, p + [SLASH]) :: entries[n];
      }
    }

    /** Fails, changing nothing, when the original cannot be loaded. */
    method Backup(xz: Xz, origin: bytes, skip: bool) returns (r: LoadResult)
      modifies this
      ensures r == Load(origin)
      ensures entries == if r.Failed? then old(entries) else BackedUp(xz, skip, old(entries), r.entries)
    {
      r := LoadFromData(origin);
      if r.Loaded? {
        var o := new Cpio();
        o.entries := r.entries;
        o.Rm(BACKUP, true);
        Rm(BACKUP, true);
        RemovedBackup(r.entries, true);
        RemovedBackup(old(entries), true);
        var backups, rmList := Merge(xz, skip, o.entries, entries);
        if rmList != [] {
          backups := backups[PREFIX + RMLIST := CpioEntry(0x8000, 0, 0, 0, 0, rmList)];
        }
        entries := entries + backups;
      }
    }

    /** Takes the backup directory out of the archive, decoding its entries as it goes. */
    method ExtractBackups(xz: Xz) returns (backups: Archive, rmList: bytes)
      modifies this
      ensures backups == UnstoreAll(xz, old(entries), SortedKeys(BackupKeys(old(entries))))
      ensures rmList == RmText(old(entries))
      ensures entries == map n | n in old(entries) && !StartsWith(n, PREFIX) :: old(entries)[n]
    {
      backups, rmList := map[], [];
      var a := entries;
      var keys := NamesInOrder(BackupKeys(a));
      backups, rmList := DecodeBackups(xz, a, keys);
      entries := map n | n in a && !StartsWith(n, PREFIX) :: a[n];
    }

    method Restore(xz: Xz)
      modifies this
      ensures entries == Restored(xz, old(entries))
    {
      ghost var a := entries;
      var backups, rmList := ExtractBackups(xz);
      ghost var b := entries;
      Rm(BACKUP, false);
      RemovedBackup(b, false);
      assert entries == Clean(a);
      if rmList == [] && backups == map[] {
        entries := map[];
        return;
      }
      RmListed(rmList);
      entries := entries + backups;
    }

    method RmListed(rmList: bytes)
      modifies this
      ensures entries == old(entries) - RmNames(rmList)
    {
      var pieces := Split(rmList, 0);
      ghost var gone: set<bytes> := {};
      for i := 0 to |pieces|
        invariant gone == set x | x in pieces[..i] && x != [] :: NormPath(x)
        invariant entries == old(entries) - gone
      {
        assert pieces[..i + 1] == pieces[..i] + [pieces[i]];
        if pieces[i] != [] {
          RemovedOne(entries, pieces[i]);
          Rm(pieces[i], false);
          gone := gone + {NormPath(pieces[i])};
        }
      }
      assert pieces[..|pieces|] == pieces;
    }
  }

  lemma {:induction false} RemovedOne(a: Archive, path: bytes)
    ensures Removed(a, path, false) == a - {NormPath(path)}
  {
  }

  /** One entry taken out of the backup directory. */
  method DecodeOne(xz: Xz, k: bytes, e: CpioEntry, before: Archive, rmBefore: bytes)
    returns (backups: Archive, rmList: bytes)
    requires StartsWith(k, PREFIX)
    ensures backups == if Special(NameOf(k)) then before
                       else before[Unstored(xz, NameOf(k), e).0 := Unstored(xz, NameOf(k), e).1]
    ensures rmList == if NameOf(k) == RMLIST && Utf8(e.data) then rmBefore + e.data else rmBefore
  {
    backups, rmList := before, rmBefore;
    KeyName(k);
    if k == PREFIX + RMLIST {
      if Utf8(e.data) {
        rmList := rmList + e.data;
      }
    } else if k != PREFIX + MAGISK {
      if EndsWith(k, XZ) && IsRegular(e) && xz.decompress(e.data).Some? {
        backups := backups[k[8..|k| - 3] := e.(data := xz.decompress(e.data).value)];
      } else {
        backups := backups[k[8..] := e];
      }
    }
  }

  method DecodeBackups(xz: Xz, a: Archive, keys: seq<bytes>) returns (backups: Archive, rmList: bytes)
    requires Sorted(keys) && forall k :: k in keys <==> k in BackupKeys(a)
    ensures backups == UnstoreAll(xz, a, keys)
    ensures rmList == RmText(a)
  {
    backups, rmList := map[], [];
    for i := 0 to |keys|
      invariant forall k :: k in keys[..i] ==> k in a && StartsWith(k, PREFIX)
      invariant backups == UnstoreAll(xz, a, keys[..i])
      invariant rmList == if PREFIX + RMLIST in keys[..i] then RmText(a) else []
    {
      var k := keys[i];
      assert k in BackupKeys(a);
      assert keys[..i + 1] == keys[..i] + [k] && keys[..i + 1][..i] == keys[..i];
      NotYetSeen(keys, i);
      KeyName(k);
      backups, rmList := DecodeOne(xz, k, a[k], backups, rmList);
    }
    assert keys[..|keys|] == keys;
    PrefixInjective(RMLIST, MAGISK);
    assert PREFIX + RMLIST in keys <==> PREFIX + RMLIST in a;
  }

  lemma {:induction false} NotYetSeen(keys: seq<bytes>, i: nat)
    requires Sorted(keys) && i < |keys|
    ensures keys[i] !in keys[..i]
  {
    forall k | 0 <= k < i ensures keys[k] != keys[i] {
      LessTrichotomy(keys[k], keys[i]);
    }
  }

  /** A key of the backup directory ends in .xz exactly when its name there does. */
  lemma {:induction false} KeyName(k: bytes)
    requires StartsWith(k, PREFIX)
    ensures k == PREFIX + NameOf(k)
    ensures EndsWith(k, XZ) <==> EndsWith(NameOf(k), XZ)
    ensures EndsWith(k, XZ) ==> |k| >= 11 && k[8..|k| - 3] == NameOf(k)[..|NameOf(k)| - 3]
    ensures k == PREFIX + RMLIST <==> NameOf(k) == RMLIST
    ensures k == PREFIX + MAGISK <==> NameOf(k) == MAGISK
  {
    assert k == k[..8] + k[8..];
    assert k[7] == PREFIX[7] == SLASH;
    if EndsWith(k, XZ) {
      var t := k[|k| - 3..];
      assert t[0] == XZ[0] && t[1] == XZ[1] && t[2] == XZ[2];
      assert k[|k| - 3] == t[0] && k[|k| - 2] == t[1] && k[|k| - 1] == t[2];
      assert |k| >= 11;
      assert NameOf(k)[|NameOf(k)| - 3..] == t;
    }
    if EndsWith(NameOf(k), XZ) {
      assert k[|k| - 3..] == NameOf(k)[|NameOf(k)| - 3..];
    }
  }
}
