/**
 * Archives written by other tools (native/src/boot/cpio.rs reads them): hexadecimal digits
 * in either case, entries in any order, and other numbers in the fields that are not used.
 */
module CpioForeign {
  import opened Options
  import opened Bytes
  import opened CpioFormat

  // ---------------------------------------------------------------------
  // Digits
  // ---------------------------------------------------------------------

  // 0123456789abcdef
  const LOWER: bytes := [0x30, 0x31, 0x32, 0x33, 0x34, 0x35, 0x36, 0x37, 0x38, 0x39, 0x61, 0x62, 0x63, 0x64, 0x65, 0x66]
  // 0123456789ABCDEF
  const UPPER: bytes := [0x30, 0x31, 0x32, 0x33, 0x34, 0x35, 0x36, 0x37, 0x38, 0x39, 0x41, 0x42, 0x43, 0x44, 0x45, 0x46]

  /** The byte is the digit of this value, in either case. */
  predicate IsDigit(c: byte, d: nat) {
    d < 16 && (c == LOWER[d] || c == UPPER[d])
  }

  /** Every digit has its place as its value in both cases, and no other byte is a digit. */
  lemma {:induction false} DigitValueIff(c: byte, d: nat)
    ensures DigitValue(c) == Some(d) <==> IsDigit(c, d)
    ensures DigitValue(c) == None <==> forall x: nat :: !IsDigit(c, x)
  {
    if DigitValue(c).Some? {
      assert IsDigit(c, DigitValue(c).value);
    }
  }

  /** The same digits, in whatever case each is written. */
  ghost predicate SameDigits(s: bytes, t: bytes) {
    |s| == |t| && forall i :: 0 <= i < |s| ==> s[i] == t[i] || exists d: nat :: IsDigit(s[i], d) && IsDigit(t[i], d)
  }

  lemma {:induction false} SameDigitValue(c: byte, d: byte)
    requires c == d || exists x: nat :: IsDigit(c, x) && IsDigit(d, x)
    ensures DigitValue(c) == DigitValue(d)
  {
    if c != d {
      var x: nat :| IsDigit(c, x) && IsDigit(d, x);
      DigitValueIff(c, x);
      DigitValueIff(d, x);
    }
  }

  lemma {:induction false} SameHexValue(s: bytes, t: bytes)
    requires SameDigits(s, t)
    ensures HexValue(s) == HexValue(t)
    decreases |s|
  {
    if s != [] {
      SameHexValue(s[..|s| - 1], t[..|t| - 1]);
      SameDigitValue(s[|s| - 1], t[|t| - 1]);
    }
  }

  /** A number with any digit that is none is no number. */
  lemma {:induction false} BadDigit(s: bytes, i: nat)
    requires i < |s| && forall d: nat :: !IsDigit(s[i], d)
    ensures HexValue(s) == None
    decreases |s|
  {
    if i < |s| - 1 {
      BadDigit(s[..|s| - 1], i);
    } else {
      DigitValueIff(s[i], 0);
    }
  }

  // ---------------------------------------------------------------------
  // Files of other tools
  // ---------------------------------------------------------------------

  /** The header of an entry as some tool writes it: the numbers the reader uses are those of the entry. */
  ghost predicate Writes(header: bytes, name: bytes, e: CpioEntry) {
    HeaderOf(header, e, |name| + 1)
  }

  ghost function ForeignBlocks(names: seq<bytes>, a: Archive, headers: seq<bytes>): (blocks: seq<bytes>)
    requires |headers| == |names| && forall n :: n in names ==> n in a
    ensures |blocks| == |names|
    ensures forall i :: 0 <= i < |blocks| ==> blocks[i] == Block(headers[i], names[i], a[names[i]].data)
  {
    seq(|names|, i requires 0 <= i < |names| => Block(headers[i], names[i], a[names[i]].data))
  }

  ghost function ForeignFile(names: seq<bytes>, a: Archive, headers: seq<bytes>, last: bytes): bytes
    requires |headers| == |names| && forall n :: n in names ==> n in a
  {
    Concat(ForeignBlocks(names, a, headers), 0) + Block(last, TRAILER, [])
  }

  lemma {:induction false} ForeignLoadsAs(inp: Input, data: bytes, names: seq<bytes>, a: Archive, headers: seq<bytes>,
      last: bytes)
    requires inp == InputOf(data) && |headers| == |names| && (forall n :: n in names <==> n in a)
    requires forall i :: 0 <= i < |names| ==> LegalName(names[i]) && Writes(headers[i], names[i], a[names[i]])
    requires HeaderOf(last, TRAILER_ENTRY, 11)
    ensures LoadsAs(inp, data, ForeignFile(names, a, headers, last), a)
  {
    var blocks, trailer := ForeignBlocks(names, a, headers), Block(last, TRAILER, []);
    forall i | 0 <= i < |blocks| ensures ReadAsEntry(inp, data, blocks[i], names[i], a[names[i]]) {
      BlockReadAsEntry(data, headers[i], names[i], a[names[i]]);
    }
    BlockReadAsTrailer(data, last);
    HeaderStartsBlock(last, TRAILER, []);
    if names != [] {
      HeaderStartsBlock(headers[0], names[0], a[names[0]].data);
    }
    ConcatHead(blocks, trailer);
    BlocksLoadAs(inp, data, ForeignFile(names, a, headers, last), blocks, trailer, names, a);
  }

  /**
   * A file loads as the archive whoever wrote it, in whatever order and with whatever numbers
   * in the fields that are not used.
   */
  lemma {:induction false} ForeignLoads(names: seq<bytes>, a: Archive, headers: seq<bytes>, last: bytes)
    requires |headers| == |names| && (forall n :: n in names <==> n in a)
    requires forall i :: 0 <= i < |names| ==> LegalName(names[i]) && Writes(headers[i], names[i], a[names[i]])
    requires HeaderOf(last, TRAILER_ENTRY, 11)
    ensures Load(ForeignFile(names, a, headers, last)) == Loaded(a)
  {
    var file := ForeignFile(names, a, headers, last);
    ForeignLoadsAs(InputOf(file), file, names, a, headers, last);
    OneFile([file], a);
    LoopJoined(InputOf(file), file, 0, [file], [0], 0, [a], map[]);
  }

  // ---------------------------------------------------------------------
  // Upper case
  // ---------------------------------------------------------------------

  function UpperByte(c: byte): byte {
    if 0x61 <= c <= 0x66 then c - 0x20 else c
  }

  function UpperCase(s: bytes): (t: bytes)
    ensures |t| == |s| && forall i :: 0 <= i < |s| ==> t[i] == UpperByte(s[i])
  {
    seq(|s|, i requires 0 <= i < |s| => UpperByte(s[i]))
  }

  lemma {:induction false} UpperIsSame(s: bytes)
    ensures SameDigits(s, UpperCase(s))
  {
    var t := UpperCase(s);
    forall i | 0 <= i < |s| ensures s[i] == t[i] || exists d: nat :: IsDigit(s[i], d) && IsDigit(t[i], d) {
      if s[i] != t[i] {
        assert IsDigit(s[i], s[i] - 0x57) && IsDigit(t[i], s[i] - 0x57);
      }
    }
  }

  lemma {:induction false} FieldIsSame(h: bytes, g: bytes, i: nat)
    requires |h| == HEADER_SIZE && i < 13 && SameDigits(h, g)
    ensures Field(g, i) == Field(h, i)
  {
    var s, t := h[6 + 8 * i..14 + 8 * i], g[6 + 8 * i..14 + 8 * i];
    assert forall k :: 0 <= k < |s| ==> s[k] == h[6 + 8 * i + k] && t[k] == g[6 + 8 * i + k];
    SameHexValue(s, t);
  }

  /** A header with its digits in another case says the same. */
  lemma {:induction false} RecasedHeader(h: bytes, g: bytes, e: CpioEntry, nameSize: nat)
    requires HeaderOf(h, e, nameSize) && SameDigits(h, g) && g[..6] == MAGIC
    ensures HeaderOf(g, e, nameSize)
  {
    FieldIsSame(h, g, 11);
    FieldIsSame(h, g, 6);
    FieldIsSame(h, g, 1);
    FieldIsSame(h, g, 2);
    FieldIsSame(h, g, 3);
    FieldIsSame(h, g, 9);
    FieldIsSame(h, g, 10);
  }

  lemma {:induction false} UpperHeader(ino: nat, e: CpioEntry, nameSize: nat)
    requires e.mode < U32 && e.uid < U32 && e.gid < U32 && e.rdevmajor < U32 && e.rdevminor < U32
    requires |e.data| < U32 && nameSize < U32 && ino < U32
    ensures HeaderOf(UpperCase(Header(ino, e, nameSize)), e, nameSize)
  {
    var h := Header(ino, e, nameSize);
    var g := UpperCase(h);
    HeaderReads(ino, e, nameSize);
    UpperIsSame(h);
    assert forall i :: 0 <= i < 6 ==> h[i] == h[..6][i] == MAGIC[i] && UpperByte(MAGIC[i]) == MAGIC[i];
    assert g[..6] == MAGIC;
    RecasedHeader(h, g, e, nameSize);
  }

  ghost function UpperHeaders(names: seq<bytes>, a: Archive): (hs: seq<bytes>)
    requires forall n :: n in names ==> n in a
    ensures |hs| == |names|
    ensures forall i :: 0 <= i < |names| ==> hs[i] == UpperCase(Header(FIRST_INODE + i, a[names[i]], |names[i]| + 1))
  {
    seq(|names|, i requires 0 <= i < |names| => UpperCase(Header(FIRST_INODE + i, a[names[i]], |names[i]| + 1)))
  }

  /** What dump writes for the names in this order, with every header digit in upper case. */
  ghost function UpperDump(names: seq<bytes>, a: Archive): bytes
    requires forall n :: n in names ==> n in a
  {
    ForeignFile(names, a, UpperHeaders(names, a), UpperCase(Header(FIRST_INODE + |names|, TRAILER_ENTRY, 11)))
  }

  lemma {:induction false} UpperWrites(names: seq<bytes>, a: Archive, i: nat)
    requires Legal(a) && (forall n :: n in names ==> n in a) && i < |names| == |a|
    ensures LegalName(names[i]) && Writes(UpperHeaders(names, a)[i], names[i], a[names[i]])
  {
    assert names[i] in names;
    assert LegalEntry(names[i], a[names[i]]);
    UpperHeader(FIRST_INODE + i, a[names[i]], |names[i]| + 1);
  }

  /** Every header announces its entry under its name. */
  ghost predicate AllWrite(names: seq<bytes>, a: Archive, headers: seq<bytes>)
    requires |headers| == |names| && forall n :: n in names ==> n in a
  {
    forall i :: 0 <= i < |names| ==> LegalName(names[i]) && Writes(headers[i], names[i], a[names[i]])
  }

  lemma {:induction false} UpperAllWrite(names: seq<bytes>, a: Archive, hs: seq<bytes>)
    requires Legal(a) && (forall n :: n in names ==> n in a) && |names| == |a| && hs == UpperHeaders(names, a)
    ensures AllWrite(names, a, hs)
  {
    forall i | 0 <= i < |names| ensures LegalName(names[i]) && Writes(hs[i], names[i], a[names[i]]) {
      UpperWrites(names, a, i);
    }
  }

  lemma {:induction false} AllWriteLoads(names: seq<bytes>, a: Archive, hs: seq<bytes>, last: bytes)
    requires |hs| == |names| && (forall n :: n in names <==> n in a) && AllWrite(names, a, hs)
    requires HeaderOf(last, TRAILER_ENTRY, 11)
    ensures Load(ForeignFile(names, a, hs, last)) == Loaded(a)
  {
    ForeignLoads(names, a, hs, last);
  }

  /** It loads as the same archive, as what dump writes itself does. */
  lemma {:induction false} LoadUpperDump(names: seq<bytes>, a: Archive)
    requires Legal(a) && (forall n :: n in names <==> n in a) && |names| == |a|
    ensures Load(UpperDump(names, a)) == Loaded(a)
  {
    var hs, last := UpperHeaders(names, a), UpperCase(Header(FIRST_INODE + |names|, TRAILER_ENTRY, 11));
    UpperAllWrite(names, a, hs);
    UpperHeader(FIRST_INODE + |names|, TRAILER_ENTRY, 11);
    AllWriteLoads(names, a, hs, last);
  }

  // ---------------------------------------------------------------------
  // What is refused, and what is passed over
  // ---------------------------------------------------------------------

  /** Nothing loads from a file without a whole header, without the magic, or with a bad digit in its name size. */
  lemma {:induction false} LoadRefuses(data: bytes, i: nat)
    requires data != []
    ensures |data| < 110 ==> Load(data) == Failed(OutOfBounds)
    ensures |data| >= 110 && data[..6] != MAGIC ==> Load(data) == Failed(InvalidMagic)
    ensures |data| >= 110 && data[..6] == MAGIC && 94 <= i < 102 && (forall d: nat :: !IsDigit(data[i], d)) ==>
            Load(data) == Failed(BadHeader)
  {
    assert InputOf(data).turns[0] == Read(data, 0);
    if |data| >= 110 {
      var header := data[0..110];
      assert header[..6] == data[..6];
      if 94 <= i < 102 && forall d: nat :: !IsDigit(data[i], d) {
        var field := header[94..102];
        assert field[i - 94] == data[i];
        BadDigit(field, i - 94);
        assert Field(header, 11) == HexValue(field);
      }
    }
  }

  /** The name is a dot or two. */
  predicate Dots(name: bytes) {
    name == [0x2E] || name == [0x2E, 0x2E]
  }

  lemma {:induction false} DotsRead(data: bytes, header: bytes, name: bytes, e: CpioEntry, rest: bytes)
    requires Dots(name) && HeaderOf(header, e, |name| + 1) && e.data == []
    requires data == Block(header, name, []) + rest
    ensures Read(data, 0) == Skip(|Block(header, name, [])|)
  {
    AsciiNameReads(data, 0, header, name, e);
  }

  /** An entry for the directory itself, without data, is passed over. */
  lemma {:induction false} DotsAreSkipped(header: bytes, name: bytes, e: CpioEntry, a: Archive)
    requires Dots(name) && HeaderOf(header, e, |name| + 1) && e.data == [] && Legal(a)
    ensures Load(Block(header, name, []) + DumpBytes(a)) == Loaded(a)
  {
    var block, file := Block(header, name, []), DumpBytes(a);
    var data := block + file;
    DotsRead(data, header, name, e, file);
    SortedSize(SortedKeys(a.Keys), a.Keys);
    DumpLoadsAs(InputOf(data), data, SortedKeys(a.Keys), a);
    FileBehind(InputOf(data), data, block, file, a);
  }

  lemma {:induction false} FileBehind(inp: Input, data: bytes, block: bytes, file: bytes, a: Archive)
    requires inp == InputOf(data) && data == block + file && |block| % 4 == 0 && block != []
    requires inp.turns[0] == Skip(|block|) && LoadsAs(inp, data, file, a)
    ensures Load(data) == Loaded(a)
  {
    BehindAt(block, file);
    OneFile([file], a);
    LoopJoined(inp, data, |block|, [file], [0], 0, [a], map[]);
    assert Loop(inp, 0, map[]) == Loop(inp, |block|, map[]);
  }

  lemma {:induction false} BehindAt(a: bytes, b: bytes)
    ensures At(a + b, |a|, b)
  {
  }

  /** The numbers that dump writes into the fields the reader does not use. */
  lemma {:induction false} DumpWritesTheRest(ino: nat, e: CpioEntry, nameSize: nat)
    requires e.mode < U32 && e.uid < U32 && e.gid < U32 && e.rdevmajor < U32 && e.rdevminor < U32
    requires |e.data| < U32 && nameSize < U32 && ino < U32
    ensures var h := Header(ino, e, nameSize);
            && |h| == 110 && Field(h, 0) == Some(ino) && Field(h, 4) == Some(1) && Field(h, 5) == Some(0)
            && Field(h, 7) == Some(0) && Field(h, 8) == Some(0) && Field(h, 12) == Some(0)
  {
    var ns := HeaderNumbers(ino, e, nameSize);
    FormattedField(ns, 0);
    FormattedField(ns, 4);
    FormattedField(ns, 5);
    FormattedField(ns, 7);
    FormattedField(ns, 8);
    FormattedField(ns, 12);
  }
}
