/**
 * The "newc" cpio codec of native/src/boot/cpio.rs: how an archive map is written
 * out and how bytes are read back, byte by byte.
 */
module CpioFormat {
  import opened Options
  import opened Bytes

  /** CpioEntry. Device numbers are wider than 32 bits on some targets, hence nat. */
  datatype CpioEntry = CpioEntry(mode: nat, uid: nat, gid: nat, rdevmajor: nat, rdevminor: nat, data: bytes)

  type Archive = map<bytes, CpioEntry>

  const HEADER_SIZE: nat := 110
  const MAGIC: bytes := [0x30, 0x37, 0x30, 0x37, 0x30, 0x31]                               // 070701
  const TRAILER: bytes := [0x54, 0x52, 0x41, 0x49, 0x4C, 0x45, 0x52, 0x21, 0x21, 0x21]     // TRAILER!!!
  const DOT: bytes := [0x2E]
  const DOT_DOT: bytes := [0x2E, 0x2E]
  const FIRST_INODE: nat := 300000
  const U32: nat := 0x1_0000_0000

  function Align4(x: nat): (r: nat)
    ensures r % 4 == 0 && x <= r < x + 4
  {
    if x % 4 == 0 then x else x + 4 - x % 4
  }

  // ---------------------------------------------------------------------
  // Hexadecimal fields
  // ---------------------------------------------------------------------

  function HexDigit(d: nat): (c: byte)
    requires d < 16
  {
    if d < 10 then 0x30 + d else 0x61 + d - 10
  }

  /** char::to_digit(16) on one byte. */
  function DigitValue(c: byte): (d: Option<nat>)
    ensures d.Some? ==> d.value < 16
  {
    if 0x30 <= c <= 0x39 then Some(c - 0x30)
    else if 0x61 <= c <= 0x66 then Some(c - 0x61 + 10)
    else if 0x41 <= c <= 0x46 then Some(c - 0x41 + 10)
    else None
  }

  function Pow16(w: nat): (p: nat)
    ensures p > 0
  {
    if w == 0 then 1 else 16 * Pow16(w - 1)
  }

  /** The last `w` hexadecimal digits of `n`. */
  function HexDigits(n: nat, w: nat): (s: bytes)
    ensures |s| == w
    decreases w, n
  {
    if w == 0 then [] else HexDigits(n / 16, w - 1) + [HexDigit(n % 16)]
  }

  /** The format `{:08x}`: eight digits, or as many more as the number needs. */
  function Format08x(n: nat): (s: bytes)
    ensures n < U32 ==> |s| == 8
  {
    if n < U32 then HexDigits(n, 8) else Format08x(n / 16) + [HexDigit(n % 16)]
  }

  function HexValue(s: bytes): (v: Option<nat>)
    ensures v.Some? ==> v.value < Pow16(|s|)
  {
    if s == [] then Some(0)
    else
      var hi := HexValue(s[..|s| - 1]);
      var lo := DigitValue(s[|s| - 1]);
      if hi.Some? && lo.Some? then Some(hi.value * 16 + lo.value) else None
  }

  lemma {:induction false} HexRoundTrip(n: nat, w: nat)
    requires n < Pow16(w)
    ensures HexValue(HexDigits(n, w)) == Some(n)
    decreases w
  {
    if w > 0 {
      HexRoundTrip(n / 16, w - 1);
      var s := HexDigits(n, w);
      assert s[..|s| - 1] == HexDigits(n / 16, w - 1);
      assert DigitValue(HexDigit(n % 16)) == Some(n % 16);
    }
  }

  lemma {:induction false} Pow16Eight()
    ensures Pow16(8) == U32
  {
    assert Pow16(2) == 256;
    assert Pow16(4) == 65536;
    assert Pow16(6) == 16777216;
  }

  /** x8u: the loop over the eight characters of a header field. */
  method X8u(x: bytes) returns (r: Option<nat>)
    requires |x| == 8
    ensures r == HexValue(x)
    ensures r.Some? ==> r.value < U32
  {
    var ret := 0;
    var i := 0;
    while i < 8
      invariant 0 <= i <= 8
      invariant HexValue(x[..i]) == Some(ret)
    {
      assert x[..i + 1][..i] == x[..i];
      var d := DigitValue(x[i]);
      if d.None? {
        HexValueBadPrefix(x, i + 1);
        return None;
      }
      ret := ret * 16 + d.value;
      i := i + 1;
    }
    assert x[..8] == x;
    Pow16Eight();
    return Some(ret);
  }

  /** One bad digit spoils every longer field. */
  lemma {:induction false} HexValueBadPrefix(s: bytes, i: nat)
    requires i <= |s| && HexValue(s[..i]).None?
    ensures HexValue(s).None?
    decreases |s|
  {
    if i < |s| {
      assert s[..|s| - 1][..i] == s[..i];
      HexValueBadPrefix(s[..|s| - 1], i);
    } else {
      assert s[..i] == s;
    }
  }

  // ---------------------------------------------------------------------
  // Writing
  // ---------------------------------------------------------------------

  /** The numbers of a header, one after another. */
  function Formatted(ns: seq<nat>): bytes {
    if ns == [] then [] else Format08x(ns[0]) + Formatted(ns[1..])
  }

  lemma {:induction false} FormattedAt(ns: seq<nat>, i: nat)
    requires forall k :: 0 <= k < |ns| ==> ns[k] < U32
    ensures |Formatted(ns)| == 8 * |ns|
    ensures i < |ns| ==> Formatted(ns)[8 * i..8 * i + 8] == Format08x(ns[i])
  {
    if ns != [] {
      var rest := Formatted(ns[1..]);
      FormattedAt(ns[1..], if i == 0 then 0 else i - 1);
      if 0 < i < |ns| {
        assert (Format08x(ns[0]) + rest)[8 * i..8 * i + 8] == rest[8 * (i - 1)..8 * (i - 1) + 8];
      }
    }
  }

  /** The thirteen numbers after the magic, in the order they are formatted. */
  function HeaderNumbers(ino: nat, e: CpioEntry, nameSize: nat): seq<nat> {
    [ino, e.mode, e.uid, e.gid, 1, 0, |e.data|, 0, 0, e.rdevmajor, e.rdevminor, nameSize, 0]
  }

  function Header(ino: nat, e: CpioEntry, nameSize: nat): bytes {
    MAGIC + Formatted(HeaderNumbers(ino, e, nameSize))
  }

  function Padded(b: bytes): (p: bytes)
    ensures |p| == Align4(|b|) && p[..|b|] == b
  {
    b + Zeros(Align4(|b|) - |b|)
  }

  /** A header with its name, and what follows in an entry. */
  function Block(header: bytes, name: bytes, data: bytes): (b: bytes)
    ensures |b| % 4 == 0
  {
    Padded(header + (name + [0])) + Padded(data)
  }

  /** The blocks from number `i` on, one after another. */
  function Concat(blocks: seq<bytes>, i: nat): bytes
    requires i <= |blocks|
    decreases |blocks| - i
  {
    if i == |blocks| then [] else blocks[i] + Concat(blocks, i + 1)
  }

  function EntryBlock(names: seq<bytes>, a: Archive, i: nat): bytes
    requires i < |names| && names[i] in a
  {
    Block(Header(FIRST_INODE + i, a[names[i]], |names[i]| + 1), names[i], a[names[i]].data)
  }

  const TRAILER_ENTRY: CpioEntry := CpioEntry(0x1ED, 0, 0, 0, 0, [])

  function TrailerBlock(ino: nat): bytes {
    Block(Header(ino, TRAILER_ENTRY, 11), TRAILER, [])
  }

  ghost function EntryBlocks(names: seq<bytes>, a: Archive): (blocks: seq<bytes>)
    requires forall n :: n in names ==> n in a
    ensures |blocks| == |names|
    ensures forall i :: 0 <= i < |names| ==> blocks[i] == EntryBlock(names, a, i)
  {
    seq(|names|, i requires 0 <= i < |names| => EntryBlock(names, a, i))
  }

  /** The file that dump writes when it visits the names in this order. */
  ghost function DumpInOrder(names: seq<bytes>, a: Archive): bytes
    requires forall n :: n in names ==> n in a
  {
    Concat(EntryBlocks(names, a), 0) + TrailerBlock(FIRST_INODE + |names|)
  }

  /** The file that dump writes. */
  ghost function DumpBytes(a: Archive): bytes {
    DumpInOrder(SortedKeys(a.Keys), a)
  }

  // ---------------------------------------------------------------------
  // Reading
  // ---------------------------------------------------------------------

  datatype LoadError =
    | InvalidMagic
    | BadHeader    // a header number that is not hexadecimal
    | BadName      // no NUL at the end, a NUL inside, or not UTF-8
    | OutOfBounds  // a slice past the end of the input

  datatype LoadResult = Loaded(entries: Archive) | Failed(error: LoadError)

  /** What one turn of the loop does. */
  datatype Turn =
    | Insert(name: bytes, entry: CpioEntry, next: nat)
    | Skip(next: nat)      // "." or "..", whose data is not skipped
    | Trailer(next: nat)   // look for another archive from here on
    | Abort(error: LoadError)

  /** Number `i` of a header. */
  function Field(header: bytes, i: nat): Option<nat>
    requires i < 13 && |header| == HEADER_SIZE
  {
    HexValue(header[6 + 8 * i..14 + 8 * i])
  }

  /** Utf8CStr::from_bytes accepts exactly a NUL-terminated, NUL-free UTF-8 text. */
  predicate CName(s: bytes) {
    |s| > 0 && s[|s| - 1] == 0 && 0 !in s[..|s| - 1] && Utf8(s[..|s| - 1])
  }

  /** The first place at or after `from` where MAGIC occurs. */
  function FindMagic(data: bytes, from: nat): (r: Option<nat>)
    requires from <= |data|
    ensures r.Some? ==> from <= r.value <= |data| - 6
    decreases |data| - from
  {
    if |data| < from + 6 then None
    else if data[from..from + 6] == MAGIC then Some(from)
    else FindMagic(data, from + 1)
  }

  function ReadEntry(data: bytes, header: bytes, name: bytes, body: nat): (t: Turn)
    requires |header| == HEADER_SIZE
    ensures t.Insert? || t.Abort?
    ensures t.Insert? ==> body <= t.next
  {
    var size := Field(header, 6);
    var mode, uid, gid := Field(header, 1), Field(header, 2), Field(header, 3);
    var major, minor := Field(header, 9), Field(header, 10);
    if size.None? || mode.None? || uid.None? || gid.None? || major.None? || minor.None? then Abort(BadHeader)
    else if body + size.value > |data| then Abort(OutOfBounds)
    else
      Insert(name,
             CpioEntry(mode.value, uid.value, gid.value, major.value, minor.value, data[body..body + size.value]),
             Align4(body + size.value))
  }

  /** The front half of a turn: the header, the name and where the data would start. */
  datatype Front = Found(header: bytes, name: bytes, body: nat) | Bad(error: LoadError)

  function ReadName(data: bytes, pos: nat): (f: Front)
    requires pos < |data|
    ensures f.Found? ==> |f.header| == HEADER_SIZE && pos < f.body
  {
    if pos + HEADER_SIZE > |data| then Bad(OutOfBounds)
    else
      var header := data[pos..pos + HEADER_SIZE];
      if header[..6] != MAGIC then Bad(InvalidMagic)
      else
        var nameSize := Field(header, 11);
        if nameSize.None? then Bad(BadHeader)
        else
          var end := pos + HEADER_SIZE + nameSize.value;
          if end > |data| then Bad(OutOfBounds)
          else if !CName(data[pos + HEADER_SIZE..end]) then Bad(BadName)
          else Found(header, data[pos + HEADER_SIZE..end - 1], Align4(end))
  }

  function Read(data: bytes, pos: nat): (t: Turn)
    requires pos < |data|
    ensures !t.Abort? ==> pos < t.next
    ensures t.Trailer? ==> t.next <= |data|
  {
    match ReadName(data, pos)
    case Bad(error) => Abort(error)
    case Found(header, name, body) =>
      if name == DOT || name == DOT_DOT then Skip(body)
      else if name == TRAILER then
        if body > |data| then Abort(OutOfBounds) else Trailer(body)
      else ReadEntry(data, header, name, body)
  }

  /** All that the loop sees of its input: the turn at each position, and the next magic from there on. */
  datatype Input = Input(turns: seq<Turn>, finds: seq<Option<nat>>)

  ghost predicate Progress(inp: Input) {
    && |inp.finds| == |inp.turns| + 1
    && (forall pos :: 0 <= pos < |inp.turns| && !inp.turns[pos].Abort? ==> pos < inp.turns[pos].next)
    && (forall pos :: 0 <= pos < |inp.turns| && inp.turns[pos].Trailer? ==> inp.turns[pos].next <= |inp.turns|)
    && (forall pos :: 0 <= pos <= |inp.turns| && inp.finds[pos].Some? ==> pos <= inp.finds[pos].value)
  }

  ghost function InputOf(data: bytes): (inp: Input)
    ensures Progress(inp) && |inp.turns| == |data|
    ensures forall pos :: 0 <= pos < |data| ==> inp.turns[pos] == Read(data, pos)
    ensures forall pos :: 0 <= pos <= |data| ==> inp.finds[pos] == FindMagic(data, pos)
  {
    Input(seq(|data|, (pos: nat) requires pos < |data| => Read(data, pos)),
          seq(|data| + 1, (pos: nat) requires pos <= |data| => FindMagic(data, pos)))
  }

  ghost function Loop(inp: Input, pos: nat, acc: Archive): LoadResult
    requires Progress(inp)
    decreases |inp.turns| - pos
  {
    if pos >= |inp.turns| then Loaded(acc)
    else
      match inp.turns[pos]
      case Insert(name, entry, next) => Loop(inp, next, acc[name := entry])
      case Skip(next) => Loop(inp, next, acc)
      case Trailer(next) => if inp.finds[next].None? then Loaded(acc) else Loop(inp, inp.finds[next].value, acc)
      case Abort(error) => Failed(error)
  }

  /** What load_from_data returns. */
  ghost function Load(data: bytes): LoadResult {
    Loop(InputOf(data), 0, map[])
  }

  // ---------------------------------------------------------------------
  // Reading back what was written
  // ---------------------------------------------------------------------

  /** What the format can carry: 32-bit numbers and names that are not control words. */
  ghost predicate LegalEntry(name: bytes, e: CpioEntry) {
    && e.mode < U32 && e.uid < U32 && e.gid < U32 && e.rdevmajor < U32 && e.rdevminor < U32
    && |e.data| < U32 && |name| + 1 < U32
    && LegalName(name)
  }

  ghost predicate LegalName(name: bytes) {
    Utf8(name) && 0 !in name && name != DOT && name != DOT_DOT && name != TRAILER
  }

  ghost predicate Legal(a: Archive) {
    && (forall n :: n in a ==> LegalEntry(n, a[n]))
    && FIRST_INODE + |a| < U32
  }

  /** The numbers of `e` and of its name's size stand in the header where the reader looks. */
  ghost predicate HeaderOf(header: bytes, e: CpioEntry, nameSize: nat) {
    && |header| == HEADER_SIZE && header[..6] == MAGIC
    && Field(header, 11) == Some(nameSize)
    && Field(header, 6) == Some(|e.data|)
    && Field(header, 1) == Some(e.mode) && Field(header, 2) == Some(e.uid) && Field(header, 3) == Some(e.gid)
    && Field(header, 9) == Some(e.rdevmajor) && Field(header, 10) == Some(e.rdevminor)
  }

  lemma {:induction false} FormattedField(ns: seq<nat>, i: nat)
    requires |ns| == 13 && i < 13 && forall k :: 0 <= k < |ns| ==> ns[k] < U32
    ensures |MAGIC + Formatted(ns)| == HEADER_SIZE
    ensures Field(MAGIC + Formatted(ns), i) == Some(ns[i])
  {
    FormattedAt(ns, i);
    assert (MAGIC + Formatted(ns))[6 + 8 * i..14 + 8 * i] == Formatted(ns)[8 * i..8 * i + 8];
    Pow16Eight();
    HexRoundTrip(ns[i], 8);
  }

  lemma {:induction false} HeaderReads(ino: nat, e: CpioEntry, nameSize: nat)
    requires e.mode < U32 && e.uid < U32 && e.gid < U32 && e.rdevmajor < U32 && e.rdevminor < U32
    requires |e.data| < U32 && nameSize < U32 && ino < U32
    ensures HeaderOf(Header(ino, e, nameSize), e, nameSize)
  {
    var ns := HeaderNumbers(ino, e, nameSize);
    FormattedField(ns, 11);
    FormattedField(ns, 6);
    FormattedField(ns, 1);
    FormattedField(ns, 2);
    FormattedField(ns, 3);
    FormattedField(ns, 9);
    FormattedField(ns, 10);
  }

  lemma {:induction false} CNameOf(s: bytes, name: bytes)
    requires s == name + [0] && Utf8(name) && 0 !in name
    ensures CName(s)
  {
    assert s[..|s| - 1] == name;
  }

  lemma {:induction false} ReadStages(data: bytes, pos: nat, header: bytes, name: bytes)
    requires |header| == HEADER_SIZE && header[..6] == MAGIC && Field(header, 11) == Some(|name| + 1)
    requires At(data, pos, header) && At(data, pos + HEADER_SIZE, name + [0])
    requires Utf8(name) && 0 !in name
    ensures pos < |data|
    ensures ReadName(data, pos) == Found(header, name, Align4(pos + HEADER_SIZE + |name| + 1))
  {
    AtSlice(data, pos, header);
    AtSlice(data, pos + HEADER_SIZE, name + [0]);
    var text := data[pos + HEADER_SIZE..pos + HEADER_SIZE + |name| + 1];
    CNameOf(text, name);
    assert data[pos + HEADER_SIZE..pos + HEADER_SIZE + |name|] == text[..|name|] == name;
  }

  lemma {:induction false} PaddedParts(data: bytes, pos: nat, a: bytes, b: bytes)
    requires At(data, pos, Padded(a) + Padded(b))
    ensures At(data, pos, a) && At(data, pos + Align4(|a|), b)
  {
    AtSplit(data, pos, Padded(a), Padded(b));
    AtPart(data, pos, Padded(a), 0, |a|);
    AtPart(data, pos + Align4(|a|), Padded(b), 0, |b|);
  }

  lemma {:induction false} BlockParts(data: bytes, pos: nat, header: bytes, name: bytes, body: bytes)
    requires pos % 4 == 0 && |header| == HEADER_SIZE && At(data, pos, Block(header, name, body))
    ensures At(data, pos, header) && At(data, pos + HEADER_SIZE, name + [0])
    ensures
      var start := Align4(pos + HEADER_SIZE + |name| + 1);
      At(data, start, body) && Align4(start + |body|) == pos + |Block(header, name, body)|
  {
    PaddedParts(data, pos, header + (name + [0]), body);
    AtSplit(data, pos, header, name + [0]);
    AlignShift(pos, HEADER_SIZE + |name| + 1);
    AlignShift(pos + Align4(HEADER_SIZE + |name| + 1), |body|);
  }

  lemma {:induction false} AlignShift(pos: nat, n: nat)
    requires pos % 4 == 0
    ensures Align4(pos + n) == pos + Align4(n) && (pos + Align4(n)) % 4 == 0
  {
  }

  lemma {:induction false} BlockReads(data: bytes, pos: nat, header: bytes, name: bytes, e: CpioEntry)
    requires HeaderOf(header, e, |name| + 1) && Utf8(name) && 0 !in name
    requires pos % 4 == 0 && At(data, pos, Block(header, name, e.data))
    ensures pos < |data|
    ensures
      var start := Align4(pos + HEADER_SIZE + |name| + 1);
      && ReadName(data, pos) == Found(header, name, start)
      && At(data, start, e.data)
      && Align4(start + |e.data|) == pos + |Block(header, name, e.data)|
  {
    BlockParts(data, pos, header, name, e.data);
    ReadStages(data, pos, header, name);
  }

  lemma {:induction false} EntryReads(data: bytes, pos: nat, header: bytes, name: bytes, e: CpioEntry)
    requires HeaderOf(header, e, |name| + 1) && LegalName(name)
    requires pos % 4 == 0 && At(data, pos, Block(header, name, e.data))
    ensures pos < |data|
    ensures Read(data, pos) == Insert(name, e, pos + |Block(header, name, e.data)|)
  {
    BlockReads(data, pos, header, name, e);
    AtSlice(data, Align4(pos + HEADER_SIZE + |name| + 1), e.data);
  }

  lemma {:induction false} AsciiNameReads(data: bytes, pos: nat, header: bytes, name: bytes, e: CpioEntry)
    requires HeaderOf(header, e, |name| + 1) && |e.data| == 0
    requires forall k :: 0 <= k < |name| ==> 0 < name[k] < 0x80
    requires pos % 4 == 0 && At(data, pos, Block(header, name, e.data))
    ensures pos < |data| && pos + |Block(header, name, e.data)| <= |data|
    ensures ReadName(data, pos) == Found(header, name, pos + |Block(header, name, e.data)|)
  {
    AsciiIsUtf8(name, 0);
    BlockReads(data, pos, header, name, e);
  }

  lemma {:induction false} TrailerReads(data: bytes, pos: nat, header: bytes)
    requires HeaderOf(header, TRAILER_ENTRY, 11)
    requires pos % 4 == 0 && At(data, pos, Block(header, TRAILER, []))
    ensures pos < |data|
    ensures Read(data, pos) == Trailer(pos + |Block(header, TRAILER, [])|)
  {
    AsciiNameReads(data, pos, header, TRAILER, TRAILER_ENTRY);
  }

  /** Wherever it stands at a multiple of four, block `b` is read as this entry. */
  ghost predicate ReadAsEntry(inp: Input, data: bytes, b: bytes, name: bytes, e: CpioEntry) {
    |b| % 4 == 0 && forall p: nat {:trigger At(data, p, b)} :: p % 4 == 0 && At(data, p, b) ==>
      p < |inp.turns| && inp.turns[p] == Insert(name, e, p + |b|)
  }

  /** The entries of these names, from number `i` on, inserted one after another. */
  function Inserted(names: seq<bytes>, a: Archive, i: nat, acc: Archive): Archive
    requires i <= |names| && forall n :: n in names ==> n in a
    decreases |names| - i
  {
    if i == |names| then acc else Inserted(names, a, i + 1, acc[names[i] := a[names[i]]])
  }

  lemma {:induction false} InsertedIs(names: seq<bytes>, a: Archive, i: nat, acc: Archive)
    requires i <= |names| && forall n :: n in names ==> n in a
    ensures Inserted(names, a, i, acc) == acc + map n | n in names[i..] :: a[n]
    decreases |names| - i
  {
    if i == |names| {
      assert names[i..] == [];
    } else {
      InsertedIs(names, a, i + 1, acc[names[i] := a[names[i]]]);
      assert names[i..] == [names[i]] + names[i + 1..];
    }
  }

  lemma {:induction false} InsertedAll(names: seq<bytes>, a: Archive, acc: Archive)
    requires forall n :: n in names <==> n in a
    ensures Inserted(names, a, 0, acc) == acc + a
  {
    InsertedIs(names, a, 0, acc);
    assert names[0..] == names;
    assert (map n | n in names :: a[n]) == a;
  }

  lemma {:induction false} LoopOneBlock(inp: Input, data: bytes, pos: nat, block: bytes, rest: bytes, name: bytes,
      e: CpioEntry, acc: Archive)
    requires Progress(inp) && ReadAsEntry(inp, data, block, name, e)
    requires pos % 4 == 0 && At(data, pos, block + rest)
    ensures At(data, pos + |block|, rest) && (pos + |block|) % 4 == 0
    ensures Loop(inp, pos, acc) == Loop(inp, pos + |block|, acc[name := e])
  {
    AtSplit(data, pos, block, rest);
  }

  /** A run of blocks, each read as the entry of its name, adds exactly those entries. */
  lemma {:induction false} LoopBlocks(inp: Input, data: bytes, pos: nat, blocks: seq<bytes>, i: nat,
                                      names: seq<bytes>, a: Archive, acc: Archive)
    requires Progress(inp) && i <= |blocks|
    requires |blocks| == |names| && forall n :: n in names ==> n in a
    requires forall k :: 0 <= k < |blocks| ==> ReadAsEntry(inp, data, blocks[k], names[k], a[names[k]])
    requires pos % 4 == 0 && At(data, pos, Concat(blocks, i))
    ensures (pos + |Concat(blocks, i)|) % 4 == 0
    ensures Loop(inp, pos, acc) == Loop(inp, pos + |Concat(blocks, i)|, Inserted(names, a, i, acc))
    decreases |names| - i
  {
    if i < |names| {
      LoopOneBlock(inp, data, pos, blocks[i], Concat(blocks, i + 1), names[i], a[names[i]], acc);
      LoopBlocks(inp, data, pos + |blocks[i]|, blocks, i + 1, names, a, acc[names[i] := a[names[i]]]);
    }
  }

  /** How the loop goes on behind a trailer: with the next file it finds, if any. */
  ghost function AfterFile(inp: Input, pos: nat, acc: Archive): LoadResult
    requires Progress(inp) && pos <= |inp.turns|
  {
    if inp.finds[pos].None? then Loaded(acc) else Loop(inp, inp.finds[pos].value, acc)
  }

  /** Wherever it stands at a multiple of four, block `b` is read as a trailer. */
  ghost predicate ReadAsTrailer(inp: Input, data: bytes, b: bytes) {
    |b| % 4 == 0 && forall p: nat {:trigger At(data, p, b)} :: p % 4 == 0 && At(data, p, b) ==>
      p < |inp.turns| && inp.turns[p] == Trailer(p + |b|)
  }

  lemma {:induction false} LoopTrailer(inp: Input, data: bytes, pos: nat, trailer: bytes, acc: Archive)
    requires Progress(inp) && ReadAsTrailer(inp, data, trailer)
    requires pos % 4 == 0 && At(data, pos, trailer)
    ensures (pos + |trailer|) % 4 == 0
    ensures Loop(inp, pos, acc) == AfterFile(inp, pos + |trailer|, acc)
  {
  }

  lemma {:induction false} EntriesThenTrailer(inp: Input, data: bytes, pos: nat, blocks: seq<bytes>, trailer: bytes,
                           names: seq<bytes>, a: Archive, acc: Archive)
    requires Progress(inp) && |data| == |inp.turns|
    requires |blocks| == |names| && forall n :: n in names <==> n in a
    requires forall i :: 0 <= i < |blocks| ==> ReadAsEntry(inp, data, blocks[i], names[i], a[names[i]])
    requires ReadAsTrailer(inp, data, trailer)
    requires pos % 4 == 0 && At(data, pos, Concat(blocks, 0) + trailer)
    ensures (pos + |Concat(blocks, 0) + trailer|) % 4 == 0
    ensures Loop(inp, pos, acc) == AfterFile(inp, pos + |Concat(blocks, 0) + trailer|, acc + a)
  {
    AtSplit(data, pos, Concat(blocks, 0), trailer);
    LoopBlocks(inp, data, pos, blocks, 0, names, a, acc);
    InsertedAll(names, a, acc);
    LoopTrailer(inp, data, pos + |Concat(blocks, 0)|, trailer, acc + a);
  }

  lemma {:induction false} BlockReadAsEntry(data: bytes, header: bytes, name: bytes, e: CpioEntry)
    requires HeaderOf(header, e, |name| + 1) && LegalName(name)
    ensures ReadAsEntry(InputOf(data), data, Block(header, name, e.data), name, e)
  {
    forall p: nat | p % 4 == 0 && At(data, p, Block(header, name, e.data))
      ensures p < |data| && Read(data, p) == Insert(name, e, p + |Block(header, name, e.data)|)
    {
      EntryReads(data, p, header, name, e);
    }
  }

  lemma {:induction false} BlockReadAsTrailer(data: bytes, header: bytes)
    requires HeaderOf(header, TRAILER_ENTRY, 11)
    ensures ReadAsTrailer(InputOf(data), data, Block(header, TRAILER, []))
  {
    forall p: nat | p % 4 == 0 && At(data, p, Block(header, TRAILER, []))
      ensures p < |data| && Read(data, p) == Trailer(p + |Block(header, TRAILER, [])|)
    {
      TrailerReads(data, p, header);
    }
  }

  lemma {:induction false} EntryBlockRead(inp: Input, data: bytes, names: seq<bytes>, a: Archive, i: nat)
    requires inp == InputOf(data) && i < |names| && names[i] in a
    requires LegalEntry(names[i], a[names[i]]) && FIRST_INODE + i < U32
    ensures ReadAsEntry(inp, data, EntryBlock(names, a, i), names[i], a[names[i]])
  {
    var name, e := names[i], a[names[i]];
    HeaderReads(FIRST_INODE + i, e, |name| + 1);
    BlockReadAsEntry(data, Header(FIRST_INODE + i, e, |name| + 1), name, e);
  }

  lemma {:induction false} TrailerBlockRead(inp: Input, data: bytes, ino: nat)
    requires inp == InputOf(data) && ino < U32
    ensures ReadAsTrailer(inp, data, TrailerBlock(ino))
  {
    HeaderReads(ino, TRAILER_ENTRY, 11);
    BlockReadAsTrailer(data, Header(ino, TRAILER_ENTRY, 11));
  }

  /** The file is a run of entry blocks and a trailer, each read as it should be. */
  lemma {:induction false} DumpBlocks(inp: Input, data: bytes, names: seq<bytes>, a: Archive)
      returns (blocks: seq<bytes>, trailer: bytes)
    requires inp == InputOf(data) && Legal(a) && |names| == |a| && forall n :: n in names ==> n in a
    ensures DumpInOrder(names, a) == Concat(blocks, 0) + trailer && |blocks| == |names|
    ensures forall i :: 0 <= i < |blocks| ==> ReadAsEntry(inp, data, blocks[i], names[i], a[names[i]])
    ensures ReadAsTrailer(inp, data, trailer)
  {
    blocks, trailer := EntryBlocks(names, a), TrailerBlock(FIRST_INODE + |names|);
    forall i | 0 <= i < |names| ensures ReadAsEntry(inp, data, blocks[i], names[i], a[names[i]]) {
      EntryBlockRead(inp, data, names, a, i);
    }
    TrailerBlockRead(inp, data, FIRST_INODE + |names|);
  }

  lemma {:induction false} HeaderStartsBlock(header: bytes, name: bytes, data: bytes)
    requires |header| == HEADER_SIZE && header[..6] == MAGIC
    ensures StartsWith(Block(header, name, data), MAGIC)
  {
    var head := header + (name + [0]);
    assert Block(header, name, data)[..6] == Padded(head)[..|head|][..6] == header[..6];
  }

  lemma {:induction false} ConcatHead(blocks: seq<bytes>, tail: bytes)
    requires StartsWith(if blocks == [] then tail else blocks[0], MAGIC)
    ensures StartsWith(Concat(blocks, 0) + tail, MAGIC)
  {
    if blocks == [] {
      assert Concat(blocks, 0) + tail == tail;
    } else {
      assert (Concat(blocks, 0) + tail)[..6] == blocks[0][..6];
    }
  }

  lemma {:induction false} DumpStartsWithMagic(names: seq<bytes>, a: Archive)
    requires Legal(a) && |names| == |a| && forall n :: n in names ==> n in a
    ensures StartsWith(DumpInOrder(names, a), MAGIC)
  {
    if names == [] {
      HeaderReads(FIRST_INODE, TRAILER_ENTRY, 11);
      HeaderStartsBlock(Header(FIRST_INODE, TRAILER_ENTRY, 11), TRAILER, []);
    } else {
      var n0 := names[0];
      HeaderReads(FIRST_INODE, a[n0], |n0| + 1);
      HeaderStartsBlock(Header(FIRST_INODE, a[n0], |n0| + 1), n0, a[n0].data);
    }
    ConcatHead(EntryBlocks(names, a), TrailerBlock(FIRST_INODE + |names|));
  }

  // ---------------------------------------------------------------------
  // Archives joined together
  // ---------------------------------------------------------------------

  /** Zero bytes hide no magic, so the search stops at the first place that shows it. */
  lemma {:induction false} FindAfterZeros(data: bytes, pos: nat, k: nat)
    requires At(data, pos, Zeros(k))
    ensures At(data, pos + k, MAGIC) ==> FindMagic(data, pos) == Some(pos + k)
    ensures pos + k == |data| ==> FindMagic(data, pos) == None
    decreases k
  {
    if At(data, pos + k, MAGIC) {
      AtSlice(data, pos + k, MAGIC);
    }
    if k > 0 {
      assert Zeros(k) == Zeros(1) + Zeros(k - 1);
      AtSplit(data, pos, Zeros(1), Zeros(k - 1));
      assert data[pos + 0] == Zeros(1)[0];
      FindAfterZeros(data, pos + 1, k - 1);
      if pos + 6 <= |data| {
        assert data[pos..pos + 6][0] != MAGIC[0];
      }
    }
  }

  /** The files from number `i` on, each followed by a multiple of four zero bytes. */
  function Joined(files: seq<bytes>, gaps: seq<nat>, i: nat): bytes
    requires |files| == |gaps| && i <= |files|
    decreases |files| - i
  {
    if i == |files| then [] else files[i] + (Zeros(4 * gaps[i]) + Joined(files, gaps, i + 1))
  }

  /** Later archives override earlier ones. */
  function Overridden(archives: seq<Archive>, i: nat, acc: Archive): Archive
    requires i <= |archives|
    decreases |archives| - i
  {
    if i == |archives| then acc else Overridden(archives, i + 1, acc + archives[i])
  }

  /** Wherever it stands at a multiple of four, the file is loaded as this archive. */
  ghost predicate LoadsAs(inp: Input, data: bytes, file: bytes, a: Archive)
    requires Progress(inp) && |data| == |inp.turns|
  {
    && StartsWith(file, MAGIC)
    && forall p: nat {:trigger At(data, p, file)} :: p % 4 == 0 && At(data, p, file) ==>
      (p + |file|) % 4 == 0 && LoadsThere(inp, p, |file|, a)
  }

  ghost predicate LoadsThere(inp: Input, pos: nat, size: nat, a: Archive)
    requires Progress(inp) && pos + size <= |inp.turns|
  {
    forall acc :: Loop(inp, pos, acc) == AfterFile(inp, pos + size, acc + a)
  }

  lemma {:induction false} FindsNextFile(data: bytes, pos: nat, gap: nat, files: seq<bytes>, gaps: seq<nat>, i: nat)
    requires |files| == |gaps| && i <= |files| && At(data, pos, Zeros(4 * gap) + Joined(files, gaps, i))
    requires pos + 4 * gap + |Joined(files, gaps, i)| == |data|
    requires i < |files| ==> StartsWith(files[i], MAGIC)
    ensures FindMagic(data, pos) == if i == |files| then None else Some(pos + 4 * gap)
    ensures At(data, pos + 4 * gap, Joined(files, gaps, i))
  {
    var rest := Joined(files, gaps, i);
    AtSplit(data, pos, Zeros(4 * gap), rest);
    if i < |files| {
      assert rest[0..6] == files[i][..6];
      AtPart(data, pos + 4 * gap, rest, 0, 6);
    }
    FindAfterZeros(data, pos, 4 * gap);
  }

  lemma {:induction false} LoopOneFile(inp: Input, data: bytes, pos: nat, files: seq<bytes>, gaps: seq<nat>, i: nat,
      a: Archive, acc: Archive)
    requires Progress(inp) && |inp.turns| == |data| && |files| == |gaps| && i < |files|
    requires pos + |files[i]| <= |data| && inp.finds[pos + |files[i]|] == FindMagic(data, pos + |files[i]|)
    requires LoadsAs(inp, data, files[i], a) && (i + 1 < |files| ==> StartsWith(files[i + 1], MAGIC))
    requires pos % 4 == 0 && At(data, pos, Joined(files, gaps, i)) && pos + |Joined(files, gaps, i)| == |data|
    ensures
      var next := pos + |files[i]| + 4 * gaps[i];
      && next % 4 == 0
      && At(data, next, Joined(files, gaps, i + 1)) && next + |Joined(files, gaps, i + 1)| == |data|
      && Loop(inp, pos, acc) == if i + 1 == |files| then Loaded(acc + a) else Loop(inp, next, acc + a)
  {
    AtSplit(data, pos, files[i], Zeros(4 * gaps[i]) + Joined(files, gaps, i + 1));
    assert LoadsThere(inp, pos, |files[i]|, a);
    assert Loop(inp, pos, acc) == AfterFile(inp, pos + |files[i]|, acc + a);
    FindsNextFile(data, pos + |files[i]|, gaps[i], files, gaps, i + 1);
  }

  lemma {:induction false} LoopJoined(inp: Input, data: bytes, pos: nat, files: seq<bytes>, gaps: seq<nat>, i: nat,
                                      archives: seq<Archive>, acc: Archive)
    requires inp == InputOf(data) && |files| == |gaps| == |archives| && i <= |files|
    requires forall k :: 0 <= k < |files| ==> LoadsAs(inp, data, files[k], archives[k])
    requires pos % 4 == 0 && At(data, pos, Joined(files, gaps, i)) && pos + |Joined(files, gaps, i)| == |data|
    ensures Loop(inp, pos, acc) == Loaded(Overridden(archives, i, acc))
    decreases |files| - i
  {
    if i < |files| {
      assert LoadsAs(inp, data, files[i], archives[i]);
      LoopOneFile(inp, data, pos, files, gaps, i, archives[i], acc);
      LoopJoined(inp, data, pos + |files[i]| + 4 * gaps[i], files, gaps, i + 1, archives, acc + archives[i]);
    }
  }

  lemma {:induction false} SortedSize(names: seq<bytes>, keys: set<bytes>)
    requires Enumerates(names, keys)
    ensures |names| == |keys|
    decreases |names|
  {
    if names != [] {
      EnumerationTail(names, keys);
      SortedSize(names[1..], keys - {names[0]});
    }
  }

  lemma {:induction false} DumpLoadsAs(inp: Input, data: bytes, names: seq<bytes>, a: Archive)
    requires inp == InputOf(data) && Legal(a) && |names| == |a| && forall n :: n in names <==> n in a
    ensures LoadsAs(inp, data, DumpInOrder(names, a), a)
  {
    var file := DumpInOrder(names, a);
    DumpStartsWithMagic(names, a);
    var blocks, trailer := DumpBlocks(inp, data, names, a);
    BlocksLoadAs(inp, data, file, blocks, trailer, names, a);
  }

  lemma {:induction false} BlocksLoadAs(inp: Input, data: bytes, file: bytes, blocks: seq<bytes>, trailer: bytes,
                     names: seq<bytes>, a: Archive)
    requires Progress(inp) && |data| == |inp.turns| && file == Concat(blocks, 0) + trailer && StartsWith(file, MAGIC)
    requires |blocks| == |names| && forall n :: n in names <==> n in a
    requires forall i :: 0 <= i < |blocks| ==> ReadAsEntry(inp, data, blocks[i], names[i], a[names[i]])
    requires ReadAsTrailer(inp, data, trailer)
    ensures LoadsAs(inp, data, file, a)
  {
    forall p: nat | p % 4 == 0 && At(data, p, file)
      ensures (p + |file|) % 4 == 0 && LoadsThere(inp, p, |file|, a)
    {
      EntriesThenTrailer(inp, data, p, blocks, trailer, names, a, map[]);
      forall acc ensures Loop(inp, p, acc) == AfterFile(inp, p + |file|, acc + a) {
        EntriesThenTrailer(inp, data, p, blocks, trailer, names, a, acc);
      }
    }
  }

  ghost function Dumps(archives: seq<Archive>): (files: seq<bytes>)
    ensures |files| == |archives|
    ensures forall i :: 0 <= i < |files| ==> files[i] == DumpBytes(archives[i])
  {
    seq(|archives|, i requires 0 <= i < |archives| => DumpBytes(archives[i]))
  }

  /** Any concatenation of dumps loads as the archives overriding one another in turn. */
  lemma {:induction false} LoadJoined(archives: seq<Archive>, gaps: seq<nat>)
    requires |archives| == |gaps| && forall i :: 0 <= i < |archives| ==> Legal(archives[i])
    ensures Load(Joined(Dumps(archives), gaps, 0)) == Loaded(Overridden(archives, 0, map[]))
  {
    var data := Joined(Dumps(archives), gaps, 0);
    var inp := InputOf(data);
    forall i | 0 <= i < |archives| ensures LoadsAs(inp, data, Dumps(archives)[i], archives[i]) {
      SortedSize(SortedKeys(archives[i].Keys), archives[i].Keys);
      DumpLoadsAs(inp, data, SortedKeys(archives[i].Keys), archives[i]);
    }
    LoopJoined(inp, data, 0, Dumps(archives), gaps, 0, archives, map[]);
  }

  /** Loading a dump gives the archive back. */
  lemma {:induction false} LoadDump(a: Archive)
    requires Legal(a)
    ensures Load(DumpBytes(a)) == Loaded(a)
  {
    LoadJoined([a], [0]);
    OneFile(Dumps([a]), a);
  }

  /** The names the reader takes for something else than an entry. */
  predicate ControlWord(name: bytes) {
    name == DOT || name == DOT_DOT || name == TRAILER
  }

  /** Numbers of 32 bits and names that are text, control words among them. */
  ghost predicate Carries(a: Archive) {
    && (forall n :: n in a ==>
          && a[n].mode < U32 && a[n].uid < U32 && a[n].gid < U32 && a[n].rdevmajor < U32 && a[n].rdevminor < U32
          && |a[n].data| < U32 && |n| + 1 < U32 && Utf8(n) && 0 !in n)
    && FIRST_INODE + |a| < U32
  }

  ghost predicate Wordless(a: Archive) {
    forall n :: n in a ==> !ControlWord(n)
  }

  lemma {:induction false} NeverReadsControlWord(data: bytes, pos: nat)
    requires pos < |data|
    ensures Read(data, pos).Insert? ==> !ControlWord(Read(data, pos).name)
  {
  }

  lemma {:induction false} LoopIsWordless(inp: Input, pos: nat, acc: Archive)
    requires Progress(inp) && Wordless(acc)
    requires forall i :: 0 <= i < |inp.turns| && inp.turns[i].Insert? ==> !ControlWord(inp.turns[i].name)
    ensures Loop(inp, pos, acc).Loaded? ==> Wordless(Loop(inp, pos, acc).entries)
    decreases |inp.turns| - pos
  {
    if pos < |inp.turns| {
      match inp.turns[pos] {
        case Insert(name, entry, next) => LoopIsWordless(inp, next, acc[name := entry]);
        case Skip(next) => LoopIsWordless(inp, next, acc);
        case Trailer(next) =>
          if inp.finds[next].Some? {
            LoopIsWordless(inp, inp.finds[next].value, acc);
          }
        case Abort(_) =>
      }
    }
  }

  /** Whatever is loaded holds no entry under a control word. */
  lemma {:induction false} LoadedIsWordless(data: bytes)
    ensures Load(data).Loaded? ==> Wordless(Load(data).entries)
  {
    forall i | 0 <= i < |data| && InputOf(data).turns[i].Insert?
      ensures !ControlWord(InputOf(data).turns[i].name)
    {
      NeverReadsControlWord(data, i);
    }
    LoopIsWordless(InputOf(data), 0, map[]);
  }

  /** Loading a dump gives the archive back exactly when no entry is named like a control word. */
  lemma {:induction false} LoadDumpIff(a: Archive)
    requires Carries(a)
    ensures Load(DumpBytes(a)) == Loaded(a) <==> Wordless(a)
  {
    if Wordless(a) {
      LoadDump(a);
    } else {
      LoadedIsWordless(DumpBytes(a));
    }
  }

  lemma {:induction false} OneFile(files: seq<bytes>, a: Archive)
    requires |files| == 1
    ensures Joined(files, [0], 0) == files[0]
    ensures Overridden([a], 0, map[]) == a
  {
    assert Joined(files, [0], 1) == [];
    assert map[] + a == a;
  }

  // ---------------------------------------------------------------------
  // The loops themselves
  // ---------------------------------------------------------------------

  method Find(data: bytes, from: nat) returns (r: Option<nat>)
    requires from <= |data|
    ensures r == FindMagic(data, from)
  {
    var i := from;
    while i + 6 <= |data|
      invariant from <= i <= |data|
      invariant FindMagic(data, from) == FindMagic(data, i)
    {
      if data[i..i + 6] == MAGIC {
        return Some(i);
      }
      i := i + 1;
    }
    return None;
  }

  method ReadHeader(header: bytes) returns (r: Option<(nat, nat, nat, nat, nat, nat)>)
    requires |header| == HEADER_SIZE
    ensures r.None? <==> Field(header, 6).None? || Field(header, 1).None? || Field(header, 2).None?
                         || Field(header, 3).None? || Field(header, 9).None? || Field(header, 10).None?
    ensures r.Some? ==> r == Some((Field(header, 6).value, Field(header, 1).value, Field(header, 2).value,
                                   Field(header, 3).value, Field(header, 9).value, Field(header, 10).value))
  {
    var size := X8u(header[54..62]);
    var mode := X8u(header[14..22]);
    var uid := X8u(header[22..30]);
    var gid := X8u(header[30..38]);
    var major := X8u(header[78..86]);
    var minor := X8u(header[86..94]);
    if size.None? || mode.None? || uid.None? || gid.None? || major.None? || minor.None? {
      return None;
    }
    return Some((size.value, mode.value, uid.value, gid.value, major.value, minor.value));
  }

  /** One turn of the loop. */
  method ReadTurn(data: bytes, start: nat) returns (t: Turn)
    requires start < |data|
    ensures t == Read(data, start)
  {
    var pos := start;
    if pos + HEADER_SIZE > |data| {
      return Abort(OutOfBounds);
    }
    var header := data[pos..pos + HEADER_SIZE];
    if header[..6] != MAGIC {
      return Abort(InvalidMagic);
    }
    pos := pos + HEADER_SIZE;
    var nameSize := X8u(header[94..102]);
    if nameSize.None? {
      return Abort(BadHeader);
    }
    if pos + nameSize.value > |data| {
      return Abort(OutOfBounds);
    }
    if !CName(data[pos..pos + nameSize.value]) {
      return Abort(BadName);
    }
    var name := data[pos..pos + nameSize.value - 1];
    pos := Align4(pos + nameSize.value);
    assert ReadName(data, start) == Found(header, name, pos);
    if name == DOT || name == DOT_DOT {
      return Skip(pos);
    }
    if name == TRAILER {
      return if pos > |data| then Abort(OutOfBounds) else Trailer(pos);
    }
    var numbers := ReadHeader(header);
    if numbers.None? {
      return Abort(BadHeader);
    }
    var (size, mode, uid, gid, major, minor) := numbers.value;
    if pos + size > |data| {
      return Abort(OutOfBounds);
    }
    return Insert(name, CpioEntry(mode, uid, gid, major, minor, data[pos..pos + size]), Align4(pos + size));
  }

  method LoadFromData(data: bytes) returns (r: LoadResult)
    ensures r == Load(data)
  {
    var entries: Archive := map[];
    var pos := 0;
    ghost var inp := InputOf(data);
    while pos < |data|
      invariant Loop(inp, pos, entries) == Load(data)
      decreases |data| - pos
    {
      var t := ReadTurn(data, pos);
      assert inp.turns[pos] == t;
      match t
      case Insert(name, entry, next) =>
        entries := entries[name := entry];
        pos := next;
      case Skip(next) =>
        pos := next;
      case Trailer(next) =>
        var x := Find(data, next);
        assert inp.finds[next] == x;
        if x.None? {
          return Loaded(entries);
        }
        pos := x.value;
      case Abort(error) =>
        return Failed(error);
    }
    return Loaded(entries);
  }

  /** The keys in the order of the BTreeMap. */
  method NamesInOrder(keys: set<bytes>) returns (names: seq<bytes>)
    ensures names == SortedKeys(keys)
  {
    names := [];
    var rest := keys;
    while rest != {}
      invariant rest <= keys && (forall n :: n in names <==> n in keys - rest)
      invariant Sorted(names)
      invariant forall n, m :: n in names && m in rest ==> Less(n, m)
      decreases |rest|
    {
      var x :| x in rest;
      var todo := rest - {x};
      while todo != {}
        invariant x in rest && todo <= rest
        invariant forall m :: m in rest && m !in todo ==> x == m || Less(x, m)
        decreases |todo|
      {
        var y :| y in todo;
        LessTrichotomy(x, y);
        if Less(y, x) {
          forall m | m in rest && m !in todo - {y} ensures y == m || Less(y, m) {
            if m != y && m != x {
              LessTransitive(y, x, m);
            }
          }
          x := y;
        }
        todo := todo - {y};
      }
      names := names + [x];
      rest := rest - {x};
    }
    EnumerationUnique(names, SortedKeys(keys), keys);
  }

  lemma {:induction false} ConcatStep(before: bytes, blocks: seq<bytes>, i: nat)
    requires i < |blocks|
    ensures (before + blocks[i]) + Concat(blocks, i + 1) == before + Concat(blocks, i)
  {
  }

  method WriteEntries(names: seq<bytes>, a: Archive) returns (file: bytes, pos: nat, inode: nat)
    requires forall n :: n in names ==> n in a
    ensures file == Concat(EntryBlocks(names, a), 0) && pos == |file| && pos % 4 == 0
    ensures inode == FIRST_INODE + |names|
  {
    ghost var blocks := EntryBlocks(names, a);
    file, pos, inode := [], 0, FIRST_INODE;
    for i := 0 to |names|
      invariant inode == FIRST_INODE + i && pos == |file| && pos % 4 == 0
      invariant file + Concat(blocks, i) == Concat(blocks, 0)
    {
      var name, entry := names[i], a[names[i]];
      ConcatStep(file, blocks, i);
      assert blocks[i] == EntryBlock(names, a, i);
      file, pos := WriteBlock(file, pos, Header(inode, entry, |name| + 1), name, entry.data);
      inode := inode + 1;
    }
  }

  method WriteTrailer(before: bytes, start: nat, inode: nat) returns (file: bytes)
    requires start == |before| && start % 4 == 0
    ensures file == before + TrailerBlock(inode)
  {
    var pos;
    file, pos := WriteBlock(before, start, Header(inode, TRAILER_ENTRY, 11), TRAILER, []);
  }

  method WriteFile(names: seq<bytes>, a: Archive) returns (file: bytes)
    requires forall n :: n in names ==> n in a
    ensures file == DumpInOrder(names, a)
  {
    var entries, pos, inode := WriteEntries(names, a);
    file := WriteTrailer(entries, pos, inode);
  }

  method Dump(a: Archive) returns (file: bytes)
    ensures file == DumpBytes(a)
  {
    var names := NamesInOrder(a.Keys);
    file := WriteFile(names, a);
  }

  /** Header, name and data, each padded to the next multiple of four of the file position. */
  method WriteBlock(before: bytes, start: nat, header: bytes, name: bytes, data: bytes) returns (file: bytes, pos: nat)
    requires start == |before| && start % 4 == 0
    ensures file == before + Block(header, name, data)
    ensures pos == |file| && pos % 4 == 0
  {
    file := before + header;
    file := file + name;
    file := file + [0];
    pos := start + |header| + |name| + 1;
    AlignShift(start, |header| + |name| + 1);
    file := file + Zeros(Align4(pos) - pos);
    pos := Align4(pos);
    assert file == before + Padded(header + (name + [0]));
    file := file + data;
    AlignShift(pos, |data|);
    pos := pos + |data|;
    file := file + Zeros(Align4(pos) - pos);
    pos := Align4(pos);
  }
}
