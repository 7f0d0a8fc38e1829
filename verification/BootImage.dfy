/**
 * The layout of plain AOSP and vendor boot images: the walk over the sections in
 * `parse_image` and the writing of them in `repack`, both in
 * native/src/boot/bootimg.cpp. Headers are kept as values.
 */
module BootImage {
  import opened Options
  import opened Bytes
  import opened LittleEndian

  // ---------------------------------------------------------------------
  // Alignment
  // ---------------------------------------------------------------------

  predicate Aligned(v: nat, a: nat)
    requires a > 0
  {
    v % a == 0
  }

  function AlignPadding(v: nat, a: nat): nat
    requires a > 0
  {
    if v % a == 0 then 0 else a - v % a
  }

  function AlignTo(v: nat, a: nat): nat
    requires a > 0
  {
    v + AlignPadding(v, a)
  }

  lemma {:induction false} Multiple(q: nat, a: nat, r: nat)
    requires a > 0 && r < a
    ensures (q * a + r) / a == q && (q * a + r) % a == r
  {
    var x := q * a + r;
    assert x == x / a * a + x % a;
    var d: int := x / a - q;
    assert d * a == r - x % a;
    assert d >= 1 ==> d * a >= a;
    assert d <= -1 ==> d * a <= (-1) * a;
  }

  /** The formula of the source, and what it comes to: the least multiple that is not below. */
  lemma {:induction false} AlignToIs(v: nat, a: nat)
    requires a > 0
    ensures AlignTo(v, a) == (v + a - 1) / a * a
    ensures v <= AlignTo(v, a) < v + a && Aligned(AlignTo(v, a), a)
  {
    var q, r := v / a, v % a;
    assert v == q * a + r;
    if r == 0 {
      Multiple(q, a, a - 1);
      Multiple(q, a, 0);
    } else {
      assert v + a - 1 == (q + 1) * a + (r - 1);
      assert AlignTo(v, a) == (q + 1) * a + 0;
      Multiple(q + 1, a, r - 1);
      Multiple(q + 1, a, 0);
    }
  }

  // ---------------------------------------------------------------------
  // The walk
  // ---------------------------------------------------------------------

  /** Where section `k` begins when the sections have these sizes. */
  function Offset(start: nat, page: nat, sizes: seq<nat>, k: nat): nat
    requires page > 0 && k <= |sizes|
  {
    if k == 0 then start else AlignTo(Offset(start, page, sizes, k - 1) + sizes[k - 1], page)
  }

  /** The image as it is mapped: zeros fill the last page of memory. */
  function Mapped(img: bytes, memPage: nat): bytes
    requires memPage > 0
  {
    var end := AlignTo(|img|, memPage);
    if end <= |img| then img else img + Zeros(end - |img|)
  }

  /** The sections from `k` on, or None where one of them reaches beyond the mapping. */
  function Walk(data: bytes, off: nat, page: nat, sizes: seq<nat>, k: nat): Option<seq<bytes>>
    requires page > 0 && k <= |sizes|
    decreases |sizes| - k
  {
    if k == |sizes| then Some([])
    else
      var next := AlignTo(off + sizes[k], page);
      if next > |data| then None
      else
        var rest := Walk(data, next, page, sizes, k + 1);
        if rest.None? then None else Some([data[off..off + sizes[k]]] + rest.value)
  }

  /** What the sections so far and the walk over the others make up. */
  ghost function Joined(got: seq<bytes>, rest: Option<seq<bytes>>): Option<seq<bytes>> {
    if rest.None? then None else Some(got + rest.value)
  }

  lemma {:induction false} WalkOne(data: bytes, off: nat, page: nat, sizes: seq<nat>, k: nat, got: seq<bytes>)
    requires page > 0 && k < |sizes|
    ensures var next := AlignTo(off + sizes[k], page);
            Joined(got, Walk(data, off, page, sizes, k)) ==
            if next > |data| then None
            else Joined(got + [data[off..off + sizes[k]]], Walk(data, next, page, sizes, k + 1))
  {
    var rest := Walk(data, AlignTo(off + sizes[k], page), page, sizes, k + 1);
    if AlignTo(off + sizes[k], page) <= |data| && rest.Some? {
      JoinedBlocks(got, data[off..off + sizes[k]], rest.value);
    }
  }

  /** Entry `j - k` is the section `j`, at its offset and as long as the header says. */
  ghost predicate Gives(data: bytes, start: nat, page: nat, sizes: seq<nat>, k: nat, got: seq<bytes>, j: nat)
    requires page > 0 && k <= j < |sizes| && |got| == |sizes| - k
  {
    |got[j - k]| == sizes[j] && At(data, Offset(start, page, sizes, j), got[j - k])
  }

  ghost predicate GivesAll(data: bytes, start: nat, page: nat, sizes: seq<nat>, k: nat, got: seq<bytes>)
    requires page > 0 && k <= |sizes|
  {
    |got| == |sizes| - k && forall j :: k <= j < |sizes| ==> Gives(data, start, page, sizes, k, got, j)
  }

  lemma {:induction false} GivesOne(data: bytes, start: nat, page: nat, sizes: seq<nat>, k: nat, first: bytes,
      rest: seq<bytes>)
    requires page > 0 && k < |sizes| && GivesAll(data, start, page, sizes, k + 1, rest)
    requires |first| == sizes[k] && At(data, Offset(start, page, sizes, k), first)
    ensures GivesAll(data, start, page, sizes, k, [first] + rest)
  {
    var got := [first] + rest;
    forall j | k <= j < |sizes| ensures Gives(data, start, page, sizes, k, got, j) {
      if j > k {
        assert Gives(data, start, page, sizes, k + 1, rest, j) && got[j - k] == rest[j - (k + 1)];
      }
    }
  }

  lemma {:induction false} WalkFrom(data: bytes, start: nat, page: nat, sizes: seq<nat>, k: nat, off: nat)
    requires page > 0 && k <= |sizes| && off == Offset(start, page, sizes, k) && (k == |sizes| ==> off <= |data|)
    ensures var r := Walk(data, off, page, sizes, k);
            && (r.Some? <==> Offset(start, page, sizes, |sizes|) <= |data|)
            && (r.Some? ==> GivesAll(data, start, page, sizes, k, r.value))
    decreases |sizes| - k
  {
    if k < |sizes| {
      var next := Offset(start, page, sizes, k + 1);
      AlignToIs(off + sizes[k], page);
      OffsetsGrow(start, page, sizes, k + 1, |sizes|);
      if next <= |data| {
        WalkFrom(data, start, page, sizes, k + 1, next);
        var rest := Walk(data, next, page, sizes, k + 1);
        if rest.Some? {
          GivesOne(data, start, page, sizes, k, data[off..off + sizes[k]], rest.value);
        }
      }
    }
  }

  /**
   * Any image is taken apart exactly when its last section ends, rounded up to a page, within the mapping;
   * section by section it then gives the bytes at the offsets, as many as the header says.
   */
  lemma {:induction false} WalkIff(data: bytes, start: nat, page: nat, sizes: seq<nat>)
    requires page > 0 && start <= |data|
    ensures var r := Walk(data, start, page, sizes, 0);
            && (r.Some? <==> Offset(start, page, sizes, |sizes|) <= |data|)
            && (r.Some? ==> |r.value| == |sizes| && forall j :: 0 <= j < |sizes| ==>
                  |r.value[j]| == sizes[j] && At(data, Offset(start, page, sizes, j), r.value[j]))
  {
    WalkFrom(data, start, page, sizes, 0, start);
    var r := Walk(data, start, page, sizes, 0);
    if r.Some? {
      forall j | 0 <= j < |sizes|
        ensures |r.value[j]| == sizes[j] && At(data, Offset(start, page, sizes, j), r.value[j])
      {
        assert Gives(data, start, page, sizes, 0, r.value, j);
      }
    }
  }

  method GetBlocks(data: bytes, start: nat, page: nat, sizes: seq<nat>) returns (blocks: Option<seq<bytes>>)
    requires page > 0
    ensures blocks == Walk(data, start, page, sizes, 0)
  {
    var off: nat, got: seq<bytes> := start, [];
    ghost var all := Walk(data, start, page, sizes, 0);
    assert all.Some? ==> [] + all.value == all.value;
    for k := 0 to |sizes|
      invariant Walk(data, start, page, sizes, 0) == Joined(got, Walk(data, off, page, sizes, k))
    {
      WalkOne(data, off, page, sizes, k, got);
      var begin := off;
      off := AlignTo(off + sizes[k], page);
      if off > |data| {
        return None;
      }
      got := got + [data[begin..begin + sizes[k]]];
    }
    assert got + [] == got;
    return Some(got);
  }

  lemma {:induction false} JoinedBlocks(a: seq<bytes>, b: bytes, c: seq<bytes>)
    ensures a + [b] + c == a + ([b] + c)
  {
  }

  // ---------------------------------------------------------------------
  // Writing
  // ---------------------------------------------------------------------

  function Pad(x: bytes, page: nat): bytes
    requires page > 0
  {
    x + Zeros(AlignPadding(|x|, page))
  }

  /** The file when `n` sections are written behind the header. */
  function Written(head: bytes, page: nat, blocks: seq<bytes>, n: nat): bytes
    requires page > 0 && n <= |blocks|
  {
    if n == 0 then head else Pad(Written(head, page, blocks, n - 1) + blocks[n - 1], page)
  }

  /** Section `k` lies in the data at its offset and has its size. */
  ghost predicate Lies(data: bytes, start: nat, page: nat, sizes: seq<nat>, blocks: seq<bytes>, k: nat)
    requires page > 0 && k < |blocks| == |sizes|
  {
    sizes[k] == |blocks[k]| && At(data, Offset(start, page, sizes, k), blocks[k])
  }

  ghost predicate Sized(sizes: seq<nat>, blocks: seq<bytes>, k: nat)
    requires k < |blocks| == |sizes|
  {
    sizes[k] == |blocks[k]|
  }

  lemma {:induction false} PadIs(x: bytes, b: bytes, page: nat)
    requires page > 0
    ensures var y := Pad(x + b, page);
            |y| == AlignTo(|x| + |b|, page) && At(y, |x|, b) && forall i :: 0 <= i < |x| ==> y[i] == x[i]
  {
  }

  /** Every section lies at its page-aligned offset. */
  lemma {:induction false} WrittenAt(head: bytes, page: nat, blocks: seq<bytes>, sizes: seq<nat>, n: nat)
    requires page > 0 && n <= |blocks| == |sizes| && Aligned(|head|, page)
    requires forall k {:trigger Sized(sizes, blocks, k)} :: 0 <= k < |blocks| ==> Sized(sizes, blocks, k)
    ensures |Written(head, page, blocks, n)| == Offset(|head|, page, sizes, n)
    ensures Aligned(Offset(|head|, page, sizes, n), page)
    ensures forall k {:trigger Lies(Written(head, page, blocks, n), |head|, page, sizes, blocks, k)} :: 0 <= k < n ==>
      Lies(Written(head, page, blocks, n), |head|, page, sizes, blocks, k)
  {
    if n > 0 {
      WrittenAt(head, page, blocks, sizes, n - 1);
      var before, after := Written(head, page, blocks, n - 1), Written(head, page, blocks, n);
      assert Sized(sizes, blocks, n - 1);
      PadIs(before, blocks[n - 1], page);
      AlignToIs(|before| + |blocks[n - 1]|, page);
      AlignToGrows(|before| + |blocks[n - 1]|, page);
      forall k | 0 <= k < n ensures Lies(after, |head|, page, sizes, blocks, k) {
        if k < n - 1 {
          assert Lies(before, |head|, page, sizes, blocks, k);
          StillAt(before, after, Offset(|head|, page, sizes, k), blocks[k]);
        }
      }
    }
  }

  lemma {:induction false} AlignToGrows(v: nat, a: nat)
    requires a > 0
    ensures v <= AlignTo(v, a)
  {
  }

  lemma {:induction false} StillAt(a: bytes, b: bytes, pos: nat, block: bytes)
    requires At(a, pos, block) && |a| <= |b| && forall i :: 0 <= i < |a| ==> a[i] == b[i]
    ensures At(b, pos, block)
  {
  }

  lemma {:induction false} OffsetsGrow(start: nat, page: nat, sizes: seq<nat>, k: nat, n: nat)
    requires page > 0 && k <= n <= |sizes|
    ensures Offset(start, page, sizes, k) <= Offset(start, page, sizes, n)
    decreases n - k
  {
    if k < n {
      OffsetsGrow(start, page, sizes, k, n - 1);
      AlignToGrows(Offset(start, page, sizes, n - 1) + sizes[n - 1], page);
    }
  }

  lemma {:induction false} WalkFinds(data: bytes, start: nat, page: nat, blocks: seq<bytes>, sizes: seq<nat>, k: nat)
    requires page > 0 && k <= |blocks| == |sizes| && Offset(start, page, sizes, |sizes|) <= |data|
    requires forall j {:trigger Lies(data, start, page, sizes, blocks, j)} :: 0 <= j < |blocks| ==>
      Lies(data, start, page, sizes, blocks, j)
    ensures Walk(data, Offset(start, page, sizes, k), page, sizes, k) == Some(blocks[k..])
    decreases |blocks| - k
  {
    if k < |blocks| {
      WalkFinds(data, start, page, blocks, sizes, k + 1);
      assert Lies(data, start, page, sizes, blocks, k);
      WalkOnto(data, start, page, blocks, sizes, k);
    } else {
      assert blocks[k..] == [];
    }
  }

  lemma {:induction false} WalkOnto(data: bytes, start: nat, page: nat, blocks: seq<bytes>, sizes: seq<nat>, k: nat)
    requires page > 0 && k < |blocks| == |sizes| && Offset(start, page, sizes, |sizes|) <= |data|
    requires Lies(data, start, page, sizes, blocks, k)
    requires Walk(data, Offset(start, page, sizes, k + 1), page, sizes, k + 1) == Some(blocks[k + 1..])
    ensures Walk(data, Offset(start, page, sizes, k), page, sizes, k) == Some(blocks[k..])
  {
    OffsetsGrow(start, page, sizes, k + 1, |sizes|);
    WalkStep(data, Offset(start, page, sizes, k), page, sizes, k, blocks[k], blocks[k + 1..]);
    assert blocks[k..] == [blocks[k]] + blocks[k + 1..];
  }

  lemma {:induction false} WalkStep(data: bytes, off: nat, page: nat, sizes: seq<nat>, k: nat, block: bytes,
      rest: seq<bytes>)
    requires page > 0 && k < |sizes| && sizes[k] == |block| && At(data, off, block) &&
      AlignTo(off + sizes[k], page) <= |data|
    requires Walk(data, AlignTo(off + sizes[k], page), page, sizes, k + 1) == Some(rest)
    ensures Walk(data, off, page, sizes, k) == Some([block] + rest)
  {
    AtSlice(data, off, block);
  }

  lemma {:induction false} WalkLengths(data: bytes, off: nat, page: nat, sizes: seq<nat>, k: nat)
    requires page > 0 && k <= |sizes|
    ensures var r := Walk(data, off, page, sizes, k);
            r.Some? ==> |r.value| == |sizes| - k && forall j :: 0 <= j < |r.value| ==> |r.value[j]| == sizes[k + j]
    decreases |sizes| - k
  {
    if k < |sizes| {
      var next := AlignTo(off + sizes[k], page);
      WalkLengths(data, next, page, sizes, k + 1);
      var r, rest := Walk(data, off, page, sizes, k), Walk(data, next, page, sizes, k + 1);
      if r.Some? {
        forall j | 0 <= j < |r.value| ensures |r.value[j]| == sizes[k + j] {
          if j > 0 {
            assert r.value[j] == rest.value[j - 1] && |rest.value[j - 1]| == sizes[k + 1 + (j - 1)];
          }
        }
      }
    }
  }

  /**
   * The walk recovers what was written, byte for byte and with every section at a page
   * boundary, exactly when the header gives the size of each section.
   */
  lemma {:induction false} RecoveredIff(head: bytes, page: nat, blocks: seq<bytes>, tail: bytes, memPage: nat,
      sizes: seq<nat>)
    requires page > 0 && memPage > 0 && Aligned(|head|, page) && |sizes| == |blocks|
    ensures Walk(Mapped(Written(head, page, blocks, |blocks|) + tail, memPage), |head|, page, sizes, 0) == Some(blocks)
            <==> forall k :: 0 <= k < |blocks| ==> sizes[k] == |blocks[k]|
  {
    var file := Written(head, page, blocks, |blocks|);
    var data := Mapped(file + tail, memPage);
    WalkLengths(data, |head|, page, sizes, 0);
    if forall k :: 0 <= k < |blocks| ==> sizes[k] == |blocks[k]| {
      WrittenAt(head, page, blocks, sizes, |blocks|);
      forall k | 0 <= k < |blocks| ensures Lies(data, |head|, page, sizes, blocks, k) {
        assert Lies(file, |head|, page, sizes, blocks, k);
        StillAt(file, data, Offset(|head|, page, sizes, k), blocks[k]);
      }
      WalkFinds(data, |head|, page, blocks, sizes, 0);
      assert blocks[0..] == blocks;
    }
  }

  // ---------------------------------------------------------------------
  // The vendor ramdisk table
  // ---------------------------------------------------------------------

  /** An entry of the version 4 table; `info` is its type, name and board id. */
  datatype TableEntry = TableEntry(size: nat, offset: nat, info: bytes)

  const ENTRY_SIZE: nat := 108

  function EntryBytes(e: TableEntry): bytes {
    LE32(e.size) + LE32(e.offset) + e.info
  }

  function TableBytes(table: seq<TableEntry>, n: nat): bytes
    requires n <= |table|
  {
    if n == 0 then [] else TableBytes(table, n - 1) + EntryBytes(table[n - 1])
  }

  lemma {:induction false} TableLength(table: seq<TableEntry>, n: nat)
    requires n <= |table| && forall k :: 0 <= k < |table| ==> |table[k].info| == ENTRY_SIZE - 8
    ensures |TableBytes(table, n)| == ENTRY_SIZE * n
  {
    if n > 0 {
      TableLength(table, n - 1);
    }
  }

  /** The first `n` ramdisks one after another. */
  function Joint(pieces: seq<bytes>, n: nat): bytes
    requires n <= |pieces|
  {
    if n == 0 then [] else Joint(pieces, n - 1) + pieces[n - 1]
  }

  function NewEntry(e: TableEntry, pieces: seq<bytes>, k: nat): TableEntry
    requires k < |pieces|
  {
    e.(offset := |Joint(pieces, k)|, size := |pieces[k]|)
  }

  function NewTable(table: seq<TableEntry>, pieces: seq<bytes>): seq<TableEntry>
    requires |table| == |pieces|
  {
    seq(|table|, k requires 0 <= k < |table| => NewEntry(table[k], pieces, k))
  }

  /** Writes the ramdisks of a version 4 vendor image and fills in their table. */
  method WriteRamdisks(table: seq<TableEntry>, pieces: seq<bytes>) returns (section: bytes, entries: seq<TableEntry>)
    requires |table| == |pieces|
    ensures section == Joint(pieces, |pieces|) && entries == NewTable(table, pieces)
  {
    section, entries := [], [];
    var offset := 0;
    for k := 0 to |table|
      invariant section == Joint(pieces, k) && offset == |section|
      invariant |entries| == k && forall j :: 0 <= j < k ==> entries[j] == NewEntry(table[j], pieces, j)
    {
      var e := table[k].(offset := offset);
      section := section + pieces[k];
      e := e.(size := |pieces[k]|);
      offset := offset + e.size;
      entries := entries + [e];
    }
  }

  /** The entries tile the section: no gap, no overlap, and each shows its own ramdisk. */
  lemma {:induction false} EntriesTile(table: seq<TableEntry>, pieces: seq<bytes>, k: nat, n: nat)
    requires |table| == |pieces| && k < n <= |pieces|
    ensures var e, section := NewTable(table, pieces)[k], Joint(pieces, n);
            && e.offset + e.size <= |section| && section[e.offset..e.offset + e.size] == pieces[k]
            && (k == 0 ==> e.offset == 0)
            && e.offset + e.size == if k + 1 < |pieces| then NewTable(table, pieces)[k + 1].offset
                                    else |Joint(pieces, |pieces|)|
    decreases n
  {
    var e := NewTable(table, pieces)[k];
    assert Joint(pieces, k + 1) == Joint(pieces, k) + pieces[k];
    if k < n - 1 {
      EntriesTile(table, pieces, k, n - 1);
      var shorter := Joint(pieces, n - 1);
      assert Joint(pieces, n)[e.offset..e.offset + e.size] == shorter[e.offset..e.offset + e.size];
    }
  }

  // ---------------------------------------------------------------------
  // Repacking
  // ---------------------------------------------------------------------

  datatype Layout = V0 | V1 | V2 | V3 | V4 | Vendor3 | Vendor4

  // The sections in the order of the image.
  const KERNEL := 0
  const RAMDISK := 1
  const SECOND := 2
  const EXTRA := 3
  const RECOVERY_DTBO := 4
  const DTB := 5
  const SIGNATURE := 6
  const TABLE := 7
  const BOOTCONFIG := 8

  /** Whether the header has a size for the section; one it has not reads as zero. */
  predicate Has(l: Layout, k: nat) {
    match k
    case 0 => !l.Vendor3? && !l.Vendor4?
    case 1 => true
    case 2 => l.V0? || l.V1? || l.V2?
    case 3 => l.V0?
    case 4 => l.V1? || l.V2?
    case 5 => l.V2? || l.Vendor3? || l.Vendor4?
    case 6 => l.V4?
    case 7 => l.Vendor4?
    case 8 => l.Vendor4?
    case _ => false
  }

  /** The sections of each header version, as the headers build on one another. */
  lemma {:induction false} LayoutSections(k: nat)
    ensures Has(V0, k) <==> k in {KERNEL, RAMDISK, SECOND, EXTRA}
    ensures Has(V1, k) <==> k in {KERNEL, RAMDISK, SECOND, RECOVERY_DTBO}
    ensures Has(V2, k) <==> Has(V1, k) || k == DTB
    ensures Has(V3, k) <==> k in {KERNEL, RAMDISK}
    ensures Has(V4, k) <==> Has(V3, k) || k == SIGNATURE
    ensures Has(Vendor3, k) <==> k in {RAMDISK, DTB}
    ensures Has(Vendor4, k) <==> Has(Vendor3, k) || k in {TABLE, BOOTCONFIG}
  {
  }

  /** The image that is repacked: its header with the nine sizes, and what is taken over from it. */
  datatype Source = Source(layout: Layout, page: nat, head: bytes, sizes: seq<nat>, kernel: bytes, signature: bytes,
                           table: seq<TableEntry>)

  /** The component files, as they go into the image. */
  datatype Files = Files(kernel: Option<bytes>, kernelDtb: Option<bytes>, ramdisk: Option<bytes>, second: Option<bytes>,
                         extra: Option<bytes>, recoveryDtbo: Option<bytes>, dtb: Option<bytes>,
                         bootconfig: Option<bytes>, ramdisks: seq<bytes>)

  /** What parsing the source image has established, and one file per table entry. */
  ghost predicate Readable(src: Source, files: Files) {
    && src.page > 0 && Aligned(|src.head|, src.page) && |src.sizes| == 9
    && (forall k :: 0 <= k < 9 && !Has(src.layout, k) ==> src.sizes[k] == 0)
    && src.sizes[KERNEL] == |src.kernel| && src.sizes[SIGNATURE] == |src.signature|
    && (src.sizes[TABLE] == 0 ==> src.table == []) && |files.ramdisks| == |src.table|
    && forall k :: 0 <= k < |src.table| ==> |src.table[k].info| == ENTRY_SIZE - 8
  }

  function OrEmpty(f: Option<bytes>): bytes {
    if f.Some? then f.value else []
  }

  function KernelBlock(src: Source, files: Files): bytes {
    (if files.kernel.Some? then files.kernel.value else src.kernel) + OrEmpty(files.kernelDtb)
  }

  function RamdiskBlock(src: Source, files: Files): bytes
    requires |src.sizes| == 9
  {
    if src.sizes[TABLE] != 0 then Joint(files.ramdisks, |files.ramdisks|) else OrEmpty(files.ramdisk)
  }

  function Blocks(src: Source, files: Files): seq<bytes>
    requires |src.sizes| == 9 && |files.ramdisks| == |src.table|
  {
    [KernelBlock(src, files), RamdiskBlock(src, files), OrEmpty(files.second), OrEmpty(files.extra),
     OrEmpty(files.recoveryDtbo), OrEmpty(files.dtb), src.signature,
     TableBytes(NewTable(src.table, files.ramdisks), |src.table|), OrEmpty(files.bootconfig)]
  }

  /** The size a header ends up with: none where it has no field for the section. */
  function Recorded(l: Layout, k: nat, n: nat): nat {
    if Has(l, k) then n else 0
  }

  function NewSizes(src: Source, files: Files): seq<nat>
    requires |src.sizes| == 9
  {
    var l := src.layout;
    [Recorded(l, KERNEL, |KernelBlock(src, files)|), Recorded(l, RAMDISK, |RamdiskBlock(src, files)|),
     Recorded(l, SECOND, |OrEmpty(files.second)|),
     if files.extra.Some? then Recorded(l, EXTRA, |files.extra.value|) else src.sizes[EXTRA],
     if files.recoveryDtbo.Some? then Recorded(l, RECOVERY_DTBO, |files.recoveryDtbo.value|)
     else src.sizes[RECOVERY_DTBO],
     Recorded(l, DTB, |OrEmpty(files.dtb)|), src.sizes[SIGNATURE], src.sizes[TABLE],
     Recorded(l, BOOTCONFIG, |OrEmpty(files.bootconfig)|)]
  }

  method WriteSection(out: bytes, data: bytes, page: nat) returns (next: bytes)
    requires page > 0
    ensures next == Pad(out + data, page)
  {
    next := out + data;
    next := next + Zeros(AlignPadding(|next|, page));
  }

  /** A section without a file is neither written nor aligned; the position is at a page boundary already. */
  method WriteOptional(out: bytes, data: Option<bytes>, page: nat, ghost head: bytes, ghost blocks: seq<bytes>,
      ghost k: nat)
      returns (next: bytes)
    requires page > 0 && Aligned(|head|, page) && k < |blocks| && blocks[k] == OrEmpty(data)
    requires out == Written(head, page, blocks, k)
    ensures next == Written(head, page, blocks, k + 1)
  {
    if data.Some? {
      next := WriteSection(out, data.value, page);
    } else {
      next := out;
      WrittenAligned(head, page, blocks, k);
      PadNothing(out, page);
    }
  }

  lemma {:induction false} WrittenAligned(head: bytes, page: nat, blocks: seq<bytes>, n: nat)
    requires page > 0 && n <= |blocks| && Aligned(|head|, page)
    ensures Aligned(|Written(head, page, blocks, n)|, page)
  {
    if n > 0 {
      var x := Written(head, page, blocks, n - 1) + blocks[n - 1];
      AlignToIs(|x|, page);
    }
  }

  lemma {:induction false} PadNothing(x: bytes, page: nat)
    requires page > 0 && Aligned(|x|, page)
    ensures Pad(x + [], page) == x
  {
    assert x + [] == x;
    assert Zeros(0) == [];
  }

  function Record(l: Layout, sizes: seq<nat>, k: nat, n: nat): seq<nat>
    requires k < |sizes|
  {
    if Has(l, k) then sizes[k := n] else sizes
  }

  /** The position taken down as the recovery dtbo offset is where that file lies. */
  lemma {:induction false} SectionLies(head: bytes, page: nat, blocks: seq<bytes>, k: nat)
    requires page > 0 && k < |blocks| && Aligned(|head|, page)
    ensures var at := |Written(head, page, blocks, k)|;
            Aligned(at, page) && At(Written(head, page, blocks, |blocks|), at, blocks[k])
  {
    var sizes := seq(|blocks|, i requires 0 <= i < |blocks| => |blocks[i]|);
    assert forall i {:trigger Sized(sizes, blocks, i)} :: 0 <= i < |blocks| ==> Sized(sizes, blocks, i);
    WrittenAt(head, page, blocks, sizes, k);
    WrittenAt(head, page, blocks, sizes, |blocks|);
    assert Lies(Written(head, page, blocks, |blocks|), |head|, page, sizes, blocks, k);
  }

  /** Writes the sections in order, and the sizes and the offset of those that have a field. */
  method Repack(src: Source, files: Files)
      returns (out: bytes, sizes: seq<nat>, table: seq<TableEntry>, dtboOffset: Option<nat>)
    requires Readable(src, files)
    ensures out == Written(src.head, src.page, Blocks(src, files), 9)
    ensures sizes == NewSizes(src, files) && table == NewTable(src.table, files.ramdisks)
    ensures dtboOffset.Some? <==> files.recoveryDtbo.Some? && Has(src.layout, RECOVERY_DTBO)
    ensures dtboOffset.Some? ==>
            Aligned(dtboOffset.value, src.page) && At(out, dtboOffset.value, files.recoveryDtbo.value)
  {
    var section;
    section, table := WriteRamdisks(src.table, files.ramdisks);
    var before := RepackUpper(src, files, section);
    SectionLies(src.head, src.page, Blocks(src, files), RECOVERY_DTBO);
    dtboOffset := if files.recoveryDtbo.Some? && Has(src.layout, RECOVERY_DTBO) then Some(|before|) else None;
    out := RepackLower(src, files, table, before);
    sizes := RepackSizes(src, files, section);
  }

  /** The sections before the recovery dtbo. */
  method RepackUpper(src: Source, files: Files, section: bytes) returns (out: bytes)
    requires Readable(src, files) && section == Joint(files.ramdisks, |files.ramdisks|)
    ensures out == Written(src.head, src.page, Blocks(src, files), RECOVERY_DTBO)
  {
    ghost var head, blocks := src.head, Blocks(src, files);
    var page := src.page;
    out := src.head;
    var kernel := if files.kernel.Some? then files.kernel.value else src.kernel;
    out := WriteOptional(out, Some(kernel + OrEmpty(files.kernelDtb)), page, head, blocks, KERNEL);
    var ramdisk := if src.sizes[TABLE] != 0 then Some(section) else files.ramdisk;
    out := WriteOptional(out, ramdisk, page, head, blocks, RAMDISK);
    out := WriteOptional(out, files.second, page, head, blocks, SECOND);
    out := WriteOptional(out, files.extra, page, head, blocks, EXTRA);
  }

  method RepackLower(src: Source, files: Files, table: seq<TableEntry>, before: bytes) returns (out: bytes)
    requires Readable(src, files) && table == NewTable(src.table, files.ramdisks)
    requires before == Written(src.head, src.page, Blocks(src, files), RECOVERY_DTBO)
    ensures out == Written(src.head, src.page, Blocks(src, files), 9)
  {
    ghost var head, blocks := src.head, Blocks(src, files);
    var page := src.page;
    out := WriteOptional(before, files.recoveryDtbo, page, head, blocks, RECOVERY_DTBO);
    out := WriteOptional(out, files.dtb, page, head, blocks, DTB);
    var signature := if src.sizes[SIGNATURE] != 0 then Some(src.signature) else None;
    out := WriteOptional(out, signature, page, head, blocks, SIGNATURE);
    var entries := if table != [] then Some(TableBytes(table, |table|)) else None;
    out := WriteOptional(out, entries, page, head, blocks, TABLE);
    out := WriteOptional(out, files.bootconfig, page, head, blocks, BOOTCONFIG);
  }

  /** The sizes when those of the first `k` sections are final. */
  ghost predicate RecordedTo(sizes: seq<nat>, before: seq<nat>, after: seq<nat>, k: nat)
    requires |before| == |after|
  {
    && |sizes| == |after|
    && forall j :: 0 <= j < |after| ==> sizes[j] == if j < k then after[j] else before[j]
  }

  method RecordFile(l: Layout, sizes: seq<nat>, k: nat, data: Option<bytes>, ghost before: seq<nat>,
      ghost after: seq<nat>)
      returns (next: seq<nat>)
    requires |before| == |after| && k < |after| && RecordedTo(sizes, before, after, k)
    requires after[k] == if data.Some? && Has(l, k) then |data.value| else before[k]
    ensures RecordedTo(next, before, after, k + 1)
  {
    next := if data.Some? then Record(l, sizes, k, |data.value|) else sizes;
  }

  /** What a section's size is recorded from; that of the signature and of the table is left as it was. */
  function Parts(src: Source, files: Files, section: bytes): seq<Option<bytes>>
    requires |src.sizes| == 9
  {
    var kernel := if files.kernel.Some? then files.kernel.value else src.kernel;
    var ramdisk := if src.sizes[TABLE] != 0 then Some(section) else files.ramdisk;
    [Some(kernel + OrEmpty(files.kernelDtb)), ramdisk, files.second,
     files.extra, files.recoveryDtbo, files.dtb, None, None, files.bootconfig]
  }

  /** Five sizes are cleared at first. */
  function Cleared(sizes: seq<nat>): seq<nat>
    requires |sizes| == 9
  {
    [0, 0, 0, sizes[EXTRA], sizes[RECOVERY_DTBO], 0, sizes[SIGNATURE], sizes[TABLE], 0]
  }

  lemma {:induction false} PartRecorded(src: Source, files: Files, section: bytes, k: nat)
    requires Readable(src, files) && section == Joint(files.ramdisks, |files.ramdisks|) && k < 9
    ensures var part := Parts(src, files, section)[k];
            NewSizes(src, files)[k] == if part.Some? && Has(src.layout, k) then |part.value| else Cleared(src.sizes)[k]
  {
  }

  method RepackSizes(src: Source, files: Files, section: bytes) returns (sizes: seq<nat>)
    requires Readable(src, files) && section == Joint(files.ramdisks, |files.ramdisks|)
    ensures sizes == NewSizes(src, files)
  {
    var parts := Parts(src, files, section);
    sizes := Cleared(src.sizes);
    ghost var before, after := sizes, NewSizes(src, files);
    for k := 0 to 9
      invariant RecordedTo(sizes, before, after, k)
    {
      PartRecorded(src, files, section, k);
      sizes := RecordFile(src.layout, sizes, k, parts[k], before, after);
    }
  }

  /** A file with data needs a field in the header. */
  predicate Fits(l: Layout, k: nat, data: bytes) {
    Has(l, k) || data == []
  }

  /**
   * Every component with data has a field in the header, the extra and recovery dtbo
   * files are not missing where the image had them, and the table size is that of its entries.
   */
  predicate Consistent(src: Source, files: Files)
    requires |src.sizes| == 9
  {
    var l := src.layout;
    && Fits(l, KERNEL, KernelBlock(src, files)) && Fits(l, SECOND, OrEmpty(files.second))
    && Fits(l, EXTRA, OrEmpty(files.extra)) && Fits(l, RECOVERY_DTBO, OrEmpty(files.recoveryDtbo))
    && Fits(l, DTB, OrEmpty(files.dtb)) && Fits(l, BOOTCONFIG, OrEmpty(files.bootconfig))
    && (files.extra.None? ==> src.sizes[EXTRA] == 0) && (files.recoveryDtbo.None? ==> src.sizes[RECOVERY_DTBO] == 0)
    && src.sizes[TABLE] == ENTRY_SIZE * |src.table|
  }

  lemma {:induction false} SizesAgreeIff(src: Source, files: Files)
    requires Readable(src, files)
    ensures (forall k :: 0 <= k < 9 ==> NewSizes(src, files)[k] == |Blocks(src, files)[k]|) <==> Consistent(src, files)
  {
    var sizes, blocks := NewSizes(src, files), Blocks(src, files);
    TableLength(NewTable(src.table, files.ramdisks), |src.table|);
    assert |blocks[TABLE]| == ENTRY_SIZE * |src.table|;
    assert sizes[KERNEL] == |blocks[KERNEL]| <==> Fits(src.layout, KERNEL, KernelBlock(src, files));
    assert sizes[RAMDISK] == |blocks[RAMDISK]| && sizes[SIGNATURE] == |blocks[SIGNATURE]|;
    assert sizes[SECOND] == |blocks[SECOND]| <==> Fits(src.layout, SECOND, OrEmpty(files.second));
    assert sizes[DTB] == |blocks[DTB]| <==> Fits(src.layout, DTB, OrEmpty(files.dtb));
    assert sizes[BOOTCONFIG] == |blocks[BOOTCONFIG]| <==> Fits(src.layout, BOOTCONFIG, OrEmpty(files.bootconfig));
    assert sizes[EXTRA] == |blocks[EXTRA]| <==>
      Fits(src.layout, EXTRA, OrEmpty(files.extra)) && (files.extra.None? ==> src.sizes[EXTRA] == 0);
    assert sizes[RECOVERY_DTBO] == |blocks[RECOVERY_DTBO]| <==>
      Fits(src.layout, RECOVERY_DTBO, OrEmpty(files.recoveryDtbo)) &&
        (files.recoveryDtbo.None? ==> src.sizes[RECOVERY_DTBO] == 0);
  }

  /** Parsing the repacked image gives back every section byte for byte exactly when the components are consistent. */
  lemma {:induction false} RepackRecoveredIff(src: Source, files: Files, tail: bytes, memPage: nat)
    requires Readable(src, files) && memPage > 0
    ensures
      var out := Written(src.head, src.page, Blocks(src, files), 9) + tail;
      Walk(Mapped(out, memPage), |src.head|, src.page, NewSizes(src, files), 0) == Some(Blocks(src, files))
      <==> Consistent(src, files)
  {
    RecoveredIff(src.head, src.page, Blocks(src, files), tail, memPage, NewSizes(src, files));
    SizesAgreeIff(src, files);
  }

  // ---------------------------------------------------------------------
  // Where the files lie
  // ---------------------------------------------------------------------

  /** The first page boundary at or behind a position. */
  function NextPage(n: nat, page: nat): nat
    requires page > 0
  {
    (n + page - 1) / page * page
  }

  /** The section is there byte for byte, and the next one begins at the first page boundary behind it. */
  ghost predicate Placed(out: bytes, page: nat, at: seq<nat>, k: nat, data: bytes)
    requires page > 0 && k + 1 < |at|
  {
    At(out, at[k], data) && at[k + 1] == NextPage(at[k] + |data|, page)
  }

  lemma {:induction false} BlocksPlaced(head: bytes, page: nat, blocks: seq<bytes>, at: seq<nat>, k: nat)
    requires page > 0 && k < |blocks| && Aligned(|head|, page) && |at| == |blocks| + 1
    requires forall i :: 0 <= i < |at| ==> at[i] == |Written(head, page, blocks, i)|
    ensures Placed(Written(head, page, blocks, |blocks|), page, at, k, blocks[k])
  {
    SectionLies(head, page, blocks, k);
    var x := Written(head, page, blocks, k);
    PadIs(x, blocks[k], page);
    AlignToIs(|x| + |blocks[k]|, page);
  }

  lemma {:induction false} PartsAt(out: bytes, at: nat, a: bytes, b: bytes)
    requires At(out, at, a + b)
    ensures At(out, at, a) && At(out, at + |a|, b)
  {
    assert a == (a + b)[..|a|] && b == (a + b)[|a|..];
  }

  lemma {:induction false} PieceAt(out: bytes, at: nat, pieces: seq<bytes>, k: nat, n: nat)
    requires k < n <= |pieces| && At(out, at, Joint(pieces, n))
    ensures At(out, at + |Joint(pieces, k)|, pieces[k])
    decreases n
  {
    PartsAt(out, at, Joint(pieces, n - 1), pieces[n - 1]);
    if k < n - 1 {
      PieceAt(out, at, pieces, k, n - 1);
    }
  }

  ghost predicate AllPlaced(out: bytes, page: nat, at: seq<nat>, blocks: seq<bytes>)
    requires page > 0 && |at| == |blocks| + 1
  {
    forall k :: 0 <= k < |blocks| ==> Placed(out, page, at, k, blocks[k])
  }

  function Starts(head: bytes, page: nat, blocks: seq<bytes>): (at: seq<nat>)
    requires page > 0
    ensures |at| == |blocks| + 1
    ensures forall i :: 0 <= i < |at| ==> at[i] == |Written(head, page, blocks, i)|
  {
    seq(|blocks| + 1, i requires 0 <= i <= |blocks| => |Written(head, page, blocks, i)|)
  }

  lemma {:induction false} StartsPlaced(head: bytes, page: nat, blocks: seq<bytes>, out: bytes, at: seq<nat>)
    requires page > 0 && Aligned(|head|, page) && at == Starts(head, page, blocks)
    requires out == Written(head, page, blocks, |blocks|)
    ensures AllPlaced(out, page, at, blocks) && at[0] == |head| && at[|blocks|] == |out|
  {
    forall k | 0 <= k < |blocks| ensures Placed(out, page, at, k, blocks[k]) {
      BlocksPlaced(head, page, blocks, at, k);
    }
  }

  /** The kernel file, or the old kernel, and the device tree file right behind it. */
  ghost predicate KernelPlaced(src: Source, files: Files, out: bytes, at: seq<nat>)
    requires src.page > 0 && |at| == 10
  {
    var kernel := if files.kernel.Some? then files.kernel.value else src.kernel;
    && At(out, at[0], kernel) && At(out, at[0] + |kernel|, OrEmpty(files.kernelDtb))
    && at[1] == NextPage(at[0] + |kernel| + |OrEmpty(files.kernelDtb)|, src.page)
  }

  lemma {:induction false} KernelLies(src: Source, files: Files, out: bytes, at: seq<nat>)
    requires src.page > 0 && |at| == 10 && Placed(out, src.page, at, KERNEL, KernelBlock(src, files))
    ensures KernelPlaced(src, files, out, at)
  {
    PartsAt(out, at[0], if files.kernel.Some? then files.kernel.value else src.kernel, OrEmpty(files.kernelDtb));
  }

  /** The ramdisk file, or those of the table where its entries say. */
  ghost predicate RamdiskPlaced(src: Source, files: Files, out: bytes, at: seq<nat>)
    requires Readable(src, files) && |at| == 10
  {
    if src.sizes[TABLE] == 0 then Placed(out, src.page, at, RAMDISK, OrEmpty(files.ramdisk))
    else
      forall k :: 0 <= k < |files.ramdisks| ==>
        At(out, at[1] + NewTable(src.table, files.ramdisks)[k].offset, files.ramdisks[k])
  }

  lemma {:induction false} RamdiskLies(src: Source, files: Files, out: bytes, at: seq<nat>)
    requires Readable(src, files) && |at| == 10 && Placed(out, src.page, at, RAMDISK, RamdiskBlock(src, files))
    ensures RamdiskPlaced(src, files, out, at)
  {
    if src.sizes[TABLE] != 0 {
      forall k | 0 <= k < |files.ramdisks|
        ensures At(out, at[1] + NewTable(src.table, files.ramdisks)[k].offset, files.ramdisks[k])
      {
        PieceAt(out, at[1], files.ramdisks, k, |files.ramdisks|);
      }
    }
  }

  ghost predicate OthersPlaced(src: Source, files: Files, out: bytes, at: seq<nat>)
    requires src.page > 0 && |at| == 10
  {
    && Placed(out, src.page, at, SECOND, OrEmpty(files.second))
    && Placed(out, src.page, at, EXTRA, OrEmpty(files.extra))
    && Placed(out, src.page, at, RECOVERY_DTBO, OrEmpty(files.recoveryDtbo))
    && Placed(out, src.page, at, DTB, OrEmpty(files.dtb))
    && Placed(out, src.page, at, SIGNATURE, src.signature)
    && Placed(out, src.page, at, BOOTCONFIG, OrEmpty(files.bootconfig))
  }

  lemma {:induction false} OthersLie(src: Source, files: Files, out: bytes, at: seq<nat>, blocks: seq<bytes>)
    requires Readable(src, files) && |at| == 10 && blocks == Blocks(src, files) && AllPlaced(out, src.page, at, blocks)
    ensures OthersPlaced(src, files, out, at)
  {
    assert Placed(out, src.page, at, SECOND, blocks[SECOND]);
    assert Placed(out, src.page, at, EXTRA, blocks[EXTRA]);
    assert Placed(out, src.page, at, RECOVERY_DTBO, blocks[RECOVERY_DTBO]);
    assert Placed(out, src.page, at, DTB, blocks[DTB]);
    assert Placed(out, src.page, at, SIGNATURE, blocks[SIGNATURE]);
    assert Placed(out, src.page, at, BOOTCONFIG, blocks[BOOTCONFIG]);
  }

  /**
   * Every component file lies in the repacked image byte for byte: the kernel behind the header, its device
   * tree right behind it, the others in order, each at the first page boundary behind the one before.
   */
  lemma {:induction false} FilesLie(src: Source, files: Files, out: bytes) returns (at: seq<nat>)
    requires Readable(src, files) && out == Written(src.head, src.page, Blocks(src, files), 9)
    ensures |at| == 10 && at[0] == |src.head| && at[9] == |out|
    ensures KernelPlaced(src, files, out, at) && RamdiskPlaced(src, files, out, at)
    ensures OthersPlaced(src, files, out, at)
  {
    var blocks := Blocks(src, files);
    at := Starts(src.head, src.page, blocks);
    StartsPlaced(src.head, src.page, blocks, out, at);
    assert Placed(out, src.page, at, KERNEL, blocks[KERNEL]) && Placed(out, src.page, at, RAMDISK, blocks[RAMDISK]);
    KernelLies(src, files, out, at);
    RamdiskLies(src, files, out, at);
    OthersLie(src, files, out, at, blocks);
  }

  /** An image with a recovery dtbo of one byte, repacked without any component file. */
  const WITH_DTBO: Source := Source(V1, 1, [], [0, 0, 0, 0, 1, 0, 0, 0, 0], [], [], [])
  const NO_FILES: Files := Files(None, None, None, None, None, None, None, None, [])

  /** The header keeps the old size, and the walk does not give the sections back. */
  lemma {:induction false} MissingDtboIsNotRecovered(tail: bytes, memPage: nat)
    requires memPage > 0
    ensures Readable(WITH_DTBO, NO_FILES)
    ensures
      var out := Written(WITH_DTBO.head, WITH_DTBO.page, Blocks(WITH_DTBO, NO_FILES), 9) + tail;
      Walk(Mapped(out, memPage), |WITH_DTBO.head|, WITH_DTBO.page, NewSizes(WITH_DTBO, NO_FILES), 0)
      != Some(Blocks(WITH_DTBO, NO_FILES))
  {
    var src, files := WITH_DTBO, NO_FILES;
    assert Aligned(0, 1);
    assert !Consistent(src, files);
    RepackRecoveredIff(src, files, tail, memPage);
  }
}
