/**
 * The LZ4 block archive of native/src/boot/compress.rs, in the legacy form and in
 * the LG form with its trailer, and the walk of native/src/boot/bootimg.cpp that
 * tells the two apart. The block compressor itself is a parameter.
 */
module Lz4 {
  import opened Options
  import opened Bytes
  import opened LittleEndian
  import opened Chunking

  const BLOCK_SIZE: nat := 0x80_0000
  const LZ4_MAGIC: nat := 0x184c_2102
  const MAGIC_WORD: bytes := [0x02, 0x21, 0x4c, 0x18]
  const BOUND: nat := 0x80_8090  // compress_bound(BLOCK_SIZE)

  /** The block compressor: what it makes of a block, and which data it unpacks to what. */
  datatype Codec = Codec(compress: imap<bytes, bytes>, decompress: imap<bytes, bytes>)

  function Compress(c: Codec, b: bytes): bytes {
    if b in c.compress then c.compress[b] else []
  }

  function Decompress(c: Codec, w: bytes): Option<bytes> {
    if w in c.decompress then Some(c.decompress[w]) else None
  }

  /** What the archive relies on: an inverse, and blocks that are not empty and within the bound. */
  ghost predicate Sound(c: Codec) {
    forall b: bytes {:trigger Compress(c, b)} :: 0 < |b| <= BLOCK_SIZE ==>
      0 < |Compress(c, b)| <= BOUND && Decompress(c, Compress(c, b)) == Some(b)
  }

  lemma {:induction false} MagicWord()
    ensures LE32(LZ4_MAGIC) == MAGIC_WORD && Value(MAGIC_WORD) == LZ4_MAGIC
  {
    LE32Value(LZ4_MAGIC);
    var n := LZ4_MAGIC / 256;
    assert Word(n / 256, 2) == [0x4c] + Word(0x18, 1) && Word(0x18, 1) == [0x18];
    assert Word(n, 3) == [0x21] + Word(n / 256, 2);
    assert Word(LZ4_MAGIC, 4) == [0x02] + Word(n, 3);
  }

  // ---------------------------------------------------------------------
  // The stream
  // ---------------------------------------------------------------------

  /** The bytes of the chunks from number `i` on. */
  function Flatten(chunks: seq<bytes>, i: nat): bytes
    requires i <= |chunks|
    decreases |chunks| - i
  {
    if i == |chunks| then [] else chunks[i] + Flatten(chunks, i + 1)
  }

  function EncodedBlock(c: Codec, chunk: bytes): bytes {
    LE32(|Compress(c, chunk)|) + Compress(c, chunk)
  }

  /** The encoded blocks from number `i` on. */
  function Blocks(c: Codec, chunks: seq<bytes>, i: nat): bytes
    requires i <= |chunks|
    decreases |chunks| - i
  {
    if i == |chunks| then [] else EncodedBlock(c, chunks[i]) + Blocks(c, chunks, i + 1)
  }

  /** The data cut into full blocks and, where it does not come out even, a shorter last one. */
  function Chunked(data: bytes): seq<bytes> {
    if data == [] then []
    else if |data| < BLOCK_SIZE then [data]
    else [data[..BLOCK_SIZE]] + Chunked(data[BLOCK_SIZE..])
  }

  function Magics(n: nat): bytes {
    if n == 0 then [] else Magics(n - 1) + MAGIC_WORD
  }

  function Trailer(lg: bool, total: nat): bytes {
    if lg then LE32(total) else []
  }

  /** An archive of `data` that carries `headers` magics in front. */
  function Stream(c: Codec, headers: nat, data: bytes, lg: bool): bytes {
    Magics(headers) + Blocks(c, Chunked(data), 0) + Trailer(lg, |data|)
  }

  lemma {:induction false} Assoc(a: bytes, b: bytes, e: bytes)
    ensures a + b + e == a + (b + e)
  {
  }

  lemma {:induction false} BlocksAppend(c: Codec, chunks: seq<bytes>, x: bytes, i: nat)
    requires i <= |chunks|
    ensures Blocks(c, chunks + [x], i) == Blocks(c, chunks, i) + EncodedBlock(c, x)
    ensures Flatten(chunks + [x], i) == Flatten(chunks, i) + x
    decreases |chunks| - i
  {
    if i < |chunks| {
      BlocksAppend(c, chunks, x, i + 1);
      Assoc(EncodedBlock(c, chunks[i]), Blocks(c, chunks, i + 1), EncodedBlock(c, x));
      Assoc(chunks[i], Flatten(chunks, i + 1), x);
    } else {
      assert Blocks(c, chunks + [x], i + 1) == [] && Flatten(chunks + [x], i + 1) == [];
    }
  }

  ghost predicate FullChunks(chunks: seq<bytes>) {
    forall k :: 0 <= k < |chunks| ==> |chunks[k]| == BLOCK_SIZE
  }

  function Last(tail: bytes): seq<bytes> {
    if tail == [] then [] else [tail]
  }

  /** There is only one way to cut the data. */
  lemma {:induction false} ChunkedIs(chunks: seq<bytes>, i: nat, tail: bytes)
    requires FullChunks(chunks) && |tail| < BLOCK_SIZE && i <= |chunks|
    ensures Chunked(Flatten(chunks, i) + tail) == chunks[i..] + Last(tail)
    decreases |chunks| - i
  {
    var data := Flatten(chunks, i) + tail;
    if i < |chunks| {
      ChunkedIs(chunks, i + 1, tail);
      assert data == chunks[i] + (Flatten(chunks, i + 1) + tail);
      assert data[..BLOCK_SIZE] == chunks[i] && data[BLOCK_SIZE..] == Flatten(chunks, i + 1) + tail;
      assert chunks[i..] == [chunks[i]] + chunks[i + 1..];
    } else {
      assert data == tail && chunks[i..] == [];
    }
  }

  lemma {:induction false} ChunkedFits(data: bytes)
    ensures forall k :: 0 <= k < |Chunked(data)| ==> 0 < |Chunked(data)[k]| <= BLOCK_SIZE
    ensures Flatten(Chunked(data), 0) == data
    ensures data != [] <==> Chunked(data) != []
    decreases |data|
  {
    if |data| >= BLOCK_SIZE {
      var rest := Chunked(data[BLOCK_SIZE..]);
      ChunkedFits(data[BLOCK_SIZE..]);
      FlattenTail([data[..BLOCK_SIZE]], rest, 0);
      assert data == data[..BLOCK_SIZE] + data[BLOCK_SIZE..];
      assert Flatten([data[..BLOCK_SIZE]] + rest, 0) == data[..BLOCK_SIZE] + Flatten([data[..BLOCK_SIZE]] + rest, 1);
    } else if data != [] {
      assert Flatten([data], 0) == [data][0] + Flatten([data], 1);
    }
  }

  lemma {:induction false} FlattenTail(a: seq<bytes>, b: seq<bytes>, i: nat)
    requires i <= |b|
    ensures Flatten(a + b, |a| + i) == Flatten(b, i)
    decreases |b| - i
  {
    if i < |b| {
      FlattenTail(a, b, i + 1);
    }
  }

  // ---------------------------------------------------------------------
  // The encoder
  // ---------------------------------------------------------------------

  /**
   * What the encoder has put out when the chunks are written and `rest` is still to
   * come. Past 2^32 bytes the running total wraps and nothing is said.
   */
  ghost predicate Shape(c: Codec, headers: nat, chunks: seq<bytes>, rest: bytes, written: bytes, out: bytes) {
    && FullChunks(chunks)
    && written == Flatten(chunks, 0) + rest
    && (|written| < U32 ==> out == Magics(headers) + Blocks(c, chunks, 0))
  }

  lemma {:induction false} ShapePush(c: Codec, headers: nat, chunks: seq<bytes>, chunk: bytes, rest: bytes,
      written: bytes, out: bytes)
    requires Shape(c, headers, chunks, chunk + rest, written, out) && |chunk| == BLOCK_SIZE
    ensures Shape(c, headers, chunks + [chunk], rest, written, out + EncodedBlock(c, chunk))
  {
    BlocksAppend(c, chunks, chunk, 0);
    Assoc(Flatten(chunks, 0), chunk, rest);
    Assoc(Magics(headers), Blocks(c, chunks, 0), EncodedBlock(c, chunk));
  }

  lemma {:induction false} ShapeHeader(c: Codec, headers: nat, chunks: seq<bytes>, rest: bytes, written: bytes,
      out: bytes, buf: bytes)
    requires Shape(c, headers, chunks, rest, written, out) && |written| % U32 == 0
    ensures Shape(c, headers + 1, chunks, rest + buf, written + buf, out + MAGIC_WORD)
  {
    ShapeMore(c, headers, chunks, rest, written, out, buf);
    FlattenLength(chunks, 0);
    if |written| < U32 {
      assert |chunks| == 0;
      assert out == Magics(headers);
    }
  }

  lemma {:induction false} FlattenLength(chunks: seq<bytes>, i: nat)
    requires FullChunks(chunks) && i <= |chunks|
    ensures |Flatten(chunks, i)| >= |chunks| - i
    decreases |chunks| - i
  {
    if i < |chunks| {
      FlattenLength(chunks, i + 1);
    }
  }

  lemma {:induction false} ShapeMore(c: Codec, headers: nat, chunks: seq<bytes>, rest: bytes, written: bytes,
      out: bytes, buf: bytes)
    requires Shape(c, headers, chunks, rest, written, out)
    ensures Shape(c, headers, chunks, rest + buf, written + buf, out)
  {
    Assoc(Flatten(chunks, 0), rest, buf);
  }

  lemma {:induction false} LastBlock(c: Codec, chunks: seq<bytes>, rest: bytes)
    requires FullChunks(chunks) && |rest| < BLOCK_SIZE
    ensures Blocks(c, Chunked(Flatten(chunks, 0) + rest), 0) ==
      if rest == [] then Blocks(c, chunks, 0) else Blocks(c, chunks, 0) + EncodedBlock(c, rest)
  {
    ChunkedIs(chunks, 0, rest);
    assert chunks[0..] == chunks;
    if rest == [] {
      assert chunks + Last(rest) == chunks;
    } else {
      BlocksAppend(c, chunks, rest, 0);
    }
  }

  lemma {:induction false} ShapeLast(c: Codec, headers: nat, chunks: seq<bytes>, rest: bytes, written: bytes,
      out: bytes)
    requires Shape(c, headers, chunks, rest, written, out) && |rest| < BLOCK_SIZE && |written| < U32
    ensures rest == [] ==> out == Magics(headers) + Blocks(c, Chunked(written), 0)
    ensures rest != [] ==> out + EncodedBlock(c, rest) == Magics(headers) + Blocks(c, Chunked(written), 0)
  {
    LastBlock(c, chunks, rest);
    Assoc(Magics(headers), Blocks(c, chunks, 0), EncodedBlock(c, rest));
  }

  class Encoder {
    const c: Codec
    const isLg: bool
    const chunker: Chunker
    var out: bytes
    var total: nat

    ghost var written: bytes
    ghost var headers: nat
    ghost var chunks: seq<bytes>

    ghost predicate Valid()
      reads this, chunker, chunker.chunk
    {
      && chunker.Valid() && chunker.chunkSize == BLOCK_SIZE
      && total == |written| % U32
      && Shape(c, headers, chunks, chunker.Pending(), written, out)
    }

    constructor (c: Codec, isLg: bool)
      ensures Valid() && this.c == c && this.isLg == isLg
      ensures written == [] && headers == 0
      ensures fresh(chunker) && fresh(chunker.chunk)
    {
      this.c, this.isLg := c, isLg;
      chunker := new Chunker(BLOCK_SIZE);
      out, total, written, headers, chunks := [], 0, [], 0, [];
    }

    method EncodeBlock(chunk: bytes)
      modifies this`out
      ensures out == old(out) + EncodedBlock(c, chunk)
    {
      var compressed := Compress(c, chunk);
      out := out + LE32(|compressed|);
      out := out + compressed;
    }

    method WriteMagic()
      modifies this`out
      ensures out == old(out) + MAGIC_WORD
    {
      MagicWord();
      out := out + LE32(LZ4_MAGIC);
    }

    /** Takes in `buf`; a magic is written first whenever the running total is zero. */
    method WriteAll(buf: bytes)
      requires Valid()
      modifies this, chunker`pos, chunker.chunk
      ensures Valid()
      ensures written == old(written) + buf
      ensures headers == old(headers) + (if old(|written|) % U32 == 0 then 1 else 0)
    {
      if total == 0 {
        ShapeHeader(c, headers, chunks, chunker.Pending(), written, out, buf);
        WriteMagic();
        headers := headers + 1;
      } else {
        ShapeMore(c, headers, chunks, chunker.Pending(), written, out, buf);
      }
      WrappedTotal(|written|, |buf|);
      total := (total + |buf|) % U32;
      written := written + buf;
      TakeIn(buf);
    }

    method TakeIn(buf: bytes)
      requires chunker.Valid() && chunker.chunkSize == BLOCK_SIZE
      requires Shape(c, headers, chunks, chunker.Pending() + buf, written, out)
      modifies this`out, this`chunks, chunker`pos, chunker.chunk
      ensures chunker.Valid() && Shape(c, headers, chunks, chunker.Pending(), written, out)
    {
      var rest := buf;
      while rest != []
        invariant chunker.Valid()
        invariant Shape(c, headers, chunks, chunker.Pending() + rest, written, out)
        decreases |rest|
      {
        var chunk;
        rest, chunk := chunker.AddData(rest);
        if chunk.Some? {
          ShapePush(c, headers, chunks, chunk.value, rest, written, out);
          EncodeBlock(chunk.value);
          chunks := chunks + [chunk.value];
          assert chunker.Pending() + rest == rest;
        } else {
          assert chunker.Pending() + rest == chunker.Pending();
        }
      }
      assert chunker.Pending() + rest == chunker.Pending();
    }

    /** Flushes the last block and, in the LG form, appends the total. */
    method Finish() returns (stream: bytes)
      requires Valid()
      modifies this`out, chunker`pos
      ensures |written| < U32 ==> stream == Stream(c, headers, written, isLg)
    {
      if |written| < U32 {
        assert total == |written|;
        ShapeLast(c, headers, chunks, chunker.Pending(), written, out);
      }
      var chunk := chunker.GetAvailable();
      if chunk != [] {
        EncodeBlock(chunk);
      }
      if isLg {
        out := out + LE32(total);
      }
      return out;
    }
  }

  lemma {:induction false} WrappedTotal(a: nat, b: nat)
    ensures (a % U32 + b) % U32 == (a + b) % U32
  {
    var q := a / U32;
    assert a == q * U32 + a % U32;
    ModShift(a % U32 + b, q);
  }

  lemma {:induction false} ModShift(x: nat, q: nat)
    ensures (q * U32 + x) % U32 == x % U32
  {
    if q > 0 {
      ModShift(x, q - 1);
      assert q * U32 + x == ((q - 1) * U32 + x) + U32;
    }
  }

  /** What the first `n` writes bring, and how many of them begin with nothing written. */
  function Written(writes: seq<bytes>, n: nat): bytes
    requires n <= |writes|
  {
    if n == 0 then [] else Written(writes, n - 1) + writes[n - 1]
  }

  function HeaderCount(writes: seq<bytes>, n: nat): nat
    requires n <= |writes|
  {
    if n == 0 then 0 else HeaderCount(writes, n - 1) + (if Written(writes, n - 1) == [] then 1 else 0)
  }

  lemma {:induction false} CountOne(writes: seq<bytes>, n: nat)
    requires n < |writes| && |Written(writes, n)| < U32
    ensures HeaderCount(writes, n + 1) == HeaderCount(writes, n) + (if |Written(writes, n)| % U32 == 0 then 1 else 0)
  {
  }

  method WriteEach(e: Encoder, writes: seq<bytes>)
    requires e.Valid() && e.written == [] && e.headers == 0
    modifies e, e.chunker`pos, e.chunker.chunk
    ensures e.Valid() && e.written == Written(writes, |writes|)
    ensures |e.written| < U32 ==> e.headers == HeaderCount(writes, |writes|)
  {
    for i := 0 to |writes|
      invariant e.Valid()
      invariant e.written == Written(writes, i)
      invariant |e.written| < U32 ==> e.headers == HeaderCount(writes, i)
    {
      if |Written(writes, i)| < U32 {
        CountOne(writes, i);
      }
      e.WriteAll(writes[i]);
    }
  }

  /** The stream depends on how the data was split into writes only through its headers. */
  method Encode(c: Codec, writes: seq<bytes>, isLg: bool) returns (stream: bytes)
    ensures |Written(writes, |writes|)| < U32 ==>
      stream == Stream(c, HeaderCount(writes, |writes|), Written(writes, |writes|), isLg)
  {
    var e := new Encoder(c, isLg);
    WriteEach(e, writes);
    stream := e.Finish();
  }

  /** Data is announced by a single magic exactly when the first write brings some. */
  lemma {:induction false} OneHeaderIff(writes: seq<bytes>, n: nat)
    requires n <= |writes| && Written(writes, n) != []
    ensures HeaderCount(writes, n) >= 1
    ensures HeaderCount(writes, n) == 1 <==> writes[0] != []
  {
    if Written(writes, n - 1) != [] {
      OneHeaderIff(writes, n - 1);
    } else {
      AllEmpty(writes, n - 1);
    }
  }

  lemma {:induction false} AllEmpty(writes: seq<bytes>, n: nat)
    requires n <= |writes| && Written(writes, n) == []
    ensures HeaderCount(writes, n) == n && (n > 0 ==> writes[0] == [])
  {
    if n > 0 {
      AllEmpty(writes, n - 1);
    }
  }

  // ---------------------------------------------------------------------
  // The decoder
  // ---------------------------------------------------------------------

  /** What fetching the next block comes to, and the input left behind it. */
  datatype Fetched = Block(data: bytes, rest: bytes) | End(rest: bytes) | Broken(rest: bytes)

  function FetchBody(c: Codec, input: bytes, size: nat): Fetched {
    if size > BOUND || size == 0 || input == [] then End(input)
    else if |input| < size then Broken([])
    else match Decompress(c, input[..size])
         case Some(b) => if |b| <= BLOCK_SIZE then Block(b, input[size..]) else Broken(input[size..])
         case None => Broken(input[size..])
  }

  function Fetch(c: Codec, input: bytes): Fetched {
    if |input| < 4 then End([])
    else if Value(input[..4]) != LZ4_MAGIC then FetchBody(c, input[4..], Value(input[..4]))
    else if |input| < 8 then Broken([])
    else FetchBody(c, input[8..], Value(input[4..8]))
  }

  datatype Result = Data(bytes: bytes) | Error

  datatype State = State(input: bytes, pending: bytes)

  function Min(a: nat, b: nat): nat {
    if a <= b then a else b
  }

  /** One read into a buffer of `n` bytes: the new state and what the caller gets. */
  function ReadStep(c: Codec, s: State, n: nat): (State, Result) {
    Deliver(Fetch(c, s.input), s, n)
  }

  function Deliver(f: Fetched, s: State, n: nat): (State, Result) {
    if s.pending == [] then
      match f
      case Block(b, rest) => (State(rest, b[Min(n, |b|)..]), Data(b[..Min(n, |b|)]))
      case End(rest) => (State(rest, []), Data([]))
      case Broken(rest) => (State(rest, []), Error)
    else
      var k := Min(n, |s.pending|);
      (State(s.input, s.pending[k..]), Data(s.pending[..k]))
  }

  class Decoder {
    const c: Codec
    var input: bytes
    const outBuf: array<byte>
    var outLen: nat
    var outPos: nat

    ghost predicate Valid()
      reads this, outBuf
    {
      outPos <= outLen <= outBuf.Length == BLOCK_SIZE
    }

    ghost function Now(): State
      requires Valid()
      reads this, outBuf
    {
      State(input, outBuf[outPos..outLen])
    }

    constructor (c: Codec, input: bytes)
      ensures Valid() && this.c == c && Now() == State(input, []) && fresh(outBuf)
    {
      this.c, this.input := c, input;
      outBuf := new byte[BLOCK_SIZE](_ => 0);
      outLen, outPos := 0, 0;
    }

    /** The underlying reader may hand over fewer bytes than asked for, but some while there are any. */
    method ReadBlock(size: nat, first: nat) returns (got: Option<bytes>, atEnd: bool)
      requires (size == 0 || input == [] <==> first == 0) && first <= size && first <= |input|
      modifies this`input
      ensures atEnd <==> size == 0 || old(input) == []
      ensures atEnd ==> input == old(input)
      ensures !atEnd && |old(input)| < size ==> got == None && input == []
      ensures !atEnd && size <= |old(input)| ==> got == Some(old(input)[..size]) && input == old(input)[size..]
    {
      var block := input[..first];
      input := input[first..];
      if first == 0 {
        return None, true;
      }
      if first != size {
        var remain := size - first;
        if |input| < remain {
          input := [];
          return None, false;
        }
        assert old(input) == block + input;
        block := block + input[..remain];
        input := input[remain..];
        assert old(input) == block + input;
      }
      return Some(block), false;
    }

    method Unpack(block: bytes) returns (ok: bool)
      requires Valid()
      modifies this`outLen, this`outPos, outBuf
      ensures Valid()
      ensures var b := Decompress(c, block);
              if b.Some? && |b.value| <= BLOCK_SIZE then ok && outBuf[outPos..outLen] == b.value
              else !ok && outPos == old(outPos) && outLen == old(outLen)
    {
      var b := Decompress(c, block);
      if b.None? || |b.value| > BLOCK_SIZE {
        return false;
      }
      for i := 0 to |b.value|
        invariant forall k :: 0 <= k < i ==> outBuf[k] == b.value[k]
      {
        outBuf[i] := b.value[i];
      }
      outLen, outPos := |b.value|, 0;
      return true;
    }

    /** Reads the word in front of a block; a magic is skipped. */
    method ReadSize() returns (size: Option<nat>, atEnd: bool)
      modifies this`input
      ensures Fetch(c, old(input)) ==
        if atEnd then End(input) else if size.None? then Broken(input) else FetchBody(c, input, size.value)
    {
      if |input| < 4 {
        input := [];
        return None, true;
      }
      var word := Value(input[..4]);
      if word != LZ4_MAGIC {
        input := input[4..];
      } else {
        if |input| < 8 {
          input := [];
          return None, false;
        }
        word := Value(input[4..8]);
        input := input[8..];
      }
      return Some(word), false;
    }

    /** Fetches the next block into the empty buffer. */
    method Refill(first: (nat, nat) -> nat) returns (ok: bool, atEnd: bool)
      requires Valid() && outPos == outLen
      requires forall size: nat, left: nat ::
        first(size, left) <= Min(size, left) && (first(size, left) == 0 <==> Min(size, left) == 0)
      modifies this`input, this`outLen, this`outPos, outBuf
      ensures Valid()
      ensures Fetch(c, old(input)) ==
        if atEnd then End(input) else if !ok then Broken(input) else Block(outBuf[outPos..outLen], input)
      ensures atEnd || !ok ==> outPos == outLen
    {
      var size;
      size, atEnd := ReadSize();
      if atEnd || size.None? {
        return false, atEnd;
      }
      if size.value > BOUND {
        return false, true;
      }
      var block;
      block, atEnd := ReadBlock(size.value, first(size.value, |input|));
      if atEnd || block.None? {
        return false, atEnd;
      }
      ok := Unpack(block.value);
    }

    /** Hands out up to `n` pending bytes. */
    method HandOut(n: nat) returns (r: Result)
      requires Valid()
      modifies this`outPos
      ensures Valid()
      ensures var pending, k := old(outBuf[outPos..outLen]), Min(n, old(outLen - outPos));
              r == Data(pending[..k]) && outBuf[outPos..outLen] == pending[k..]
    {
      var len := Min(n, outLen - outPos);
      r := Data(outBuf[outPos..outPos + len]);
      assert outBuf[outPos..outLen][..len] == outBuf[outPos..outPos + len];
      assert outBuf[outPos..outLen][len..] == outBuf[outPos + len..outLen];
      outPos := outPos + len;
    }

    /** Reads up to `n` bytes; `first` tells how many bytes the underlying reader hands over at once. */
    method Read(n: nat, first: (nat, nat) -> nat) returns (r: Result)
      requires Valid()
      requires forall size: nat, left: nat ::
        first(size, left) <= Min(size, left) && (first(size, left) == 0 <==> Min(size, left) == 0)
      modifies this`input, this`outLen, this`outPos, outBuf
      ensures Valid()
      ensures (Now(), r) == ReadStep(c, old(Now()), n)
    {
      ghost var f, was := Fetch(c, input), Now();
      if outPos == outLen {
        var ok, atEnd := Refill(first);
        assert atEnd || !ok ==> outBuf[outPos..outLen] == [];
        if atEnd {
          DeliverNone(f, was, n, input, Data([]));
          return Data([]);
        }
        if !ok {
          DeliverNone(f, was, n, input, Error);
          return Error;
        }
      }
      ghost var pending := outBuf[outPos..outLen];
      DeliverPending(f, was, n, pending, input);
      r := HandOut(n);
    }
  }

  lemma {:induction false} DeliverNone(f: Fetched, s: State, n: nat, rest: bytes, r: Result)
    requires s.pending == [] && ((f == End(rest) && r == Data([])) || (f == Broken(rest) && r == Error))
    ensures Deliver(f, s, n) == (State(rest, []), r)
  {
  }

  lemma {:induction false} DeliverPending(f: Fetched, s: State, n: nat, pending: bytes, input: bytes)
    requires if s.pending == [] then f == Block(pending, input) else pending == s.pending && input == s.input
    ensures var k := Min(n, |pending|); Deliver(f, s, n) == (State(input, pending[k..]), Data(pending[..k]))
  {
  }

  /** Reading until a read returns nothing, with the given buffer sizes. */
  datatype Drained = Done(data: bytes) | Failed | Unfinished(data: bytes)

  function Before(head: bytes, d: Drained): Drained {
    match d
    case Done(t) => Done(head + t)
    case Failed => Failed
    case Unfinished(t) => Unfinished(head + t)
  }

  function ReadAll(c: Codec, s: State, sizes: seq<nat>, k: nat): Drained
    requires k <= |sizes|
    decreases |sizes| - k
  {
    if k == |sizes| then Unfinished([])
    else
      var (next, r) := ReadStep(c, s, sizes[k]);
      match r
      case Error => Failed
      case Data(b) => if b == [] then Done([]) else Before(b, ReadAll(c, next, sizes, k + 1))
  }

  // ---------------------------------------------------------------------
  // The round trip
  // ---------------------------------------------------------------------

  lemma {:induction false} FetchFirst(c: Codec, chunk: bytes, rest: bytes)
    requires Sound(c) && 0 < |chunk| <= BLOCK_SIZE
    ensures Fetch(c, EncodedBlock(c, chunk) + rest) == Block(chunk, rest)
    ensures Value((EncodedBlock(c, chunk) + rest)[..4]) != LZ4_MAGIC
  {
    var packed := Compress(c, chunk);
    var input := EncodedBlock(c, chunk) + rest;
    LE32Value(|packed|);
    assert input[..4] == LE32(|packed|);
    assert input[4..] == packed + rest;
    assert input[4..][..|packed|] == packed && input[4..][|packed|..] == rest;
  }

  /** A magic in front of a block is skipped. */
  lemma {:induction false} FetchBehindMagic(c: Codec, input: bytes)
    requires |input| >= 4 && Value(input[..4]) != LZ4_MAGIC
    ensures Fetch(c, MAGIC_WORD + input) == Fetch(c, input)
  {
    var all := MAGIC_WORD + input;
    MagicWord();
    assert all[..4] == MAGIC_WORD;
    assert all[4..8] == input[..4];
    assert all[8..] == input[4..];
  }

  /** A second magic is taken for a block size and ends the stream. */
  lemma {:induction false} FetchTwoMagics(c: Codec, input: bytes)
    ensures Fetch(c, MAGIC_WORD + MAGIC_WORD + input) == End(input)
  {
    var all := MAGIC_WORD + MAGIC_WORD + input;
    MagicWord();
    assert all[..4] == MAGIC_WORD;
    assert all[4..8] == MAGIC_WORD;
    assert all[8..] == input;
  }

  /** Behind the last block the trailer is the end, unless it reads as a magic. */
  lemma {:induction false} FetchTrailer(c: Codec, lg: bool, total: nat)
    requires total < U32
    ensures lg && total == LZ4_MAGIC ==> Fetch(c, Trailer(lg, total)) == Broken([])
    ensures !(lg && total == LZ4_MAGIC) ==> Fetch(c, Trailer(lg, total)) == End([])
  {
    if lg {
      LE32Value(total);
      assert LE32(total)[..4] == LE32(total);
    }
  }

  /** What is still to be read: the pending bytes, blocks from `i` on, then the trailer. */
  ghost predicate Ahead(c: Codec, s: State, chunks: seq<bytes>, i: nat, tail: bytes) {
    && i <= |chunks|
    && s.input == Blocks(c, chunks, i) + tail
    && forall k :: 0 <= k < |chunks| ==> 0 < |chunks[k]| <= BLOCK_SIZE
  }

  ghost function Left(s: State, chunks: seq<bytes>, i: nat): bytes
    requires i <= |chunks|
  {
    s.pending + Flatten(chunks, i)
  }

  lemma {:induction false} DeliverSome(f: Fetched, s: State, n: nat, pending: bytes, input: bytes)
      returns (next: State, b: bytes)
    requires n > 0 && pending != []
    requires if s.pending == [] then f == Block(pending, input) else pending == s.pending && input == s.input
    ensures Deliver(f, s, n) == (next, Data(b)) && b != []
    ensures b + next.pending == pending && next.input == input
  {
    var k := Min(n, |pending|);
    b := pending[..k];
    next := State(input, pending[k..]);
  }

  lemma {:induction false} FetchNext(c: Codec, s: State, chunks: seq<bytes>, i: nat, tail: bytes)
    requires Sound(c) && Ahead(c, s, chunks, i, tail) && i < |chunks|
    ensures Fetch(c, s.input) == Block(chunks[i], Blocks(c, chunks, i + 1) + tail)
  {
    var rest := Blocks(c, chunks, i + 1) + tail;
    Assoc(EncodedBlock(c, chunks[i]), Blocks(c, chunks, i + 1), tail);
    FetchFirst(c, chunks[i], rest);
  }

  lemma {:induction false} FlattenStep(chunks: seq<bytes>, i: nat)
    requires i <= |chunks|
    requires forall k :: 0 <= k < |chunks| ==> 0 < |chunks[k]| <= BLOCK_SIZE
    ensures i < |chunks| ==> Flatten(chunks, i) == chunks[i] + Flatten(chunks, i + 1)
    ensures i == |chunks| <==> Flatten(chunks, i) == []
  {
  }

  /** A read with data left gives some of it, in order, and keeps the rest. */
  lemma {:induction false} ReadSome(c: Codec, f: Fetched, s: State, n: nat, chunks: seq<bytes>, i: nat, tail: bytes)
    returns (next: State, b: bytes, j: nat)
    requires Ahead(c, s, chunks, i, tail) && n > 0 && Left(s, chunks, i) != []
    requires i < |chunks| ==> f == Block(chunks[i], Blocks(c, chunks, i + 1) + tail)
    ensures Deliver(f, s, n) == (next, Data(b)) && b != []
    ensures Ahead(c, next, chunks, j, tail)
    ensures b + Left(next, chunks, j) == Left(s, chunks, i)
  {
    FlattenStep(chunks, i);
    if s.pending == [] {
      j := i + 1;
      next, b := DeliverSome(f, s, n, chunks[i], Blocks(c, chunks, j) + tail);
    } else {
      j := i;
      next, b := DeliverSome(f, s, n, s.pending, s.input);
    }
    Assoc(b, next.pending, Flatten(chunks, j));
  }

  /** Enough reads of any sizes hand over all blocks, and then what lies behind them decides. */
  lemma {:induction false} ReadUpTo(c: Codec, s: State, sizes: seq<nat>, k: nat, chunks: seq<bytes>, i: nat,
      tail: bytes)
    requires Sound(c) && Ahead(c, s, chunks, i, tail) && !Fetch(c, tail).Block? && k <= |sizes|
    requires forall j :: 0 <= j < |sizes| ==> sizes[j] > 0
    requires |sizes| - k > |Left(s, chunks, i)|
    ensures ReadAll(c, s, sizes, k) == if Fetch(c, tail).Broken? then Failed else Done(Left(s, chunks, i))
    decreases |sizes| - k
  {
    if Left(s, chunks, i) == [] {
      FlattenStep(chunks, i);
      assert s.input == tail;
    } else {
      if i < |chunks| {
        FetchNext(c, s, chunks, i, tail);
      }
      var next, b, j := ReadSome(c, Fetch(c, s.input), s, sizes[k], chunks, i, tail);
      ReadUpTo(c, next, sizes, k + 1, chunks, j, tail);
    }
  }

  /** Enough reads of any sizes hand over exactly the data that is left. */
  lemma {:induction false} ReadRest(c: Codec, s: State, sizes: seq<nat>, k: nat, chunks: seq<bytes>, i: nat,
      lg: bool, total: nat)
    requires Sound(c) && total < U32 && Ahead(c, s, chunks, i, Trailer(lg, total)) && k <= |sizes|
    requires forall j :: 0 <= j < |sizes| ==> sizes[j] > 0
    requires |sizes| - k > |Left(s, chunks, i)|
    ensures ReadAll(c, s, sizes, k) ==
      if lg && total == LZ4_MAGIC then Failed else Done(Left(s, chunks, i))
  {
    FetchTrailer(c, lg, total);
    ReadUpTo(c, s, sizes, k, chunks, i, Trailer(lg, total));
  }

  lemma {:induction false} OneMagic(c: Codec, data: bytes, lg: bool)
    ensures Stream(c, 1, data, lg) == MAGIC_WORD + (Blocks(c, Chunked(data), 0) + Trailer(lg, |data|))
  {
    assert Magics(1) == MAGIC_WORD by { assert Magics(0) == []; }
  }

  lemma {:induction false} FetchBehindOne(c: Codec, chunks: seq<bytes>, tail: bytes)
    requires Sound(c) && chunks != []
    requires forall k :: 0 <= k < |chunks| ==> 0 < |chunks[k]| <= BLOCK_SIZE
    ensures Fetch(c, MAGIC_WORD + (Blocks(c, chunks, 0) + tail)) == Fetch(c, Blocks(c, chunks, 0) + tail)
  {
    var rest := Blocks(c, chunks, 1) + tail;
    Assoc(EncodedBlock(c, chunks[0]), Blocks(c, chunks, 1), tail);
    FetchFirst(c, chunks[0], rest);
    FetchBehindMagic(c, Blocks(c, chunks, 0) + tail);
  }

  /** The archive with one magic. */
  lemma {:induction false} OneMagicReads(c: Codec, data: bytes, lg: bool, sizes: seq<nat>)
    requires Sound(c) && 0 < |data| < U32
    requires forall j :: 0 <= j < |sizes| ==> sizes[j] > 0
    requires |sizes| > |data|
    ensures ReadAll(c, State(Stream(c, 1, data, lg), []), sizes, 0) ==
      if lg && |data| == LZ4_MAGIC then Failed else Done(data)
  {
    var chunks, tail, stream := Chunked(data), Trailer(lg, |data|), Stream(c, 1, data, lg);
    var plain := Blocks(c, chunks, 0) + tail;
    ChunkedFits(data);
    OneMagic(c, data, lg);
    FetchBehindOne(c, chunks, tail);
    SameFetch(c, stream, plain, sizes);
    assert Left(State(plain, []), chunks, 0) == data;
    ReadRest(c, State(plain, []), sizes, 0, chunks, 0, lg, |data|);
  }

  lemma {:induction false} SameFetch(c: Codec, a: bytes, b: bytes, sizes: seq<nat>)
    requires Fetch(c, a) == Fetch(c, b)
    ensures ReadAll(c, State(a, []), sizes, 0) == ReadAll(c, State(b, []), sizes, 0)
  {
    if |sizes| > 0 {
      assert ReadStep(c, State(a, []), sizes[0]) == ReadStep(c, State(b, []), sizes[0]);
    }
  }

  lemma {:induction false} ManyMagicsEnd(c: Codec, headers: nat, data: bytes, lg: bool, sizes: seq<nat>)
    requires headers >= 2 && |sizes| > 0
    ensures ReadAll(c, State(Stream(c, headers, data, lg), []), sizes, 0) == Done([])
  {
    var rest := TwoInFront(headers);
    var behind := rest + Blocks(c, Chunked(data), 0) + Trailer(lg, |data|);
    assert Stream(c, headers, data, lg) == MAGIC_WORD + MAGIC_WORD + behind;
    FetchTwoMagics(c, behind);
  }

  lemma {:induction false} TwoInFront(headers: nat) returns (rest: bytes)
    requires headers >= 2
    ensures Magics(headers) == MAGIC_WORD + MAGIC_WORD + rest
  {
    if headers == 2 {
      rest := [];
      assert Magics(0) == [] && Magics(1) == MAGIC_WORD && Magics(2) == Magics(1) + MAGIC_WORD;
    } else {
      var shorter := TwoInFront(headers - 1);
      rest := shorter + MAGIC_WORD;
    }
  }

  /** Without data the magics alone decide: a lone one is an error, and everything else is an empty stream. */
  lemma {:induction false} NoDataReads(c: Codec, headers: nat, lg: bool, sizes: seq<nat>)
    requires sizes != []
    ensures ReadAll(c, State(Stream(c, headers, [], lg), []), sizes, 0) ==
            if headers == 1 && !lg then Failed else Done([])
  {
    assert Chunked([]) == [] && Blocks(c, [], 0) == [];
    var stream := Stream(c, headers, [], lg);
    if headers == 0 {
      assert stream == Trailer(lg, 0);
      FetchTrailer(c, lg, 0);
    } else if headers == 1 {
      OneMagic(c, [], lg);
      assert stream == MAGIC_WORD + Trailer(lg, 0);
      LoneMagic(c, lg);
    } else {
      ManyMagicsEnd(c, headers, [], lg, sizes);
    }
  }

  lemma {:induction false} LoneMagic(c: Codec, lg: bool)
    ensures Fetch(c, MAGIC_WORD + Trailer(lg, 0)) == if lg then End([]) else Broken([])
  {
    var all := MAGIC_WORD + Trailer(lg, 0);
    MagicWord();
    assert all[..4] == MAGIC_WORD;
    if lg {
      LE32Value(0);
      assert all[4..8] == LE32(0) && all[8..] == [];
    }
  }

  /**
   * Whatever the writes and the buffer sizes, the archive reads back as the data that
   * was written exactly when the first write was not empty and the LG trailer does not
   * happen to spell the magic; without data, except after a single write in the legacy form.
   */
  lemma {:induction false} RoundTripIff(c: Codec, writes: seq<bytes>, lg: bool, sizes: seq<nat>)
    requires Sound(c)
    requires |Written(writes, |writes|)| < U32
    requires forall j :: 0 <= j < |sizes| ==> sizes[j] > 0
    requires |sizes| > |Written(writes, |writes|)|
    ensures
      var data := Written(writes, |writes|);
      ReadAll(c, State(Stream(c, HeaderCount(writes, |writes|), data, lg), []), sizes, 0) == Done(data)
      <==> if data == [] then lg || |writes| != 1 else writes[0] != [] && !(lg && |data| == LZ4_MAGIC)
  {
    var data := Written(writes, |writes|);
    if data == [] {
      AllEmpty(writes, |writes|);
      NoDataReads(c, |writes|, lg, sizes);
    } else {
      OneHeaderIff(writes, |writes|);
      if writes[0] != [] {
        OneMagicReads(c, data, lg, sizes);
      } else {
        ManyMagicsEnd(c, HeaderCount(writes, |writes|), data, lg, sizes);
      }
    }
  }

  // ---------------------------------------------------------------------
  // A stream that is cut off
  // ---------------------------------------------------------------------

  /** Before or behind its size a cut block is the end, inside its data an error. */
  lemma {:induction false} FetchCut(c: Codec, chunk: bytes, j: nat, cut: bytes)
    requires Sound(c) && 0 < |chunk| <= BLOCK_SIZE && j < |EncodedBlock(c, chunk)| && cut == EncodedBlock(c, chunk)[..j]
    ensures if j <= 4 then Fetch(c, cut).End? else Fetch(c, cut).Broken?
    ensures j >= 4 ==> Value(cut[..4]) != LZ4_MAGIC
  {
    var packed := Compress(c, chunk);
    LE32Value(|packed|);
    if j >= 4 {
      assert cut[..4] == LE32(|packed|);
      assert |cut[4..]| < |packed|;
    }
  }

  lemma {:induction false} FetchCutBehindMagic(c: Codec, chunk: bytes, j: nat, cut: bytes)
    requires Sound(c) && 0 < |chunk| <= BLOCK_SIZE && j < |EncodedBlock(c, chunk)| && cut == EncodedBlock(c, chunk)[..j]
    ensures if j == 4 then Fetch(c, MAGIC_WORD + cut).End? else Fetch(c, MAGIC_WORD + cut).Broken?
  {
    FetchCut(c, chunk, j, cut);
    if j >= 4 {
      FetchBehindMagic(c, cut);
    } else {
      MagicWord();
      assert (MAGIC_WORD + cut)[..4] == MAGIC_WORD;
    }
  }

  /** The stream up to byte `j` of block `k`. */
  function CutStream(c: Codec, chunks: seq<bytes>, k: nat, j: nat): bytes
    requires k < |chunks| && j < |EncodedBlock(c, chunks[k])|
  {
    MAGIC_WORD + (Blocks(c, chunks[..k], 0) + EncodedBlock(c, chunks[k])[..j])
  }

  lemma {:induction false} CutBlocks(c: Codec, chunks: seq<bytes>, k: nat, i: nat)
    requires i <= k < |chunks|
    ensures Blocks(c, chunks, i) == Blocks(c, chunks[..k], i) + (EncodedBlock(c, chunks[k]) + Blocks(c, chunks, k + 1))
    decreases k - i
  {
    if i < k {
      CutBlocks(c, chunks, k, i + 1);
      Assoc(EncodedBlock(c, chunks[i]), Blocks(c, chunks[..k], i + 1),
            EncodedBlock(c, chunks[k]) + Blocks(c, chunks, k + 1));
    }
  }

  /** It is a beginning of the stream, with or without a trailer. */
  lemma {:induction false} CutIsPrefix(c: Codec, data: bytes, lg: bool, k: nat, j: nat)
    requires k < |Chunked(data)| && j < |EncodedBlock(c, Chunked(data)[k])|
    ensures CutStream(c, Chunked(data), k, j) <= Stream(c, 1, data, lg)
  {
    var chunks := Chunked(data);
    CutBlocks(c, chunks, k, 0);
    OneMagic(c, data, lg);
    CutHere(MAGIC_WORD, Blocks(c, chunks[..k], 0), EncodedBlock(c, chunks[k]), j, Blocks(c, chunks, k + 1),
            Trailer(lg, |data|));
  }

  lemma {:induction false} CutHere(m: bytes, w: bytes, e: bytes, j: nat, more: bytes, tail: bytes)
    requires j <= |e|
    ensures m + (w + e[..j]) <= m + (w + (e + more) + tail)
  {
    assert m + (w + (e + more) + tail) == m + (w + e[..j]) + (e[j..] + more + tail);
  }

  /**
   * A cut stream is read without an error exactly when the cut is right behind a block size, or before or
   * inside that of a later block than the first; then all whole blocks are read, and nothing tells of the cut.
   */
  lemma {:induction false} CutReads(c: Codec, data: bytes, k: nat, j: nat, sizes: seq<nat>)
    requires Sound(c) && k < |Chunked(data)| && j < |EncodedBlock(c, Chunked(data)[k])|
    requires (forall i :: 0 <= i < |sizes| ==> sizes[i] > 0) && |sizes| > |Flatten(Chunked(data)[..k], 0)|
    ensures ReadAll(c, State(CutStream(c, Chunked(data), k, j), []), sizes, 0) ==
            if j == 4 || (j < 4 && k > 0) then Done(Flatten(Chunked(data)[..k], 0)) else Failed
  {
    var chunks := Chunked(data);
    var whole, cut := chunks[..k], EncodedBlock(c, chunks[k])[..j];
    ChunkedFits(data);
    FetchCut(c, chunks[k], j, cut);
    if k == 0 {
      FetchCutBehindMagic(c, chunks[k], j, cut);
      assert Blocks(c, whole, 0) + cut == cut && Flatten(whole, 0) == [];
    } else {
      var plain := Blocks(c, whole, 0) + cut;
      FetchBehindOne(c, whole, cut);
      SameFetch(c, CutStream(c, chunks, k, j), plain, sizes);
      assert Left(State(plain, []), whole, 0) == Flatten(whole, 0);
      ReadUpTo(c, State(plain, []), sizes, 0, whole, 0, cut);
    }
  }

  lemma {:induction false} EmptyThenData(data: bytes)
    requires data != []
    ensures Written([[], data], 2) == data && HeaderCount([[], data], 2) == 2
  {
    var writes := [[], data];
    assert Written(writes, 0) == [] && HeaderCount(writes, 0) == 0;
    assert Written(writes, 1) == Written(writes, 0) + writes[0] == [];
    assert HeaderCount(writes, 1) == 1;
    assert Written(writes, 2) == Written(writes, 1) + writes[1];
  }

  /** An empty write before the data: nothing of the data is read back. */
  lemma {:induction false} EmptyWriteLosesData(c: Codec, data: bytes, lg: bool, sizes: seq<nat>)
    requires data != [] && sizes != []
    ensures Written([[], data], 2) == data
    ensures ReadAll(c, State(Stream(c, HeaderCount([[], data], 2), data, lg), []), sizes, 0) == Done([])
  {
    EmptyThenData(data);
    ManyMagicsEnd(c, 2, data, lg, sizes);
  }

  // ---------------------------------------------------------------------
  // Telling the LG form from the legacy form
  // ---------------------------------------------------------------------

  /**
   * The walk over the block headers, in 32-bit arithmetic: whether a block claims more
   * than the buffer holds. None: not decided within `steps` turns of the loop.
   */
  function Walk(buf: bytes, off: nat, steps: nat): Option<bool>
    decreases steps
  {
    if off + 4 > |buf| then Some(false)
    else if steps == 0 then None
    else
      var next := BlockEnd(buf, off) % U32;
      if next > |buf| then Some(true) else Walk(buf, next, steps - 1)
  }

  /** Where the block at `off` ends, before the sum is cut to 32 bits. */
  function BlockEnd(buf: bytes, off: nat): nat
    requires off + 4 <= |buf|
  {
    off + 4 + Value(buf[off..off + 4])
  }

  predicate IsLg(buf: bytes, steps: nat) {
    MAGIC_WORD <= buf && Walk(buf, 4, steps) == Some(true)
  }

  lemma {:induction false} Cut(buf: bytes, off: nat, a: bytes, rest: bytes)
    requires off <= |buf| && buf[off..] == a + rest
    ensures off + |a| + |rest| == |buf| && buf[off..off + |a|] == a && buf[off + |a|..] == rest
  {
    assert buf[off..off + |a|] == buf[off..][..|a|];
    assert buf[off + |a|..] == buf[off..][|a|..];
  }

  lemma {:induction false} WalkOne(buf: bytes, off: nat, size: nat, rest: bytes, steps: nat)
    requires off <= |buf| && buf[off..] == LE32(size) + rest && steps > 0 && off + 4 + size < U32
    ensures off + 4 <= |buf| && buf[off + 4..] == rest
    ensures Walk(buf, off, steps) == if size > |rest| then Some(true) else Walk(buf, off + 4 + size, steps - 1)
  {
    Cut(buf, off, LE32(size), rest);
    LE32Value(size);
  }

  lemma {:induction false} WalkBlock(buf: bytes, off: nat, packed: bytes, rest: bytes, steps: nat)
    requires off <= |buf| < U32 && buf[off..] == LE32(|packed|) + packed + rest && steps > 0
    ensures off + 4 + |packed| <= |buf| && buf[off + 4 + |packed|..] == rest
    ensures Walk(buf, off, steps) == Walk(buf, off + 4 + |packed|, steps - 1)
  {
    Assoc(LE32(|packed|), packed, rest);
    Cut(buf, off, LE32(|packed|), packed + rest);
    WalkOne(buf, off, |packed|, packed + rest, steps);
    Cut(buf, off + 4, packed, rest);
  }

  lemma {:induction false} WalkBlocks(c: Codec, chunks: seq<bytes>, i: nat, lg: bool, total: nat, buf: bytes, off: nat,
      steps: nat)
    requires Sound(c) && i <= |chunks|
    requires forall k :: 0 <= k < |chunks| ==> 0 < |chunks[k]| <= BLOCK_SIZE
    requires off <= |buf| && buf[off..] == Blocks(c, chunks, i) + Trailer(lg, total)
    requires 0 < total && |buf| + total < U32
    requires steps > |chunks| - i
    ensures Walk(buf, off, steps) == Some(lg)
    decreases |chunks| - i
  {
    if i < |chunks| {
      var packed := Compress(c, chunks[i]);
      var rest := Blocks(c, chunks, i + 1) + Trailer(lg, total);
      Assoc(EncodedBlock(c, chunks[i]), Blocks(c, chunks, i + 1), Trailer(lg, total));
      WalkBlock(buf, off, packed, rest, steps);
      WalkBlocks(c, chunks, i + 1, lg, total, buf, off + 4 + |packed|, steps - 1);
    } else if lg {
      assert buf[off..] == LE32(total) + [];
      WalkOne(buf, off, total, [], steps);
    }
  }

  /** An archive with one magic is taken for LG exactly when it was written as LG and holds data. */
  lemma {:induction false} WalkBehindOne(c: Codec, data: bytes, lg: bool, steps: nat)
    requires Sound(c) && |Stream(c, 1, data, lg)| + |data| < U32
    requires steps > |Chunked(data)|
    ensures IsLg(Stream(c, 1, data, lg), steps) <==> lg && data != []
  {
    var buf := Stream(c, 1, data, lg);
    OneMagic(c, data, lg);
    if data == [] {
      assert Chunked([]) == [] && Blocks(c, [], 0) == [];
      assert buf == MAGIC_WORD + Trailer(lg, 0);
      WalkNothing(buf, lg, steps);
    } else {
      ChunkedFits(data);
      assert buf[4..] == Blocks(c, Chunked(data), 0) + Trailer(lg, |data|);
      WalkBlocks(c, Chunked(data), 0, lg, |data|, buf, 4, steps);
    }
  }

  lemma {:induction false} WalkNothing(buf: bytes, lg: bool, steps: nat)
    requires buf == MAGIC_WORD + Trailer(lg, 0) && steps > 0
    ensures Walk(buf, 4, steps) == Some(false)
  {
    if lg {
      assert buf[4..] == LE32(0) + [];
      WalkOne(buf, 4, 0, [], steps);
      assert Walk(buf, 8, steps - 1) == Some(false);
    }
  }

  /** A second magic reads as the size of a block beyond the end. */
  lemma {:induction false} WalkBehindTwo(buf: bytes, rest: bytes, steps: nat)
    requires buf == MAGIC_WORD + MAGIC_WORD + rest && |buf| < 8 + LZ4_MAGIC && steps > 0
    ensures IsLg(buf, steps)
  {
    MagicWord();
    assert buf[4..8] == MAGIC_WORD && MAGIC_WORD <= buf;
  }

  lemma {:induction false} ManyMagicsAreLg(c: Codec, headers: nat, data: bytes, lg: bool, steps: nat)
    requires headers >= 2 && |Stream(c, headers, data, lg)| < 8 + LZ4_MAGIC && steps > 0
    ensures IsLg(Stream(c, headers, data, lg), steps)
  {
    var front := TwoInFront(headers);
    var buf, blocks := Stream(c, headers, data, lg), Blocks(c, Chunked(data), 0);
    assert buf == MAGIC_WORD + MAGIC_WORD + (front + blocks + Trailer(lg, |data|));
    WalkBehindTwo(buf, front + blocks + Trailer(lg, |data|), steps);
  }

  lemma {:induction false} NoMagicIsNotLg(c: Codec, lg: bool, steps: nat)
    ensures !IsLg(Stream(c, 0, [], lg), steps)
  {
    assert Chunked([]) == [] && Blocks(c, [], 0) == [];
    assert Stream(c, 0, [], lg) == Trailer(lg, 0);
    MagicWord();
    LE32Value(0);
  }

  /**
   * However the data was split into writes: behind an empty first write the archive is
   * taken for LG once there is another write, and otherwise exactly when it was written
   * as LG and holds data.
   */
  lemma {:induction false} WalkTellsTheForms(c: Codec, writes: seq<bytes>, lg: bool, steps: nat)
    requires Sound(c)
    requires var data := Written(writes, |writes|);
             && |Stream(c, HeaderCount(writes, |writes|), data, lg)| + |data| < U32
             && steps > |Chunked(data)|
    requires |writes| > 1 && writes[0] == [] ==>
      |Stream(c, HeaderCount(writes, |writes|), Written(writes, |writes|), lg)| < 8 + LZ4_MAGIC
    ensures
      var data := Written(writes, |writes|);
      IsLg(Stream(c, HeaderCount(writes, |writes|), data, lg), steps)
      <==> if writes != [] && writes[0] == [] then |writes| > 1 else lg && data != []
  {
    var data, headers := Written(writes, |writes|), HeaderCount(writes, |writes|);
    if data == [] {
      AllEmpty(writes, |writes|);
    } else {
      OneHeaderIff(writes, |writes|);
      SoleWrite(writes);
    }
    if headers == 0 {
      NoMagicIsNotLg(c, lg, steps);
    } else if headers == 1 {
      WalkBehindOne(c, data, lg, steps);
    } else {
      ManyMagicsAreLg(c, headers, data, lg, steps);
    }
  }

  lemma {:induction false} SoleWrite(writes: seq<bytes>)
    requires Written(writes, |writes|) != []
    ensures |writes| > 0 && (|writes| == 1 ==> writes[0] != [])
  {
    if |writes| == 1 {
      assert Written(writes, 0) == [];
    }
  }

  /** A legacy archive with data, taken for LG because an empty write came first. */
  lemma {:induction false} LegacyTakenForLg(c: Codec, data: bytes, steps: nat)
    requires data != [] && |Stream(c, 2, data, false)| < 8 + LZ4_MAGIC && steps > 0
    ensures Written([[], data], 2) == data
    ensures IsLg(Stream(c, HeaderCount([[], data], 2), data, false), steps)
  {
    EmptyThenData(data);
    ManyMagicsAreLg(c, 2, data, false, steps);
  }

  /** The sums wrap, so that a block size of 2^32 - 4 sends the walk round for ever. */
  lemma {:induction false} WalkCanGoRound(steps: nat)
    ensures Walk(MAGIC_WORD + LE32(U32 - 4), 4, steps) == None
  {
    var buf := MAGIC_WORD + LE32(U32 - 4);
    assert buf[4..8] == LE32(U32 - 4);
    LE32Value(U32 - 4);
    if steps > 0 {
      WalkCanGoRound(steps - 1);
    }
  }

  // ---------------------------------------------------------------------
  // When the walk ends
  // ---------------------------------------------------------------------

  /** The turn at `off` leads to another one. */
  predicate GoesOn(buf: bytes, off: nat) {
    off + 4 <= |buf| && BlockEnd(buf, off) % U32 <= |buf|
  }

  /** The offset after `n` turns that each led to another one. */
  function Visit(buf: bytes, off: nat, n: nat): Option<nat>
    decreases n
  {
    if n == 0 then Some(off)
    else if GoesOn(buf, off) then Visit(buf, BlockEnd(buf, off) % U32, n - 1)
    else None
  }

  lemma {:induction false} WalkVisits(buf: bytes, off: nat, steps: nat)
    ensures Walk(buf, off, steps) == None <==>
            Visit(buf, off, steps).Some? && Visit(buf, off, steps).value + 4 <= |buf|
    decreases steps
  {
    if steps > 0 && GoesOn(buf, off) {
      WalkVisits(buf, BlockEnd(buf, off) % U32, steps - 1);
    }
  }

  lemma {:induction false} VisitAdd(buf: bytes, off: nat, m: nat, n: nat)
    ensures Visit(buf, off, m + n) ==
      if Visit(buf, off, m).Some? then Visit(buf, Visit(buf, off, m).value, n) else None
    decreases m
  {
    if m > 0 && GoesOn(buf, off) {
      VisitAdd(buf, BlockEnd(buf, off) % U32, m - 1, n);
    }
  }

  lemma {:induction false} VisitBefore(buf: bytes, off: nat, m: nat, n: nat)
    requires m < n && Visit(buf, off, n).Some?
    ensures Visit(buf, off, m).Some? && GoesOn(buf, Visit(buf, off, m).value)
  {
    VisitAdd(buf, off, m, n - m);
  }

  lemma {:induction false} VisitWithin(buf: bytes, off: nat, n: nat)
    requires n > 0 && Visit(buf, off, n).Some?
    ensures Visit(buf, off, n).value <= |buf|
    decreases n
  {
    if n > 1 {
      VisitWithin(buf, BlockEnd(buf, off) % U32, n - 1);
    }
  }

  /** From an offset it comes back to, the walk goes on for ever. */
  lemma {:induction false} RoundAndRound(buf: bytes, o: nat, d: nat, n: nat)
    requires d > 0 && Visit(buf, o, d) == Some(o)
    ensures Visit(buf, o, n).Some?
    decreases n
  {
    if n < d {
      VisitBefore(buf, o, n, d);
    } else {
      VisitAdd(buf, o, d, n - d);
      RoundAndRound(buf, o, d, n - d);
    }
  }

  /** More numbers below `b` than `b` are not all different. */
  lemma {:induction false} Pigeonhole(s: seq<nat>, b: nat) returns (i: nat, j: nat)
    requires |s| > b && forall k :: 0 <= k < |s| ==> s[k] < b
    ensures i < j < |s| && s[i] == s[j]
    decreases b
  {
    assert s[0] < b;
    if k :| 0 <= k < |s| && s[k] == b - 1 {
      if m :| 0 <= m < |s| && m != k && s[m] == b - 1 {
        i, j := if k < m then k else m, if k < m then m else k;
      } else {
        var t := s[..k] + s[k + 1..];
        var i', j' := Pigeonhole(t, b - 1);
        i, j := if i' < k then i' else i' + 1, if j' < k then j' else j' + 1;
      }
    } else {
      i, j := Pigeonhole(s, b - 1);
    }
  }

  ghost predicate ComesBack(buf: bytes, off: nat, i: nat, j: nat) {
    i < j && Visit(buf, off, i).Some? && Visit(buf, off, i) == Visit(buf, off, j)
  }

  predicate Undecided(buf: bytes, off: nat, steps: nat) {
    Walk(buf, off, steps) == None
  }

  /** The walk is never decided exactly when it comes back to an offset where it has been. */
  lemma {:induction false} UndecidedIff(buf: bytes, off: nat)
    ensures (forall steps: nat :: Undecided(buf, off, steps)) <==> exists i: nat, j: nat :: ComesBack(buf, off, i, j)
  {
    if exists i: nat, j: nat :: ComesBack(buf, off, i, j) {
      var i: nat, j: nat :| ComesBack(buf, off, i, j);
      forall steps: nat ensures Undecided(buf, off, steps) {
        LoopsFrom(buf, off, i, j, steps);
      }
    }
    if forall steps: nat :: Undecided(buf, off, steps) {
      var i, j := MustComeBack(buf, off);
      assert ComesBack(buf, off, i, j);
    }
  }

  lemma {:induction false} LoopsFrom(buf: bytes, off: nat, i: nat, j: nat, steps: nat)
    requires ComesBack(buf, off, i, j)
    ensures Undecided(buf, off, steps)
  {
    var o := Visit(buf, off, i).value;
    VisitAdd(buf, off, i, j - i);
    RoundAndRound(buf, o, j - i, steps + 1);
    VisitAdd(buf, off, i, steps + 1);
    VisitBefore(buf, off, steps, i + (steps + 1));
    WalkVisits(buf, off, steps);
  }

  lemma {:induction false} MustComeBack(buf: bytes, off: nat) returns (i: nat, j: nat)
    requires forall steps: nat :: Undecided(buf, off, steps)
    ensures ComesBack(buf, off, i, j)
  {
    forall n: nat ensures Visit(buf, off, n).Some? && Visit(buf, off, n).value < |buf| + 1 {
      assert Undecided(buf, off, n);
      WalkVisits(buf, off, n);
    }
    var s := seq(|buf| + 2, n requires 0 <= n => Visit(buf, off, n).value);
    i, j := Pigeonhole(s, |buf| + 1);
    assert s[i] == Visit(buf, off, i).value && s[j] == Visit(buf, off, j).value;
  }

  /** No sum read on the way through `n` turns reaches 2^32. */
  ghost predicate NoWrap(buf: bytes, off: nat, n: nat) {
    forall k :: 0 <= k < n && Visit(buf, off, k).Some? && Visit(buf, off, k).value + 4 <= |buf| ==>
      BlockEnd(buf, Visit(buf, off, k).value) < U32
  }

  lemma {:induction false} NoWrapGrows(buf: bytes, off: nat, n: nat)
    requires NoWrap(buf, off, n) && Visit(buf, off, n).Some?
    ensures Visit(buf, off, n).value >= off + 4 * n
    decreases n
  {
    if n > 0 {
      var next := BlockEnd(buf, off) % U32;
      assert Visit(buf, off, 0) == Some(off);
      assert BlockEnd(buf, off) < U32;
      forall k | 0 <= k < n - 1 && Visit(buf, next, k).Some? && Visit(buf, next, k).value + 4 <= |buf|
        ensures BlockEnd(buf, Visit(buf, next, k).value) < U32
      {
        assert Visit(buf, off, k + 1) == Visit(buf, next, k);
      }
      NoWrapGrows(buf, next, n - 1);
    }
  }

  /** On every buffer, a walk whose sums do not wrap is decided after a quarter of the buffer's length. */
  lemma {:induction false} WalkEnds(buf: bytes, off: nat, steps: nat)
    requires NoWrap(buf, off, steps) && 4 * steps + off + 4 > |buf|
    ensures Walk(buf, off, steps).Some?
  {
    WalkVisits(buf, off, steps);
    if Visit(buf, off, steps).Some? {
      NoWrapGrows(buf, off, steps);
    }
  }

  /** Coming back takes a sum that wraps. */
  lemma {:induction false} ComingBackWraps(buf: bytes, off: nat, i: nat, j: nat)
    requires ComesBack(buf, off, i, j)
    ensures !NoWrap(buf, off, j)
  {
    if NoWrap(buf, off, j) {
      var o := Visit(buf, off, i).value;
      VisitAdd(buf, off, i, j - i);
      forall k | 0 <= k < j - i && Visit(buf, o, k).Some? && Visit(buf, o, k).value + 4 <= |buf|
        ensures BlockEnd(buf, Visit(buf, o, k).value) < U32
      {
        VisitAdd(buf, off, i, k);
        assert Visit(buf, off, i + k) == Visit(buf, o, k);
      }
      NoWrapGrows(buf, o, j - i);
    }
  }
}
