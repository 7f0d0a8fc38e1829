/** The Chunker of native/src/base/misc.rs: cuts a stream of writes into chunks of one size. */
module Chunking {
  import opened Options
  import opened Bytes

  class Chunker {
    const chunkSize: nat
    const chunk: array<byte>
    var pos: nat

    ghost predicate Valid()
      reads this
    {
      0 < chunkSize <= chunk.Length && pos < chunkSize
    }

    /** What has been taken in and not handed out yet. */
    ghost function Pending(): bytes
      reads this, chunk
      requires Valid()
    {
      chunk[..pos]
    }

    constructor (size: nat)
      requires size > 0
      ensures Valid() && chunkSize == size && Pending() == [] && fresh(chunk)
    {
      chunkSize := size;
      chunk := new byte[size](_ => 0);
      pos := 0;
    }

    /** Copies `buf` behind the pending bytes. */
    method Store(buf: bytes)
      requires Valid() && pos + |buf| <= chunkSize
      modifies chunk
      ensures chunk[..pos + |buf|] == old(chunk[..pos]) + buf
    {
      for i := 0 to |buf|
        invariant chunk[..pos] == old(chunk[..pos])
        invariant forall k :: 0 <= k < i ==> chunk[pos + k] == buf[k]
      {
        chunk[pos + i] := buf[i];
      }
    }

    /**
     * Takes bytes from the front of `buf`. A chunk that comes out is full, and the
     * pending bytes, the chunk and the rest of `buf` keep the order of the stream.
     */
    method AddData(buf: bytes) returns (rest: bytes, out: Option<bytes>)
      requires Valid()
      modifies this`pos, chunk
      ensures Valid()
      ensures out.Some? ==> |out.value| == chunkSize && Pending() == [] && old(Pending()) + buf == out.value + rest
      ensures out.None? ==> rest == [] && Pending() == old(Pending()) + buf
      ensures buf != [] ==> |rest| < |buf|
    {
      out := None;
      if pos > 0 {
        var len := if chunkSize - pos < |buf| then chunkSize - pos else |buf|;
        Store(buf[..len]);
        pos := pos + len;
        if pos == chunkSize {
          out := Some(chunk[..chunkSize]);
          pos := 0;
        }
        rest := buf[len..];
        assert buf == buf[..len] + rest;
      } else if |buf| >= chunkSize {
        out := Some(buf[..chunkSize]);
        rest := buf[chunkSize..];
      } else {
        Store(buf);
        pos := pos + |buf|;
        rest := [];
      }
    }

    method GetAvailable() returns (out: bytes)
      requires Valid()
      modifies this`pos
      ensures Valid() && out == old(Pending()) && Pending() == []
    {
      out := chunk[..pos];
      pos := 0;
    }
  }
}
