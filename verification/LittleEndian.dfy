/** 32-bit words as the native code writes them. */
module LittleEndian {
  import opened Bytes

  const U32: nat := 0x1_0000_0000

  function Word(n: nat, size: nat): (w: bytes)
    ensures |w| == size
    decreases size, n
  {
    if size == 0 then [] else [n % 256] + Word(n / 256, size - 1)
  }

  function Value(w: bytes): nat {
    if w == [] then 0 else w[0] + 256 * Value(w[1..])
  }

  function Pow256(k: nat): nat {
    if k == 0 then 1 else 256 * Pow256(k - 1)
  }

  lemma {:induction false} WordValue(n: nat, size: nat)
    requires n < Pow256(size)
    ensures Value(Word(n, size)) == n
    decreases size
  {
    if size > 0 {
      WordValue(n / 256, size - 1);
      assert Word(n, size)[1..] == Word(n / 256, size - 1);
    }
  }

  function LE32(n: nat): (w: bytes)
    ensures |w| == 4
  {
    Word(n, 4)
  }

  lemma {:induction false} LE32Value(n: nat)
    requires n < U32
    ensures Value(LE32(n)) == n
  {
    assert Pow256(2) == 0x1_0000;
    assert Pow256(4) == U32;
    WordValue(n, 4);
  }
}
