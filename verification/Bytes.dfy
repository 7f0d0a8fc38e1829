/** Bytes, byte strings and the orders and codings the boot tools share. */
module Bytes {
  type byte = x: int | 0 <= x < 256
  type bytes = seq<byte>

  function Zeros(n: nat): (z: bytes)
    ensures |z| == n
  {
    seq(n, i => 0)
  }

  /** Block `b` lies in `data` at offset `pos`. */
  predicate At(data: bytes, pos: nat, b: bytes) {
    pos + |b| <= |data| && forall i :: 0 <= i < |b| ==> data[pos + i] == b[i]
  }

  lemma {:induction false} AtSplit(data: bytes, pos: nat, a: bytes, b: bytes)
    ensures At(data, pos, a + b) <==> At(data, pos, a) && At(data, pos + |a|, b)
  {
    if At(data, pos, a + b) {
      forall i | 0 <= i < |a| ensures data[pos + i] == a[i] {
        assert (a + b)[i] == a[i];
      }
      forall i | 0 <= i < |b| ensures data[pos + |a| + i] == b[i] {
        assert (a + b)[|a| + i] == b[i];
      }
    } else if At(data, pos, a) && At(data, pos + |a|, b) {
      forall i | 0 <= i < |a + b| ensures data[pos + i] == (a + b)[i] {
        if i >= |a| {
          assert data[pos + |a| + (i - |a|)] == b[i - |a|];
        }
      }
    }
  }

  /** A part of a block that lies in `data` lies there too. */
  lemma {:induction false} AtPart(data: bytes, pos: nat, b: bytes, lo: nat, hi: nat)
    requires At(data, pos, b) && lo <= hi <= |b|
    ensures data[pos + lo..pos + hi] == b[lo..hi]
    ensures At(data, pos + lo, b[lo..hi])
  {
  }

  lemma {:induction false} AtSlice(data: bytes, pos: nat, b: bytes)
    requires At(data, pos, b)
    ensures data[pos..pos + |b|] == b
  {
  }

  predicate StartsWith(s: bytes, prefix: bytes) {
    |prefix| <= |s| && s[..|prefix|] == prefix
  }

  predicate EndsWith(s: bytes, suffix: bytes) {
    |suffix| <= |s| && s[|s| - |suffix|..] == suffix
  }

  // ---------------------------------------------------------------------
  // The order of Rust's str, byte by byte
  // ---------------------------------------------------------------------

  predicate Less(a: bytes, b: bytes)
    decreases |a|
  {
    b != [] && (a == [] || a[0] < b[0] || (a[0] == b[0] && Less(a[1..], b[1..])))
  }

  lemma {:induction false} LessTrichotomy(a: bytes, b: bytes)
    ensures a == b || Less(a, b) || Less(b, a)
    ensures !(Less(a, b) && Less(b, a))
    ensures a == b ==> !Less(a, b)
    decreases |a|
  {
    if a != [] && b != [] {
      LessTrichotomy(a[1..], b[1..]);
      if a[0] == b[0] && a[1..] == b[1..] {
        assert a == [a[0]] + a[1..] == b;
      }
    }
  }

  lemma {:induction false} LessTransitive(a: bytes, b: bytes, c: bytes)
    requires Less(a, b) && Less(b, c)
    ensures Less(a, c)
    decreases |a|
  {
    if a != [] && a[0] == b[0] && b[0] == c[0] {
      LessTransitive(a[1..], b[1..], c[1..]);
    }
  }

  ghost predicate Sorted(names: seq<bytes>) {
    forall i, j :: 0 <= i < j < |names| ==> Less(names[i], names[j])
  }

  /** `names` lists the set in increasing order, each name once. */
  ghost predicate Enumerates(names: seq<bytes>, keys: set<bytes>) {
    Sorted(names) && forall n :: n in names <==> n in keys
  }

  lemma {:induction false} LeastExists(keys: set<bytes>) returns (x: bytes)
    requires keys != {}
    ensures x in keys && forall y :: y in keys ==> x == y || Less(x, y)
  {
    x :| x in keys;
    var rest := keys - {x};
    assert forall z :: z in keys ==> z == x || z in rest;
    if rest != {} {
      var y := LeastExists(rest);
      LessTrichotomy(x, y);
      if Less(y, x) {
        x := y;
      } else {
        forall z | z in keys ensures x == z || Less(x, z) {
          if z != x && z != y {
            assert z in rest;
            LessTransitive(x, y, z);
          }
        }
      }
    }
  }

  /** The keys of an ordered map, in the order its iterator visits them. */
  ghost function SortedKeys(keys: set<bytes>): (names: seq<bytes>)
    ensures Enumerates(names, keys)
  {
    if keys == {} then []
    else
      assert exists x :: x in keys && forall y :: y in keys ==> x == y || Less(x, y) by {
        var x := LeastExists(keys);
      }
      var x :| x in keys && forall y :: y in keys ==> x == y || Less(x, y);
      [x] + SortedKeys(keys - {x})
  }

  /** An increasing enumeration is unique. */
  lemma {:induction false} EnumerationUnique(a: seq<bytes>, b: seq<bytes>, keys: set<bytes>)
    requires Enumerates(a, keys) && Enumerates(b, keys)
    ensures a == b
    decreases |a|
  {
    assert b != [] ==> b[0] in keys;
    if a != [] {
      assert a[0] in keys && a[0] in b && b[0] in keys && b[0] in a;
      var j :| 0 <= j < |b| && b[j] == a[0];
      var i :| 0 <= i < |a| && a[i] == b[0];
      LessTrichotomy(a[0], b[0]);
      assert i == 0 && j == 0;
      EnumerationTail(a, keys);
      EnumerationTail(b, keys);
      EnumerationUnique(a[1..], b[1..], keys - {a[0]});
      assert a == [a[0]] + a[1..] && b == [b[0]] + b[1..];
    }
  }

  lemma {:induction false} EnumerationTail(a: seq<bytes>, keys: set<bytes>)
    requires Enumerates(a, keys) && a != []
    ensures Enumerates(a[1..], keys - {a[0]})
  {
    LessTrichotomy(a[0], a[0]);
    forall n ensures n in a[1..] <==> n in keys - {a[0]} {
      if n in a[1..] {
        var i :| 0 <= i < |a[1..]| && a[1..][i] == n;
        assert Less(a[0], a[i + 1]);
      } else {
        assert n in a ==> n == a[0];
      }
    }
  }

  // ---------------------------------------------------------------------
  // UTF-8
  // ---------------------------------------------------------------------

  predicate Continues(s: bytes, i: nat) {
    i < |s| && 0x80 <= s[i] < 0xC0
  }

  /** The length of the well-formed character at index `i` of `s`, or 0. */
  function Utf8Char(s: bytes, i: nat): (n: nat)
    requires i < |s|
    ensures i + n <= |s|
  {
    var c := s[i];
    if c < 0x80 then 1
    else if 0xC2 <= c < 0xE0 && Continues(s, i + 1) then 2
    else if 0xE0 <= c < 0xF0 && Continues(s, i + 1) && Continues(s, i + 2)
            && (c == 0xE0 ==> 0xA0 <= s[i + 1]) && (c == 0xED ==> s[i + 1] < 0xA0) then 3
    else if 0xF0 <= c < 0xF5 && Continues(s, i + 1) && Continues(s, i + 2) && Continues(s, i + 3)
            && (c == 0xF0 ==> 0x90 <= s[i + 1]) && (c == 0xF4 ==> s[i + 1] < 0x90) then 4
    else 0
  }

  predicate Utf8From(s: bytes, i: nat)
    requires i <= |s|
    decreases |s| - i
  {
    i == |s| || (Utf8Char(s, i) > 0 && Utf8From(s, i + Utf8Char(s, i)))
  }

  predicate Utf8(s: bytes) {
    Utf8From(s, 0)
  }

  lemma {:induction false} Utf8Prefixed(a: bytes, b: bytes, i: nat)
    requires i <= |a| && Utf8From(a, i) && Utf8(b)
    ensures Utf8From(a + b, i)
    decreases |a| - i
  {
    if i == |a| {
      Utf8Shifted(a, b, 0);
    } else {
      assert Utf8Char(a + b, i) == Utf8Char(a, i);
      Utf8Prefixed(a, b, i + Utf8Char(a, i));
    }
  }

  lemma {:induction false} Utf8Shifted(a: bytes, b: bytes, i: nat)
    requires i <= |b| && Utf8From(b, i)
    ensures Utf8From(a + b, |a| + i)
    decreases |b| - i
  {
    if i < |b| {
      assert Utf8Char(a + b, |a| + i) == Utf8Char(b, i);
      Utf8Shifted(a, b, i + Utf8Char(b, i));
    }
  }

  lemma {:induction false} Utf8Concat(a: bytes, b: bytes)
    requires Utf8(a) && Utf8(b)
    ensures Utf8(a + b)
  {
    Utf8Prefixed(a, b, 0);
  }

  lemma {:induction false} AsciiIsUtf8(s: bytes, i: nat)
    requires i <= |s| && forall k :: i <= k < |s| ==> s[k] < 0x80
    ensures Utf8From(s, i)
    decreases |s| - i
  {
    if i < |s| {
      AsciiIsUtf8(s, i + 1);
    }
  }

  /** A Unicode scalar value. */
  predicate Scalar(c: nat) {
    c < 0x11_0000 && !(0xD800 <= c < 0xE000)
  }

  /** The octets of a character (section 3 of RFC 3629). */
  function Encoded(c: nat): bytes
    requires Scalar(c)
  {
    if c < 0x80 then [c]
    else if c < 0x800 then [0xC0 + c / 0x40, 0x80 + c % 0x40]
    else if c < 0x1_0000 then [0xE0 + c / 0x1000, 0x80 + c / 0x40 % 0x40, 0x80 + c % 0x40]
    else [0xF0 + c / 0x4_0000, 0x80 + c / 0x1000 % 0x40, 0x80 + c / 0x40 % 0x40, 0x80 + c % 0x40]
  }

  predicate Scalars(cs: seq<nat>) {
    forall k :: 0 <= k < |cs| ==> Scalar(cs[k])
  }

  function EncodedAll(cs: seq<nat>): bytes
    requires Scalars(cs)
  {
    if cs == [] then [] else Encoded(cs[0]) + EncodedAll(cs[1..])
  }

  lemma {:induction false} EncodedIsUtf8(c: nat)
    requires Scalar(c)
    ensures Encoded(c) != [] && Utf8(Encoded(c))
  {
    var s := Encoded(c);
    assert c / 0x40 / 0x40 == c / 0x1000 && c / 0x1000 / 0x40 == c / 0x4_0000;
    assert Utf8Char(s, 0) == |s|;
  }

  lemma {:induction false} TwoOctets(x: int, y: int) returns (c: nat)
    requires 0xC2 <= x < 0xE0 && 0x80 <= y < 0xC0
    ensures Scalar(c) && Encoded(c) == [x, y]
  {
    c := (x - 0xC0) * 0x40 + (y - 0x80);
  }

  lemma {:induction false} ThreeOctets(x: int, y: int, z: int) returns (c: nat)
    requires 0xE0 <= x < 0xF0 && 0x80 <= y < 0xC0 && 0x80 <= z < 0xC0
    requires (x == 0xE0 ==> 0xA0 <= y) && (x == 0xED ==> y < 0xA0)
    ensures Scalar(c) && Encoded(c) == [x, y, z]
  {
    c := (x - 0xE0) * 0x1000 + (y - 0x80) * 0x40 + (z - 0x80);
    assert c / 0x40 == (x - 0xE0) * 0x40 + (y - 0x80);
  }

  lemma {:induction false} FourOctets(x: int, y: int, z: int, w: int) returns (c: nat)
    requires 0xF0 <= x < 0xF5 && 0x80 <= y < 0xC0 && 0x80 <= z < 0xC0 && 0x80 <= w < 0xC0
    requires (x == 0xF0 ==> 0x90 <= y) && (x == 0xF4 ==> y < 0x90)
    ensures Scalar(c) && Encoded(c) == [x, y, z, w]
  {
    c := (x - 0xF0) * 0x4_0000 + (y - 0x80) * 0x1000 + (z - 0x80) * 0x40 + (w - 0x80);
    assert c / 0x40 == (x - 0xF0) * 0x1000 + (y - 0x80) * 0x40 + (z - 0x80);
    assert c / 0x1000 == (x - 0xF0) * 0x40 + (y - 0x80);
  }

  /** The character that begins at `i`. */
  lemma {:induction false} DecodeOne(s: bytes, i: nat) returns (c: nat)
    requires i < |s| && Utf8Char(s, i) > 0
    ensures Scalar(c) && Encoded(c) == s[i..i + Utf8Char(s, i)]
  {
    var n := Utf8Char(s, i);
    if n == 1 {
      c := s[i];
    } else if n == 2 {
      c := TwoOctets(s[i], s[i + 1]);
    } else if n == 3 {
      c := ThreeOctets(s[i], s[i + 1], s[i + 2]);
    } else {
      c := FourOctets(s[i], s[i + 1], s[i + 2], s[i + 3]);
    }
  }

  lemma {:induction false} DecodeAll(s: bytes, i: nat) returns (cs: seq<nat>)
    requires i <= |s| && Utf8From(s, i)
    ensures Scalars(cs) && EncodedAll(cs) == s[i..]
    decreases |s| - i
  {
    if i == |s| {
      cs := [];
    } else {
      var c := DecodeOne(s, i);
      var n := Utf8Char(s, i);
      var rest := DecodeAll(s, i + n);
      cs := [c] + rest;
      assert cs[1..] == rest && s[i..] == s[i..i + n] + s[i + n..];
    }
  }

  lemma {:induction false} EncodedAllIsUtf8(cs: seq<nat>)
    requires Scalars(cs)
    ensures Utf8(EncodedAll(cs))
  {
    if cs != [] {
      EncodedIsUtf8(cs[0]);
      EncodedAllIsUtf8(cs[1..]);
      Utf8Concat(Encoded(cs[0]), EncodedAll(cs[1..]));
    }
  }

  /** Text is exactly what encodes some characters. */
  lemma {:induction false} Utf8Iff(s: bytes)
    ensures Utf8(s) <==> exists cs :: Scalars(cs) && EncodedAll(cs) == s
  {
    if Utf8(s) {
      var cs := DecodeAll(s, 0);
      assert s[0..] == s && EncodedAll(cs) == s;
    }
    if cs :| Scalars(cs) && EncodedAll(cs) == s {
      EncodedAllIsUtf8(cs);
    }
  }

  // ---------------------------------------------------------------------
  // Splitting at a separator
  // ---------------------------------------------------------------------

  /** str::split: the pieces between separators, empty ones included. */
  function Split(s: bytes, sep: byte): (pieces: seq<bytes>)
    ensures pieces != []
  {
    if s == [] then [[]]
    else
      var rest := Split(s[1..], sep);
      if s[0] == sep then [[]] + rest else [[s[0]] + rest[0]] + rest[1..]
  }

  /** A text without separators is one piece. */
  lemma {:induction false} SplitPlain(s: bytes, sep: byte)
    requires sep !in s
    ensures Split(s, sep) == [s]
  {
    if s != [] {
      SplitPlain(s[1..], sep);
      assert s == [s[0]] + s[1..];
    }
  }

  /** The first separator ends the first piece. */
  lemma {:induction false} SplitFirst(s: bytes, sep: byte, rest: bytes)
    requires sep !in s
    ensures Split(s + [sep] + rest, sep) == [s] + Split(rest, sep)
  {
    var t := s + [sep] + rest;
    if s == [] {
      assert t[0] == sep && t[1..] == rest;
    } else {
      SplitFirst(s[1..], sep, rest);
      assert t[0] == s[0] && t[1..] == s[1..] + [sep] + rest;
      assert s == [s[0]] + s[1..];
    }
  }
}
