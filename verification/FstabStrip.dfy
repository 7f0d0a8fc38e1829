/** The stripping of fstab flags in native/src/boot/patch.rs. */
module FstabStrip {
  import opened Options
  import opened Bytes

  const COMMA: byte := 0x2c
  const EQUALS: byte := 0x3d

  /** What ends the value of a flag: a blank, a newline or a zero. */
  predicate EndsValue(b: byte) {
    b == 0x20 || b == 0x0a || b == 0
  }

  function ValueLength(b: bytes, i: nat): (n: nat)
    requires i <= |b|
    ensures i + n <= |b|
    decreases |b| - i
  {
    if i == |b| || EndsValue(b[i]) then 0 else 1 + ValueLength(b, i + 1)
  }

  /** The first of the patterns that begins at `i`. */
  function FirstPattern(patterns: seq<bytes>, k: nat, b: bytes, i: nat): (r: Option<bytes>)
    requires k <= |patterns| && i <= |b|
    ensures r.Some? ==> r.value in patterns && At(b, i, r.value)
    decreases |patterns| - k
  {
    if k == |patterns| then None
    else if At(b, i, patterns[k]) then Some(patterns[k])
    else FirstPattern(patterns, k + 1, b, i)
  }

  /** Where a flag may begin: behind a comma, if there is one. */
  function Start(b: bytes, i: nat): nat
    requires i < |b|
  {
    if b[i] == COMMA then i + 1 else i
  }

  /** The length of a flag that begins at `i`, with a comma before it and its value. */
  function Match(patterns: seq<bytes>, b: bytes, i: nat): (r: Option<nat>)
    requires i < |b|
    ensures r.Some? ==> i + r.value <= |b|
    ensures r.Some? && [] !in patterns ==> r.value > 0
  {
    var start := Start(b, i);
    var found := if start == |b| then None else FirstPattern(patterns, 0, b, start);
    if found.None? then None
    else
      var end := start + |found.value|;
      Some((if end < |b| && b[end] == EQUALS then end + ValueLength(b, end) else end) - i)
  }

  method MatchPatterns(patterns: seq<bytes>, b: bytes, i: nat) returns (r: Option<nat>)
    requires i < |b|
    ensures r == Match(patterns, b, i)
  {
    var end := if b[i] == COMMA then i + 1 else i;
    if end == |b| {
      return None;
    }
    var found := false;
    var k := 0;
    ghost var start := Start(b, i);
    while k < |patterns| && !found
      invariant k <= |patterns|
      invariant !found ==> end == start && FirstPattern(patterns, 0, b, start) == FirstPattern(patterns, k, b, start)
      invariant found ==>
        FirstPattern(patterns, 0, b, start).Some? && end == start + |FirstPattern(patterns, 0, b, start).value|
      decreases |patterns| - k, !found
    {
      if At(b, end, patterns[k]) {
        end := end + |patterns[k]|;
        found := true;
      } else {
        k := k + 1;
      }
    }
    if !found {
      return None;
    }
    if end < |b| && b[end] == EQUALS {
      var j := end;
      while j < |b| && !EndsValue(b[j])
        invariant end <= j <= |b| && ValueLength(b, end) == (j - end) + ValueLength(b, j)
      {
        j := j + 1;
      }
      end := j;
    }
    return Some(end - i);
  }

  /** Only what lies ahead decides a match. */
  lemma {:induction false} MatchSame(patterns: seq<bytes>, a: bytes, b: bytes, i: nat)
    requires i < |a| == |b| && forall k :: i <= k < |a| ==> a[k] == b[k]
    ensures Match(patterns, a, i) == Match(patterns, b, i)
  {
    PatternSame(patterns, 0, a, b, i, Start(a, i));
    forall e | i <= e <= |a| ensures ValueLength(a, e) == ValueLength(b, e) {
      ValueSame(a, b, i, e);
    }
  }

  lemma {:induction false} PatternSame(patterns: seq<bytes>, k: nat, a: bytes, b: bytes, i: nat, j: nat)
    requires k <= |patterns| && i <= j <= |a| == |b| && forall k :: i <= k < |a| ==> a[k] == b[k]
    ensures FirstPattern(patterns, k, a, j) == FirstPattern(patterns, k, b, j)
    decreases |patterns| - k
  {
    if k < |patterns| {
      PatternSame(patterns, k + 1, a, b, i, j);
    }
  }

  lemma {:induction false} ValueSame(a: bytes, b: bytes, i: nat, e: nat)
    requires i <= e <= |a| == |b| && forall k :: i <= k < |a| ==> a[k] == b[k]
    ensures ValueLength(a, e) == ValueLength(b, e)
    decreases |a| - e
  {
    if e < |a| {
      ValueSame(a, b, i, e + 1);
    }
  }

  /** The text from `i` on without the flags, taken out from left to right. */
  function Strip(patterns: seq<bytes>, t: bytes, i: nat): (r: bytes)
    requires [] !in patterns && i <= |t|
    ensures |r| <= |t| - i
    decreases |t| - i
  {
    if i == |t| then []
    else
      var m := Match(patterns, t, i);
      if m.Some? then Strip(patterns, t, i + m.value) else [t[i]] + Strip(patterns, t, i + 1)
  }

  /** The two indices: what is read is never disturbed by what is written. */
  method Compact(buf: array<byte>, patterns: seq<bytes>) returns (sz: nat)
    requires [] !in patterns
    modifies buf
    ensures sz <= buf.Length && buf[..sz] == Strip(patterns, old(buf[..]), 0)
  {
    ghost var text := buf[..];
    var write, read := 0, 0;
    sz := buf.Length;
    while read < buf.Length
      invariant write <= read <= buf.Length && sz == buf.Length - (read - write)
      invariant forall k :: read <= k < buf.Length ==> buf[k] == text[k]
      invariant buf[..write] + Strip(patterns, text, read) == Strip(patterns, text, 0)
      decreases buf.Length - read
    {
      MatchSame(patterns, buf[..], text, read);
      var m := MatchPatterns(patterns, buf[..], read);
      if m.Some? {
        sz := sz - m.value;
        read := read + m.value;
      } else {
        Joined(buf[..write], text[read], Strip(patterns, text, read + 1));
        MoveByte(buf, write, read);
        write, read := write + 1, read + 1;
      }
    }
  }

  lemma {:induction false} Joined(a: bytes, b: byte, c: bytes)
    ensures a + [b] + c == a + ([b] + c)
  {
  }

  method MoveByte(buf: array<byte>, write: nat, read: nat)
    requires write <= read < buf.Length
    modifies buf
    ensures buf[..write + 1] == old(buf[..write]) + [old(buf[read])]
    ensures forall k :: read < k < buf.Length ==> buf[k] == old(buf[k])
  {
    buf[write] := buf[read];
  }

  /** Strips the buffer in place and fills up with zeros; the size is that of the stripped text. */
  method RemovePattern(buf: array<byte>, patterns: seq<bytes>) returns (sz: nat)
    requires [] !in patterns
    modifies buf
    ensures sz == |Strip(patterns, old(buf[..]), 0)|
    ensures buf[..] == Strip(patterns, old(buf[..]), 0) + Zeros(buf.Length - sz)
  {
    sz := Compact(buf, patterns);
    ghost var kept := buf[..sz];
    for i := sz to buf.Length
      invariant buf[..sz] == kept
      invariant forall k :: sz <= k < i ==> buf[k] == 0
    {
      buf[i] := 0;
    }
    assert buf[..] == buf[..sz] + Zeros(buf.Length - sz);
  }

  // ---------------------------------------------------------------------
  // What the stripping leaves
  // ---------------------------------------------------------------------

  /** The text is left as it is exactly when no flag begins anywhere in it. */
  lemma {:induction false} StripIsSameIff(patterns: seq<bytes>, t: bytes, i: nat)
    requires [] !in patterns && i <= |t|
    ensures Strip(patterns, t, i) == t[i..] <==> forall k :: i <= k < |t| ==> Match(patterns, t, k).None?
    decreases |t| - i
  {
    if i < |t| {
      if Match(patterns, t, i).Some? {
        assert |Strip(patterns, t, i)| < |t| - i;
      } else {
        StripIsSameIff(patterns, t, i + 1);
        assert t[i..] == [t[i]] + t[i + 1..];
        assert Strip(patterns, t, i)[1..] == Strip(patterns, t, i + 1);
      }
    }
  }

  // ---------------------------------------------------------------------
  // What is a flag
  // ---------------------------------------------------------------------

  /** A pattern stands here, or behind the comma that stands here. */
  ghost predicate FlagAt(patterns: seq<bytes>, t: bytes, i: nat) {
    exists j :: 0 <= j < |patterns| &&
                (At(t, i, patterns[j]) || (i < |t| && t[i] == 0x2c && At(t, i + 1, patterns[j])))
  }

  lemma {:induction false} FirstNoneIff(patterns: seq<bytes>, k: nat, t: bytes, i: nat)
    requires k <= |patterns| && i <= |t|
    ensures FirstPattern(patterns, k, t, i).None? <==> forall j :: k <= j < |patterns| ==> !At(t, i, patterns[j])
    decreases |patterns| - k
  {
    if k < |patterns| {
      FirstNoneIff(patterns, k + 1, t, i);
    }
  }

  /** Something is taken out at a place exactly when a flag stands there. */
  lemma {:induction false} MatchIff(patterns: seq<bytes>, t: bytes, i: nat)
    requires PlainPatterns(patterns) && i < |t|
    ensures Match(patterns, t, i).Some? <==> FlagAt(patterns, t, i)
  {
    FirstNoneIff(patterns, 0, t, Start(t, i));
    forall j | 0 <= j < |patterns| ensures At(t, i, patterns[j]) ==> t[i] == patterns[j][0] {
      assert At(t, i, patterns[j]) ==> t[i + 0] == patterns[j][0];
    }
  }

  lemma {:induction false} FirstIs(patterns: seq<bytes>, k: nat, t: bytes, i: nat, j: nat)
    requires k <= j < |patterns| && i <= |t| && At(t, i, patterns[j])
    requires forall x :: k <= x < j ==> !At(t, i, patterns[x])
    ensures FirstPattern(patterns, k, t, i) == Some(patterns[j])
    decreases j - k
  {
    if k < j {
      FirstIs(patterns, k + 1, t, i, j);
    }
  }

  lemma {:induction false} ValueIs(t: bytes, i: nat, n: nat)
    requires i + n <= |t| && (i + n == |t| || t[i + n] in {0x20, 0x0a, 0})
    requires forall k :: i <= k < i + n ==> t[k] !in {0x20, 0x0a, 0}
    ensures ValueLength(t, i) == n
    decreases n
  {
    if n > 0 {
      ValueIs(t, i + 1, n - 1);
    }
  }

  /** What belongs to a flag: all from an equals sign to the next blank, newline or zero, commas included. */
  predicate Valued(value: bytes, rest: bytes) {
    if value == [] then rest == [] || rest[0] != 0x3d
    else
      && value[0] == 0x3d && (forall k :: 0 <= k < |value| ==> value[k] !in {0x20, 0x0a, 0})
      && (rest == [] || rest[0] in {0x20, 0x0a, 0})
  }

  lemma {:induction false} PartsStand(t: bytes, pre: bytes, lead: bytes, pattern: bytes, value: bytes, rest: bytes)
    requires t == pre + lead + pattern + value + rest
    ensures At(t, |pre|, lead) && At(t, |pre| + |lead|, pattern)
    ensures At(t, |pre| + |lead| + |pattern|, value)
    ensures t[|pre| + |lead| + |pattern| + |value|..] == rest
  {
  }

  lemma {:induction false} TailEnds(t: bytes, end: nat, value: bytes, rest: bytes)
    requires At(t, end, value) && t[end + |value|..] == rest && Valued(value, rest)
    ensures end + |value| == if end < |t| && t[end] == EQUALS then end + ValueLength(t, end) else end
  {
    assert rest != [] ==> t[end + |value|] == rest[0];
    if value != [] {
      assert t[end + 0] == value[0];
      forall k | end <= k < end + |value| ensures t[k] !in {0x20, 0x0a, 0} {
        assert t[end + (k - end)] == value[k - end];
      }
      ValueIs(t, end, |value|);
    }
  }

  /** A flag is taken with the comma before it and with its value. */
  lemma {:induction false} FlagTaken(patterns: seq<bytes>, pre: bytes, lead: bytes, j: nat, value: bytes, rest: bytes,
      t: bytes)
    requires PlainPatterns(patterns) && j < |patterns| && (lead == [] || lead == [COMMA]) && Valued(value, rest)
    requires t == pre + lead + patterns[j] + value + rest
    requires forall k :: 0 <= k < j ==> !At(t, |pre| + |lead|, patterns[k])
    ensures Match(patterns, t, |pre|) == Some(|lead| + |patterns[j]| + |value|)
  {
    PartsStand(t, pre, lead, patterns[j], value, rest);
    FlagTakenAt(patterns, t, |pre|, lead, j, value, rest);
  }

  lemma {:induction false} FlagTakenAt(patterns: seq<bytes>, t: bytes, i: nat, lead: bytes, j: nat, value: bytes,
      rest: bytes)
    requires PlainPatterns(patterns) && j < |patterns| && (lead == [] || lead == [COMMA]) && Valued(value, rest)
    requires At(t, i, lead) && At(t, i + |lead|, patterns[j]) && At(t, i + |lead| + |patterns[j]|, value)
    requires t[i + |lead| + |patterns[j]| + |value|..] == rest
    requires forall k :: 0 <= k < j ==> !At(t, i + |lead|, patterns[k])
    ensures Match(patterns, t, i) == Some(|lead| + |patterns[j]| + |value|)
  {
    var start, end := i + |lead|, i + |lead| + |patterns[j]|;
    assert lead != [] ==> t[i + 0] == lead[0];
    assert t[start + 0] == patterns[j][0];
    FirstIs(patterns, 0, t, start, j);
    TailEnds(t, end, value, rest);
    MatchIs(patterns, t, i, start, patterns[j], end + |value|);
  }

  lemma {:induction false} MatchIs(patterns: seq<bytes>, t: bytes, i: nat, start: nat, pattern: bytes, end: nat)
    requires i < |t| && start == Start(t, i) < |t| && FirstPattern(patterns, 0, t, start) == Some(pattern)
    requires var e := start + |pattern|;
             end == if e < |t| && t[e] == EQUALS then e + ValueLength(t, e) else e
    ensures Match(patterns, t, i) == Some(end - i)
  {
  }

  lemma {:induction false} OneMore(t: bytes, i: nat, n: nat, rest: bytes)
    requires i < n <= |t|
    ensures [t[i]] + (t[i + 1..n] + rest) == t[i..n] + rest
  {
    assert t[i..n] == [t[i]] + t[i + 1..n];
  }

  lemma {:induction false} StripPrefix(patterns: seq<bytes>, t: bytes, i: nat, n: nat)
    requires PlainPatterns(patterns) && [] !in patterns && i <= n <= |t|
    requires forall k :: i <= k < n ==> !FlagAt(patterns, t, k)
    ensures Strip(patterns, t, i) == t[i..n] + Strip(patterns, t, n)
    decreases n - i
  {
    if i < n {
      MatchIff(patterns, t, i);
      StripPrefix(patterns, t, i + 1, n);
      OneMore(t, i, n, Strip(patterns, t, n));
    }
  }

  /** The first flag of a text goes, with the comma before it and its value; what is before it stays. */
  lemma {:induction false} FirstFlagGoes(patterns: seq<bytes>, pre: bytes, lead: bytes, j: nat, value: bytes,
      rest: bytes, t: bytes)
    requires PlainPatterns(patterns) && j < |patterns| && (lead == [] || lead == [COMMA]) && Valued(value, rest)
    requires t == pre + lead + patterns[j] + value + rest
    requires forall k :: 0 <= k < j ==> !At(t, |pre| + |lead|, patterns[k])
    requires forall k :: 0 <= k < |pre| ==> !FlagAt(patterns, t, k)
    ensures Strip(patterns, t, 0) == pre + Strip(patterns, t, |t| - |rest|)
  {
    FlagTaken(patterns, pre, lead, j, value, rest, t);
    StripPrefix(patterns, t, 0, |pre|);
    assert t[0..|pre|] == pre;
  }

  // ---------------------------------------------------------------------
  // Stripping twice
  // ---------------------------------------------------------------------

  /** The positions from `i` on that are kept. */
  function Kept(patterns: seq<bytes>, t: bytes, i: nat): seq<nat>
    requires [] !in patterns && i <= |t|
    decreases |t| - i
  {
    if i == |t| then []
    else
      var m := Match(patterns, t, i);
      if m.Some? then Kept(patterns, t, i + m.value) else [i] + Kept(patterns, t, i + 1)
  }

  ghost predicate Increasing(kept: seq<nat>) {
    forall a, b :: 0 <= a < b < |kept| ==> kept[a] < kept[b]
  }

  /** The positions increase, lie in the text, hold these bytes, and begin no flag. */
  ghost predicate Fits(patterns: seq<bytes>, t: bytes, i: nat, kept: seq<nat>, u: bytes)
    requires [] !in patterns
  {
    && |u| == |kept| && Increasing(kept)
    && forall k :: 0 <= k < |kept| ==>
         i <= kept[k] < |t| && u[k] == t[kept[k]] && Match(patterns, t, kept[k]).None?
  }

  lemma {:induction false} FitsCons(patterns: seq<bytes>, t: bytes, i: nat, kept: seq<nat>, u: bytes)
    requires [] !in patterns && i < |t| && Match(patterns, t, i).None? && Fits(patterns, t, i + 1, kept, u)
    ensures Fits(patterns, t, i, [i] + kept, [t[i]] + u)
  {
    var all := [i] + kept;
    forall k | 0 <= k < |all|
      ensures i <= all[k] < |t| && ([t[i]] + u)[k] == t[all[k]] && Match(patterns, t, all[k]).None?
    {
      if k > 0 {
        assert all[k] == kept[k - 1];
      }
    }
  }

  lemma {:induction false} KeptIs(patterns: seq<bytes>, t: bytes, i: nat)
    requires [] !in patterns && i <= |t|
    ensures Fits(patterns, t, i, Kept(patterns, t, i), Strip(patterns, t, i))
    decreases |t| - i
  {
    if i < |t| {
      var m := Match(patterns, t, i);
      KeptIs(patterns, t, if m.Some? then i + m.value else i + 1);
      if m.None? {
        FitsCons(patterns, t, i, Kept(patterns, t, i + 1), Strip(patterns, t, i + 1));
      }
    }
  }

  /** No pattern is empty or begins with a comma. */
  predicate PlainPatterns(patterns: seq<bytes>) {
    forall k :: 0 <= k < |patterns| ==> patterns[k] != [] && patterns[k][0] != COMMA
  }

  lemma {:induction false} SomePattern(patterns: seq<bytes>, k: nat, u: bytes, p: nat, j: nat)
    requires k <= j < |patterns| && p <= |u| && At(u, p, patterns[j])
    ensures FirstPattern(patterns, k, u, p).Some?
    decreases |patterns| - k
  {
    if !At(u, p, patterns[k]) {
      SomePattern(patterns, k + 1, u, p, j);
    }
  }

  lemma {:induction false} PatternIsFlag(patterns: seq<bytes>, u: bytes, p: nat, j: nat)
    requires PlainPatterns(patterns) && [] !in patterns && j < |patterns| && At(u, p, patterns[j])
    ensures p < |u| && Match(patterns, u, p).Some?
  {
    assert u[p + 0] == patterns[j][0];
    SomePattern(patterns, 0, u, p, j);
  }

  lemma {:induction false} FlagHasPattern(patterns: seq<bytes>, u: bytes, k: nat)
    requires [] !in patterns && k < |u| && Match(patterns, u, k).Some?
    ensures exists p: nat, j: nat :: j < |patterns| && At(u, p, patterns[j])
  {
    var found := FirstPattern(patterns, 0, u, Start(u, k));
    var j :| 0 <= j < |patterns| && patterns[j] == found.value;
    assert At(u, Start(u, k), patterns[j]);
  }

  /** The pattern stands on the kept positions from the `p`-th on. */
  ghost predicate OnKept(t: bytes, kept: seq<nat>, p: nat, pattern: bytes)
    requires forall k :: 0 <= k < |kept| ==> kept[k] < |t|
  {
    p + |pattern| <= |kept| && forall x :: 0 <= x < |pattern| ==> t[kept[p + x]] == pattern[x]
  }

  /** Something was removed between the first and the last of these kept positions. */
  ghost predicate Across(kept: seq<nat>, p: nat, len: nat)
    requires 0 < len && p + len <= |kept|
  {
    kept[p + len - 1] != kept[p] + len - 1
  }

  lemma {:induction false} Spread(kept: seq<nat>, p: nat, x: nat)
    requires Increasing(kept) && p + x < |kept|
    ensures kept[p + x] >= kept[p] + x
    decreases x
  {
    if x > 0 {
      Spread(kept, p, x - 1);
    }
  }

  lemma {:induction false} Together(kept: seq<nat>, p: nat, len: nat, x: nat)
    requires Increasing(kept) && 0 < len && p + len <= |kept| && !Across(kept, p, len) && x < len
    ensures kept[p + x] == kept[p] + x
  {
    Spread(kept, p, x);
    Spread(kept, p + x, len - 1 - x);
    assert p + x + (len - 1 - x) == p + len - 1;
  }

  lemma {:induction false} LiesTogether(t: bytes, kept: seq<nat>, p: nat, pattern: bytes)
    requires Increasing(kept) && (forall k :: 0 <= k < |kept| ==> kept[k] < |t|)
    requires pattern != [] && OnKept(t, kept, p, pattern) && !Across(kept, p, |pattern|)
    ensures At(t, kept[p], pattern)
  {
    forall x | 0 <= x < |pattern| ensures kept[p] + x < |t| && t[kept[p] + x] == pattern[x] {
      Together(kept, p, |pattern|, x);
    }
    Together(kept, p, |pattern|, |pattern| - 1);
  }

  /** A pattern on kept bytes that lie together would have been taken out. */
  lemma {:induction false} OnlyAcross(patterns: seq<bytes>, t: bytes, kept: seq<nat>, u: bytes, p: nat, j: nat)
    requires PlainPatterns(patterns) && [] !in patterns && j < |patterns| && Fits(patterns, t, 0, kept, u)
    requires OnKept(t, kept, p, patterns[j])
    ensures Across(kept, p, |patterns[j]|)
  {
    if !Across(kept, p, |patterns[j]|) {
      LiesTogether(t, kept, p, patterns[j]);
      PatternIsFlag(patterns, t, kept[p], j);
    }
  }

  lemma {:induction false} StandsOnKept(t: bytes, kept: seq<nat>, u: bytes, p: nat, pattern: bytes)
    requires |u| == |kept| && forall k :: 0 <= k < |kept| ==> kept[k] < |t| && u[k] == t[kept[k]]
    ensures At(u, p, pattern) <==> OnKept(t, kept, p, pattern)
  {
  }

  /** A pattern lies across a removed stretch of the text, read on the bytes that are kept. */
  ghost predicate NewFlagAtSeam(patterns: seq<bytes>, t: bytes)
    requires [] !in patterns
  {
    var kept := Kept(patterns, t, 0);
    && (forall k :: 0 <= k < |kept| ==> kept[k] < |t|)
    && exists p: nat, j: nat :: j < |patterns| && OnKept(t, kept, p, patterns[j]) && Across(kept, p, |patterns[j]|)
  }

  /** Stripping again changes nothing exactly when no pattern lies across a removed stretch. */
  lemma {:induction false} StripTwiceIff(patterns: seq<bytes>, t: bytes)
    requires PlainPatterns(patterns) && [] !in patterns
    ensures Strip(patterns, Strip(patterns, t, 0), 0) == Strip(patterns, t, 0) <==> !NewFlagAtSeam(patterns, t)
  {
    var kept, u := Kept(patterns, t, 0), Strip(patterns, t, 0);
    KeptIs(patterns, t, 0);
    StripIsSameIff(patterns, u, 0);
    assert u[0..] == u;
    if p: nat, j: nat :| j < |patterns| && OnKept(t, kept, p, patterns[j]) && Across(kept, p, |patterns[j]|) {
      StandsOnKept(t, kept, u, p, patterns[j]);
      PatternIsFlag(patterns, u, p, j);
    } else if k :| 0 <= k < |u| && Match(patterns, u, k).Some? {
      FlagHasPattern(patterns, u, k);
      var p: nat, j: nat :| j < |patterns| && At(u, p, patterns[j]);
      StandsOnKept(t, kept, u, p, patterns[j]);
      OnlyAcross(patterns, t, kept, u, p, j);
    }
  }

  /** Two bytes stand next to each other in a pattern. */
  ghost predicate Adjacent(patterns: seq<bytes>, a: byte, b: byte) {
    exists j, x :: 0 <= j < |patterns| && 0 <= x < |patterns[j]| - 1 && patterns[j][x] == a && patterns[j][x + 1] == b
  }

  ghost predicate ApartAtSeams(patterns: seq<bytes>, t: bytes, kept: seq<nat>) {
    forall q :: 0 <= q < |kept| - 1 && kept[q] < |t| && kept[q + 1] < |t| && kept[q + 1] != kept[q] + 1 ==>
      !Adjacent(patterns, t[kept[q]], t[kept[q + 1]])
  }

  /** Enough for a caller: no removed stretch has on its two sides bytes that a pattern has next to each other. */
  lemma {:induction false} StripTwiceIsSafe(patterns: seq<bytes>, t: bytes)
    requires PlainPatterns(patterns) && [] !in patterns
    requires ApartAtSeams(patterns, t, Kept(patterns, t, 0))
    ensures Strip(patterns, Strip(patterns, t, 0), 0) == Strip(patterns, t, 0)
  {
    KeptIs(patterns, t, 0);
    NoneAcross(patterns, t, Kept(patterns, t, 0));
    StripTwiceIff(patterns, t);
  }

  lemma {:induction false} NoneAcross(patterns: seq<bytes>, t: bytes, kept: seq<nat>)
    requires PlainPatterns(patterns) && ApartAtSeams(patterns, t, kept)
    requires forall k :: 0 <= k < |kept| ==> kept[k] < |t|
    ensures forall p: nat, j: nat :: j < |patterns| && OnKept(t, kept, p, patterns[j]) ==>
              !Across(kept, p, |patterns[j]|)
  {
    forall p: nat, j: nat | j < |patterns| && OnKept(t, kept, p, patterns[j]) ensures !Across(kept, p, |patterns[j]|) {
      SeamInside(patterns, t, kept, p, j, |patterns[j]|);
    }
  }

  lemma {:induction false} SeamInside(patterns: seq<bytes>, t: bytes, kept: seq<nat>, p: nat, j: nat, len: nat)
    requires j < |patterns| && 0 < len <= |patterns[j]|
    requires (forall k :: 0 <= k < |kept| ==> kept[k] < |t|) && OnKept(t, kept, p, patterns[j])
    requires ApartAtSeams(patterns, t, kept)
    ensures kept[p + len - 1] == kept[p] + len - 1
    decreases len
  {
    if len > 1 {
      SeamInside(patterns, t, kept, p, j, len - 1);
      var q := p + len - 2;
      assert t[kept[p + (len - 2)]] == patterns[j][len - 2] && t[kept[p + (len - 1)]] == patterns[j][len - 2 + 1];
      assert Adjacent(patterns, t[kept[q]], t[kept[q + 1]]);
    }
  }

  const AVB: bytes := [0x61, 0x76, 0x62]
  const VERITY: seq<bytes> :=
    [ [0x76, 0x65, 0x72, 0x69, 0x66, 0x79, 0x61, 0x74, 0x62, 0x6f, 0x6f, 0x74],
      [0x76, 0x65, 0x72, 0x69, 0x66, 0x79],
      [0x61, 0x76, 0x62, 0x5f, 0x6b, 0x65, 0x79, 0x73],
      AVB,
      [0x73, 0x75, 0x70, 0x70, 0x6f, 0x72, 0x74, 0x5f, 0x73, 0x63, 0x66, 0x73],
      [0x66, 0x73, 0x76, 0x65, 0x72, 0x69, 0x74, 0x79] ]
  const ENCRYPTION: seq<bytes> :=
    [ [0x66, 0x6f, 0x72, 0x63, 0x65, 0x65, 0x6e, 0x63, 0x72, 0x79, 0x70, 0x74],
      [0x66, 0x6f, 0x72, 0x63, 0x65, 0x66, 0x64, 0x65, 0x6f, 0x72, 0x66, 0x62, 0x65],
      [0x66, 0x69, 0x6c, 0x65, 0x65, 0x6e, 0x63, 0x72, 0x79, 0x70, 0x74, 0x69, 0x6f, 0x6e] ]

  ghost predicate OthersDiffer(patterns: seq<bytes>) {
    && [] !in patterns && AVB in patterns
    && forall k :: 0 <= k < |patterns| ==>
         patterns[k] == AVB || |patterns[k]| > 6 || (|patterns[k]| == 6 && patterns[k][0] != 0x61)
  }

  lemma {:induction false} NonePattern(patterns: seq<bytes>, k: nat, t: bytes, i: nat)
    requires k <= |patterns| && i <= |t| && forall j :: 0 <= j < |patterns| ==> !At(t, i, patterns[j])
    ensures FirstPattern(patterns, k, t, i).None?
    decreases |patterns| - k
  {
    if k < |patterns| {
      NonePattern(patterns, k + 1, t, i);
    }
  }

  lemma {:induction false} FindsAvb(patterns: seq<bytes>, k: nat, t: bytes, i: nat)
    requires OthersDiffer(patterns) && k <= |patterns| && AVB in patterns[k..]
    requires i <= |t| <= i + 5 && At(t, i, AVB)
    ensures FirstPattern(patterns, k, t, i) == Some(AVB)
    decreases |patterns| - k
  {
    if patterns[k] != AVB {
      FindsAvb(patterns, k + 1, t, i);
    }
  }

  /** A removal can put together a new flag: "aavbvb" is stripped to "avb", and that to nothing. */
  lemma {:induction false} StripIsNotIdempotent(patterns: seq<bytes>, t: bytes)
    requires OthersDiffer(patterns)
    requires |t| == 6 && t[0] == t[1] == 0x61 && t[2] == t[4] == 0x76 && t[3] == t[5] == 0x62
    ensures Strip(patterns, t, 0) == AVB && Strip(patterns, AVB, 0) == []
  {
    assert patterns[0..] == patterns;
    forall k | 0 <= k < |patterns| ensures !At(t, 0, patterns[k]) {
      if patterns[k] == AVB {
        assert t[0 + 1] != AVB[1];
      } else if |patterns[k]| == 6 {
        assert t[0 + 0] != patterns[k][0];
      }
    }
    NonePattern(patterns, 0, t, 0);
    assert At(t, 1, AVB);
    FindsAvb(patterns, 0, t, 1);
    NonePattern(patterns, 0, t, 4);
    NonePattern(patterns, 0, t, 5);
    assert Strip(patterns, t, 5) == [0x62];
    assert Strip(patterns, t, 4) == [0x76, 0x62];
    assert Match(patterns, t, 1) == Some(3);
    assert Strip(patterns, t, 1) == Strip(patterns, t, 4);
    FindsAvb(patterns, 0, AVB, 0);
    assert Match(patterns, AVB, 0) == Some(3);
  }

  lemma {:induction false} VerityStripIsNotIdempotent()
    ensures [] !in VERITY && exists t: bytes :: Strip(VERITY, Strip(VERITY, t, 0), 0) != Strip(VERITY, t, 0)
  {
    var t: bytes := [0x61, 0x61, 0x76, 0x62, 0x76, 0x62];
    assert VERITY[3] == AVB;
    StripIsNotIdempotent(VERITY, t);
    assert Strip(VERITY, Strip(VERITY, t, 0), 0) == [];
  }

  lemma {:induction false} FlagsArePlain()
    ensures PlainPatterns(VERITY) && [] !in VERITY && PlainPatterns(ENCRYPTION) && [] !in ENCRYPTION
  {
  }

  lemma {:induction false} FlagListIsPlain(flags: seq<bytes>)
    requires flags == VERITY || flags == ENCRYPTION
    ensures PlainPatterns(flags) && [] !in flags
  {
    FlagsArePlain();
  }

  /** For the verity flags and for the encryption flags, patching again changes nothing exactly when no flag does. */
  lemma {:induction false} PatchTwiceIff(flags: seq<bytes>, t: bytes)
    requires flags == VERITY || flags == ENCRYPTION
    ensures [] !in flags
    ensures Strip(flags, Strip(flags, t, 0), 0) == Strip(flags, t, 0) <==> !NewFlagAtSeam(flags, t)
  {
    FlagListIsPlain(flags);
    StripTwiceIff(flags, t);
  }

  method PatchVerity(buf: array<byte>) returns (sz: nat)
    modifies buf
    ensures [] !in VERITY && sz == |Strip(VERITY, old(buf[..]), 0)|
    ensures buf[..] == Strip(VERITY, old(buf[..]), 0) + Zeros(buf.Length - sz)
  {
    sz := RemovePattern(buf, VERITY);
  }

  method PatchEncryption(buf: array<byte>) returns (sz: nat)
    modifies buf
    ensures [] !in ENCRYPTION && sz == |Strip(ENCRYPTION, old(buf[..]), 0)|
    ensures buf[..] == Strip(ENCRYPTION, old(buf[..]), 0) + Zeros(buf.Length - sz)
  {
    sz := RemovePattern(buf, ENCRYPTION);
  }
}
