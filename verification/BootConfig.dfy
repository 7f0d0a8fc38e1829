/** The key-value parser of native/src/init/getinfo.cpp. */
module BootConfig {
  /** The delimiter of entries, the assignment sign, and the padding allowed around it. */
  datatype Form = Form(delim: char, eq: char, padding: set<char>)

  const CMDLINE := Form(' ', '=', {})
  const BOOTCONFIG := Form('\n', '=', {' '})
  const PARTITION_MAP := Form(';', ',', {})

  const QUOTE: char := '"'

  // ---------------------------------------------------------------------
  // One key or value
  // ---------------------------------------------------------------------

  /** Scanning stops at a break, and outside quotes at an escape. */
  predicate Stops(escapes: set<char>, breaks: set<char>, c: char, quoted: bool) {
    c in breaks || (!quoted && c in escapes)
  }

  /** The text up to the stop without its quotes, where the scan stops, and whether inside quotes. */
  function Extract(escapes: set<char>, breaks: set<char>, s: string, i: nat, quoted: bool): (r: (string, nat, bool))
    requires i <= |s|
    ensures i <= r.1 <= |s|
    decreases |s| - i
  {
    if i == |s| || Stops(escapes, breaks, s[i], quoted) then ("", i, quoted)
    else if s[i] == QUOTE then Extract(escapes, breaks, s, i + 1, !quoted)
    else
      var (rest, end, q) := Extract(escapes, breaks, s, i + 1, quoted);
      ([s[i]] + rest, end, q)
  }

  method FindFirstOf(s: string, chars: set<char>, from: nat) returns (i: nat)
    requires from <= |s|
    ensures from <= i <= |s| && (i < |s| ==> s[i] in chars)
    ensures forall k :: from <= k < i ==> s[k] !in chars
  {
    i := from;
    while i < |s| && s[i] !in chars
      invariant from <= i <= |s| && forall k :: from <= k < i ==> s[k] !in chars
    {
      i := i + 1;
    }
  }

  function SkipAll(s: string, chars: set<char>, i: nat): (j: nat)
    requires i <= |s|
    ensures i <= j <= |s| && (j < |s| ==> s[j] !in chars)
    ensures i < |s| && s[i] in chars ==> i < j
    decreases |s| - i
  {
    if i < |s| && s[i] in chars then SkipAll(s, chars, i + 1) else i
  }

  method FindFirstNotOf(s: string, chars: set<char>, from: nat) returns (i: nat)
    requires from <= |s|
    ensures i == SkipAll(s, chars, from)
  {
    i := from;
    while i < |s| && s[i] in chars
      invariant from <= i <= |s| && SkipAll(s, chars, from) == SkipAll(s, chars, i)
    {
      i := i + 1;
    }
  }

  /** Characters nothing happens at are taken as they are. */
  lemma {:induction false} ExtractPlain(escapes: set<char>, breaks: set<char>, s: string, i: nat, j: nat, quoted: bool)
    requires i <= j <= |s| && forall k :: i <= k < j ==> s[k] != QUOTE && !Stops(escapes, breaks, s[k], quoted)
    ensures var (rest, end, q) := Extract(escapes, breaks, s, j, quoted);
            Extract(escapes, breaks, s, i, quoted) == (s[i..j] + rest, end, q)
    decreases j - i
  {
    if i < j {
      ExtractPlain(escapes, breaks, s, i + 1, j, quoted);
      assert s[i..j] == [s[i]] + s[i + 1..j];
      Joined([s[i]], s[i + 1..j], Extract(escapes, breaks, s, j, quoted).0);
    } else {
      var rest := Extract(escapes, breaks, s, j, quoted).0;
      assert s[i..j] + rest == rest;
    }
  }

  lemma {:induction false} Joined(a: string, b: string, c: string)
    ensures a + b + c == a + (b + c)
  {
  }

  method ExtractQuotedStrUntil(escapes: set<char>, breaks: set<char>, s: string, start: nat, wasQuoted: bool)
      returns (result: string, pos: nat, quoted: bool)
    requires start <= |s|
    ensures (result, pos, quoted) == Extract(escapes, breaks, s, start, wasQuoted)
  {
    result, pos, quoted := "", start, wasQuoted;
    var cur := start;
    ghost var whole := Extract(escapes, breaks, s, start, wasQuoted);
    assert "" + whole.0 == whole.0;
    while true
      invariant start <= pos <= cur <= |s|
      invariant forall k :: pos <= k < cur ==> s[k] != QUOTE && !Stops(escapes, breaks, s[k], quoted)
      invariant var (rest, end, q) := Extract(escapes, breaks, s, pos, quoted); whole == (result + rest, end, q)
      decreases |s| - cur
    {
      cur := FindFirstOf(s, escapes + breaks + {QUOTE}, cur);
      ExtractPlain(escapes, breaks, s, pos, cur, quoted);
      if cur == |s| || s[cur] in breaks || (!quoted && s[cur] in escapes) {
        assert s[pos..cur] + "" == s[pos..cur];
        result := result + s[pos..cur];
        pos := cur;
        return;
      }
      if s[cur] == QUOTE {
        Joined(result, s[pos..cur], Extract(escapes, breaks, s, cur + 1, !quoted).0);
        quoted := !quoted;
        result := result + s[pos..cur];
        pos := cur + 1;
      }
      cur := cur + 1;
    }
  }

  // ---------------------------------------------------------------------
  // All pairs
  // ---------------------------------------------------------------------

  type Pairs = seq<(string, string)>

  datatype Entry = Entry(key: string, value: string, next: nat, quoted: bool)

  /** The entry at `pos`, where the next one begins, and whether inside quotes there. */
  function One(f: Form, s: string, pos: nat, quoted: bool): (r: Entry)
    requires pos < |s|
    ensures pos < r.next <= |s|
  {
    var (key, a, q) := Extract(f.padding + {f.delim}, {f.eq}, s, pos, quoted);
    var b := SkipAll(s, f.padding + {f.eq}, a);
    if b == |s| || s[b] == f.delim then Entry(key, "", SkipAll(s, {f.delim}, b), q)
    else
      var (value, c, r) := Extract({f.delim}, {}, s, b, q);
      Entry(key, value, SkipAll(s, {f.delim}, c), r)
  }

  method ParseOne(f: Form, s: string, start: nat, wasQuoted: bool)
      returns (key: string, value: string, pos: nat, quoted: bool)
    requires start < |s|
    ensures Entry(key, value, pos, quoted) == One(f, s, start, wasQuoted)
  {
    key, pos, quoted := ExtractQuotedStrUntil(f.padding + {f.delim}, {f.eq}, s, start, wasQuoted);
    pos := FindFirstNotOf(s, f.padding + {f.eq}, pos);
    if pos == |s| || s[pos] == f.delim {
      value := "";
    } else {
      value, pos, quoted := ExtractQuotedStrUntil({f.delim}, {}, s, pos, quoted);
    }
    pos := FindFirstNotOf(s, {f.delim}, pos);
  }

  function ParseFrom(f: Form, s: string, pos: nat, quoted: bool): Pairs
    requires pos <= |s|
    decreases |s| - pos
  {
    if pos == |s| then []
    else
      var e := One(f, s, pos, quoted);
      [(e.key, e.value)] + ParseFrom(f, s, e.next, e.quoted)
  }

  lemma {:induction false} JoinedPairs(a: Pairs, b: (string, string), c: Pairs)
    ensures a + [b] + c == a + ([b] + c)
  {
  }

  /** The parser; it comes to an end on every input. */
  method Parse(f: Form, s: string) returns (kv: Pairs)
    ensures kv == ParseFrom(f, s, 0, false)
  {
    kv := [];
    var pos, quoted := 0, false;
    while pos < |s|
      invariant pos <= |s| && kv + ParseFrom(f, s, pos, quoted) == ParseFrom(f, s, 0, false)
      decreases |s| - pos
    {
      ghost var before := kv;
      var key, value;
      key, value, pos, quoted := ParseOne(f, s, pos, quoted);
      kv := kv + [(key, value)];
      JoinedPairs(before, (key, value), ParseFrom(f, s, pos, quoted));
    }
  }

  // ---------------------------------------------------------------------
  // The round trip
  // ---------------------------------------------------------------------

  /** The value is in quotes, or bare, or there is neither value nor assignment sign. */
  datatype Style = Quoted | Bare | Alone

  /** A key and a value, and the padding written before and after the assignment sign. */
  datatype Item = Item(key: string, before: string, after: string, value: string, style: Style)

  predicate Proper(f: Form) {
    && f.delim != f.eq && f.delim != QUOTE && f.eq != QUOTE
    && f.delim !in f.padding && f.eq !in f.padding && QUOTE !in f.padding
  }

  /** A bare value is free of delimiters too, and does not begin like padding or an assignment. */
  predicate BareValue(f: Form, value: string) {
    f.delim !in value && (value != "" ==> value[0] != f.eq && value[0] !in f.padding)
  }

  /** Keys are free of delimiter, assignment, padding and quote; values are free of quotes. */
  predicate Writable(f: Form, x: Item) {
    && (forall c :: c in x.key ==> c != f.delim && c != f.eq && c != QUOTE && c !in f.padding)
    && (forall c :: c in x.before + x.after ==> c in f.padding)
    && QUOTE !in x.value
    && (x.style.Bare? ==> BareValue(f, x.value)) && (x.style.Alone? ==> x.key != "" && x.value == "")
  }

  function ValueText(x: Item): string {
    if x.style.Quoted? then [QUOTE] + x.value + [QUOTE] else x.value
  }

  /** What stands between key and value. */
  function SignText(f: Form, x: Item): string {
    if x.style.Alone? then x.before else x.before + [f.eq] + x.after
  }

  function ItemText(f: Form, x: Item): string {
    x.key + SignText(f, x) + ValueText(x)
  }

  /** The items from `i` on, with a delimiter between them; `end` may hold more delimiters. */
  function Text(f: Form, items: seq<Item>, i: nat, end: string): string
    requires i <= |items|
    decreases |items| - i
  {
    if i == |items| then end
    else ItemText(f, items[i]) + (if i + 1 < |items| then [f.delim] else "") + Text(f, items, i + 1, end)
  }

  /** Part `p` of the text lies at `i`. */
  predicate Here(s: string, i: nat, p: string) {
    i + |p| <= |s| && forall k :: 0 <= k < |p| ==> s[i + k] == p[k]
  }

  lemma {:induction false} SkipTo(s: string, chars: set<char>, i: nat, j: nat)
    requires i <= j <= |s| && (forall k :: i <= k < j ==> s[k] in chars) && (j < |s| ==> s[j] !in chars)
    ensures SkipAll(s, chars, i) == j
    decreases j - i
  {
    if i < j {
      SkipTo(s, chars, i + 1, j);
    }
  }

  /** Where the parts of an item lie. */
  ghost predicate Laid(f: Form, s: string, pos: nat, x: Item, sign: nat, at: nat, end: nat) {
    && Here(s, pos, x.key) && pos + |x.key| == sign <= at <= end <= |s|
    && (forall k :: sign <= k < at ==> s[k] == f.eq || s[k] in f.padding)
    && Here(s, at, ValueText(x)) && at + |ValueText(x)| == end
    && (end < |s| ==> s[end] == f.delim)
  }

  lemma {:induction false} ReadKey(f: Form, s: string, pos: nat, x: Item, sign: nat, at: nat, end: nat)
    requires Proper(f) && Writable(f, x) && Laid(f, s, pos, x, sign, at, end)
    requires sign == at ==> at == end
    ensures Extract(f.padding + {f.delim}, {f.eq}, s, pos, false) == (x.key, sign, false)
  {
    forall k | pos <= k < sign ensures s[k] != QUOTE && !Stops(f.padding + {f.delim}, {f.eq}, s[k], false) {
      assert s[pos + (k - pos)] == x.key[k - pos] && x.key[k - pos] in x.key;
    }
    ExtractPlain(f.padding + {f.delim}, {f.eq}, s, pos, sign, false);
    assert sign < |s| ==> s[sign] == f.eq || s[sign] in f.padding || s[sign] == f.delim;
    assert s[pos..sign] == x.key;
    assert x.key + "" == x.key;
  }

  lemma {:induction false} ReadSign(f: Form, s: string, pos: nat, x: Item, sign: nat, at: nat, end: nat)
    requires Proper(f) && Writable(f, x) && Laid(f, s, pos, x, sign, at, end)
    ensures SkipAll(s, f.padding + {f.eq}, sign) == at
  {
    if ValueText(x) != "" {
      assert s[at + 0] == ValueText(x)[0];
    }
    SkipTo(s, f.padding + {f.eq}, sign, at);
  }

  lemma {:induction false} ReadQuoted(f: Form, s: string, at: nat, value: string, end: nat)
    requires Proper(f) && QUOTE !in value && Here(s, at, [QUOTE] + value + [QUOTE]) && end == at + |value| + 2
    requires end < |s| ==> s[end] == f.delim
    ensures Extract({f.delim}, {}, s, at, false) == (value, end, false)
  {
    var t, close := [QUOTE] + value + [QUOTE], at + 1 + |value|;
    assert s[at + 0] == t[0] && s[at + (1 + |value|)] == t[1 + |value|];
    forall k | at + 1 <= k < close ensures s[k] == value[k - at - 1] && s[k] != QUOTE {
      assert s[at + (k - at)] == t[k - at] == value[k - at - 1] && value[k - at - 1] in value;
    }
    ExtractPlain({f.delim}, {}, s, at + 1, close, true);
    assert s[at + 1..close] == value;
    assert value + "" == value;
    assert Extract({f.delim}, {}, s, end, false) == ("", end, false);
    assert Extract({f.delim}, {}, s, close, true) == ("", end, false);
  }

  lemma {:induction false} ReadBare(f: Form, s: string, at: nat, value: string, end: nat)
    requires Proper(f) && QUOTE !in value && f.delim !in value && Here(s, at, value) && end == at + |value|
    requires end < |s| ==> s[end] == f.delim
    ensures Extract({f.delim}, {}, s, at, false) == (value, end, false)
  {
    forall k | at <= k < end ensures s[k] != QUOTE && !Stops({f.delim}, {}, s[k], false) {
      assert s[at + (k - at)] == value[k - at] && value[k - at] in value;
    }
    ExtractPlain({f.delim}, {}, s, at, end, false);
    assert s[at..end] == value;
    assert value + "" == value;
  }

  lemma {:induction false} ReadItem(f: Form, s: string, pos: nat, x: Item, sign: nat, at: nat, end: nat)
    requires Proper(f) && Writable(f, x) && Laid(f, s, pos, x, sign, at, end) && pos < |s|
    requires sign == at ==> at == end
    ensures One(f, s, pos, false) == Entry(x.key, x.value, SkipAll(s, {f.delim}, end), false)
  {
    ReadKey(f, s, pos, x, sign, at, end);
    ReadSign(f, s, pos, x, sign, at, end);
    if at < end {
      assert s[at + 0] == ValueText(x)[0];
      if x.style.Quoted? {
        ReadQuoted(f, s, at, x.value, end);
      } else {
        assert s[at] in x.value;
        ReadBare(f, s, at, x.value, end);
      }
    }
  }

  lemma {:induction false} SignIs(f: Form, x: Item, k: nat)
    requires Writable(f, x) && k < |SignText(f, x)|
    ensures SignText(f, x)[k] == f.eq || SignText(f, x)[k] in f.padding
  {
    var t := SignText(f, x);
    if k < |x.before| {
      assert t[k] == x.before[k] && x.before[k] in x.before + x.after;
    } else if k > |x.before| {
      assert t[k] == x.after[k - |x.before| - 1] && x.after[k - |x.before| - 1] in x.before + x.after;
    }
  }

  lemma {:induction false} LayItem(f: Form, s: string, pos: nat, x: Item) returns (sign: nat, at: nat, end: nat)
    requires Writable(f, x) && Here(s, pos, ItemText(f, x))
    requires pos + |ItemText(f, x)| < |s| ==> s[pos + |ItemText(f, x)|] == f.delim
    ensures Laid(f, s, pos, x, sign, at, end) && end == pos + |ItemText(f, x)| && (sign == at ==> at == end)
  {
    var t := ItemText(f, x);
    sign := pos + |x.key|;
    at := sign + |SignText(f, x)|;
    end := at + |ValueText(x)|;
    forall k | 0 <= k < |x.key| ensures s[pos + k] == x.key[k] {
      assert t[k] == x.key[k];
    }
    forall k | sign <= k < at ensures s[k] == f.eq || s[k] in f.padding {
      assert s[pos + (k - pos)] == t[k - pos] == SignText(f, x)[k - sign];
      SignIs(f, x, k - sign);
    }
    forall k | 0 <= k < |ValueText(x)| ensures s[at + k] == ValueText(x)[k] {
      assert s[pos + (at - pos + k)] == t[at - pos + k] == ValueText(x)[k];
    }
  }

  ghost function PairsOf(items: seq<Item>, i: nat): Pairs
    requires i <= |items|
    decreases |items| - i
  {
    if i == |items| then [] else [(items[i].key, items[i].value)] + PairsOf(items, i + 1)
  }

  lemma {:induction false} Placed(s: string, pre: string, t: string, rest: string)
    requires s == pre + (t + rest)
    ensures Here(s, |pre|, t) && s == pre + t + rest
    ensures |s| == |pre| + |t| + |rest| && forall k :: |pre| + |t| <= k < |s| ==> s[k] == rest[k - |pre| - |t|]
  {
  }

  lemma {:induction false} MiddleEntry(f: Form, s: string, pre: string, x: Item, rest: string)
    requires Proper(f) && Writable(f, x) && s == pre + (ItemText(f, x) + ([f.delim] + rest)) && rest != "" &&
      rest[0] != f.delim
    ensures |pre| < |s| && One(f, s, |pre|, false) == Entry(x.key, x.value, |pre| + |ItemText(f, x)| + 1, false)
  {
    Placed(s, pre, ItemText(f, x), [f.delim] + rest);
    var sign, at, end := LayItem(f, s, |pre|, x);
    assert s[end] == f.delim && s[end + 1] == rest[0];
    SkipTo(s, {f.delim}, end, end + 1);
    ReadItem(f, s, |pre|, x, sign, at, end);
  }

  lemma {:induction false} ParseEntry(f: Form, s: string, pos: nat, e: Entry)
    requires pos < |s| && One(f, s, pos, false) == e && !e.quoted
    ensures e.next <= |s| && ParseFrom(f, s, pos, false) == [(e.key, e.value)] + ParseFrom(f, s, e.next, false)
  {
  }

  lemma {:induction false} ReadMiddle(f: Form, s: string, pre: string, t: string, x: Item, rest: string, next: string)
    requires Proper(f) && Writable(f, x) && t == ItemText(f, x) && s == pre + (t + ([f.delim] + rest))
    requires rest != "" && rest[0] != f.delim && next == pre + t + [f.delim]
    ensures s == next + rest && |pre| < |s|
    ensures ParseFrom(f, s, |pre|, false) == [(x.key, x.value)] + ParseFrom(f, s, |next|, false)
  {
    assert s == next + rest by {
      Placed(s, pre, t, [f.delim] + rest);
      Joined(pre + t, [f.delim], rest);
    }
    MiddleEntry(f, s, pre, x, rest);
    ParseEntry(f, s, |pre|, Entry(x.key, x.value, |next|, false));
  }

  lemma {:induction false} ReadLast(f: Form, s: string, pre: string, x: Item, end: string)
    requires Proper(f) && Writable(f, x) && s == pre + (ItemText(f, x) + end) && forall c :: c in end ==> c == f.delim
    ensures ParseFrom(f, s, |pre|, false) == [(x.key, x.value)]
  {
    Placed(s, pre, ItemText(f, x), end);
    ItemStarts(f, x);
    var stop := |pre| + |ItemText(f, x)|;
    forall k | stop <= k < |s| ensures s[k] == f.delim {
      assert s[k] == end[k - stop] && end[k - stop] in end;
    }
    var sign, at, last := LayItem(f, s, |pre|, x);
    SkipTo(s, {f.delim}, stop, |s|);
    ReadItem(f, s, |pre|, x, sign, at, last);
  }

  lemma {:induction false} TextSplits(f: Form, items: seq<Item>, i: nat, end: string)
    requires i < |items|
    ensures i + 1 < |items| ==>
      Text(f, items, i, end) == ItemText(f, items[i]) + ([f.delim] + Text(f, items, i + 1, end))
    ensures i + 1 == |items| ==> Text(f, items, i, end) == ItemText(f, items[i]) + end
  {
    if i + 1 < |items| {
      Joined(ItemText(f, items[i]), [f.delim], Text(f, items, i + 1, end));
    } else {
      assert ItemText(f, items[i]) + "" == ItemText(f, items[i]);
    }
  }

  /** Keys alone, and keys with a bare or a quoted value, are read back as they were. */
  lemma {:induction false} ParseText(f: Form, items: seq<Item>, i: nat, pre: string, end: string, s: string)
    requires Proper(f) && i < |items| && (forall k :: 0 <= k < |items| ==> Writable(f, items[k]))
    requires s == pre + Text(f, items, i, end) && forall c :: c in end ==> c == f.delim
    ensures ParseFrom(f, s, |pre|, false) == PairsOf(items, i)
    decreases |items| - i
  {
    var x, t := items[i], ItemText(f, items[i]);
    TextSplits(f, items, i, end);
    if i + 1 < |items| {
      var rest := Text(f, items, i + 1, end);
      TextStarts(f, items, i + 1, end);
      var next := pre + t + [f.delim];
      ReadMiddle(f, s, pre, t, x, rest, next);
      ParseText(f, items, i + 1, next, end, s);
    } else {
      ReadLast(f, s, pre, x, end);
      assert PairsOf(items, i + 1) == [];
    }
  }

  lemma {:induction false} TextStarts(f: Form, items: seq<Item>, i: nat, end: string)
    requires Proper(f) && i < |items| && Writable(f, items[i])
    ensures Text(f, items, i, end) != "" && Text(f, items, i, end)[0] != f.delim
  {
    ItemStarts(f, items[i]);
    assert Text(f, items, i, end)[0] == ItemText(f, items[i])[0];
  }

  lemma {:induction false} ItemStarts(f: Form, x: Item)
    requires Proper(f) && Writable(f, x)
    ensures ItemText(f, x) != "" && ItemText(f, x)[0] != f.delim
  {
    var t := ItemText(f, x);
    if x.key != "" {
      assert t[0] == x.key[0] && x.key[0] in x.key;
    } else {
      assert t[0] == SignText(f, x)[0];
      SignIs(f, x, 0);
    }
  }

  /** For each of the three forms, and with any number of delimiters at the end. */
  lemma {:induction false} FormsRoundTrip(f: Form, items: seq<Item>, end: string)
    requires f in {CMDLINE, BOOTCONFIG, PARTITION_MAP} && (items == [] ==> end == "")
    requires (forall k :: 0 <= k < |items| ==> Writable(f, items[k])) && forall c :: c in end ==> c == f.delim
    ensures ParseFrom(f, Text(f, items, 0, end), 0, false) == PairsOf(items, 0)
  {
    var s := Text(f, items, 0, end);
    if items != [] {
      assert s == "" + s;
      ParseText(f, items, 0, "", end, s);
    }
  }
}
