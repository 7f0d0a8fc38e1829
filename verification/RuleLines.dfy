/**
 * Whole rule lines, as a person writes them (native/src/sepolicy/statement.rs): names alone,
 * in braces or as a star, and ioctls in braces, behind a tilde, as a star or alone.
 */
module RuleLines {
  import opened Options
  import opened Xperms
  import opened XpermText
  import Rules = AvRules

  // ---------------------------------------------------------------------
  // How the lines are written
  // ---------------------------------------------------------------------

  /** No name is a star, one stands alone, several stand in braces. */
  function TermWords(names: seq<string>): seq<string> {
    if names == [] then ["*"] else if |names| == 1 then names else ["{"] + names + ["}"]
  }

  // ---------------------------------------------------------------------
  // How numbers are written
  // ---------------------------------------------------------------------

  const LOWER := "0123456789abcdef"
  const UPPER := "0123456789ABCDEF"

  datatype Digit = Digit(value: nat, upper: bool)

  /** A number with its prefix; a plus sign may lead, digits may be of either case, zeros may lead. */
  datatype Number = Number(plus: bool, digits: seq<Digit>)

  predicate IsDigit(d: Digit) {
    d.value < 16
  }

  function DigitChar(d: Digit): char
    requires IsDigit(d)
  {
    if d.upper then UPPER[d.value] else LOWER[d.value]
  }

  function DigitsValue(ds: seq<Digit>): nat {
    if ds == [] then 0 else DigitsValue(ds[..|ds| - 1]) * 16 + ds[|ds| - 1].value
  }

  predicate IsNumber(n: Number) {
    n.digits != [] && (forall k :: 0 <= k < |n.digits| ==> IsDigit(n.digits[k])) && DigitsValue(n.digits) < 0x1_0000
  }

  function DigitsText(ds: seq<Digit>): (t: string)
    requires forall k :: 0 <= k < |ds| ==> IsDigit(ds[k])
    ensures |t| == |ds| && forall k :: 0 <= k < |ds| ==> t[k] == DigitChar(ds[k])
  {
    seq(|ds|, k requires 0 <= k < |ds| => DigitChar(ds[k]))
  }

  function NumberText(n: Number): string
    requires IsNumber(n)
  {
    "0x" + (if n.plus then "+" else "") + DigitsText(n.digits)
  }

  lemma {:induction false} DigitReads(d: Digit)
    requires IsDigit(d)
    ensures HexDigit(DigitChar(d)) == Some(d.value)
    ensures DigitChar(d) != '-' && DigitChar(d) != '+' && Calm(DigitChar(d))
  {
    assert LOWER[10] == 'a' && UPPER[10] == 'A' && LOWER[0] == '0' && UPPER[0] == '0';
  }

  lemma {:induction false} DigitsRead(ds: seq<Digit>, t: string, n: nat)
    requires (forall k :: 0 <= k < |ds| ==> IsDigit(ds[k])) && t == DigitsText(ds) && n <= |ds|
    requires DigitsValue(ds[..n]) < 0x1_0000
    ensures HexValue(t, n) == Some(DigitsValue(ds[..n]))
  {
    if n > 0 {
      assert ds[..n][..n - 1] == ds[..n - 1] && ds[..n][n - 1] == ds[n - 1];
      DigitReads(ds[n - 1]);
      DigitsRead(ds, t, n - 1);
    }
  }

  /** A word for a number: nothing in it splits it, and no dash. */
  predicate NumberWord(s: string) {
    |s| > 2 && s[0] == '0' && s[1] == 'x' && forall i :: 0 <= i < |s| ==> s[i] != '-' && Calm(s[i])
  }

  lemma {:induction false} PrefixRead(s: string, plus: bool, t: string, v: nat)
    requires s == "0x" + (if plus then "+" else "") + t && t != "" && t[0] != '+' && HexValue(t, |t|) == Some(v)
    ensures ParseHex(s) == Some(v)
  {
    if plus {
      assert s[2..] == "+" + t && (s[2..])[1..] == t;
    } else {
      assert s[2..] == t;
    }
  }

  lemma {:induction false} NumberReads(n: Number, s: string)
    requires IsNumber(n) && s == NumberText(n)
    ensures ParseHex(s) == Some(DigitsValue(n.digits)) && NumberWord(s)
  {
    var t := DigitsText(n.digits);
    forall k | 0 <= k < |t| ensures t[k] != '-' && t[k] != '+' && Calm(t[k]) {
      DigitReads(n.digits[k]);
    }
    assert n.digits[..|t|] == n.digits;
    DigitsRead(n.digits, t, |t|);
    PrefixRead(s, n.plus, t, DigitsValue(n.digits));
  }

  // ---------------------------------------------------------------------
  // How ioctls are written
  // ---------------------------------------------------------------------

  /** An item: a number, or a range in one word. */
  datatype Item = Lone(a: Number) | Joined(a: Number, b: Number)

  predicate IsItem(x: Item) {
    IsNumber(x.a) && (x.Joined? ==> IsNumber(x.b))
  }

  predicate AreItems(xs: seq<Item>) {
    forall k :: 0 <= k < |xs| ==> IsItem(xs[k])
  }

  function WordOf(x: Item): string
    requires IsItem(x)
  {
    if x.Lone? then NumberText(x.a) else NumberText(x.a) + "-" + NumberText(x.b)
  }

  function XpermOf(x: Item, reset: bool): Xperm {
    Xperm(DigitsValue(x.a.digits), DigitsValue(if x.Lone? then x.a.digits else x.b.digits), reset)
  }

  function XpermsOf(xs: seq<Item>, reset: bool): (ys: seq<Xperm>)
    ensures |ys| == |xs| && forall k :: 0 <= k < |xs| ==> ys[k] == XpermOf(xs[k], reset)
  {
    seq(|xs|, k requires 0 <= k < |xs| => XpermOf(xs[k], reset))
  }

  datatype Ioctls = Braces(xs: seq<Item>) | Tilde(xs: seq<Item>) | Star | One(x: Item)

  function ItemWords(xs: seq<Item>): (ws: seq<string>)
    requires AreItems(xs)
    ensures |ws| == |xs| && forall k :: 0 <= k < |xs| ==> ws[k] == WordOf(xs[k])
  {
    seq(|xs|, k requires 0 <= k < |xs| => WordOf(xs[k]))
  }

  predicate Writable(f: Ioctls) {
    match f
    case Braces(xs) => xs != [] && AreItems(xs)
    case Tilde(xs) => xs != [] && AreItems(xs)
    case Star => true
    case One(x) => IsItem(x)
  }

  function IoctlWords(f: Ioctls): seq<string>
    requires Writable(f)
  {
    match f
    case Braces(xs) => ["{"] + ItemWords(xs) + ["}"]
    case Tilde(xs) => ["~{"] + ItemWords(xs) + ["}"]
    case Star => ["*"]
    case One(x) => [WordOf(x)]
  }

  /** The lone number zero. */
  predicate IsZero(x: Item) {
    x.Lone? && DigitsValue(x.a.digits) == 0
  }

  /** What the ioctls of a line mean. */
  function Meaning(f: Ioctls): seq<Xperm> {
    match f
    case Braces(xs) => XpermsOf(xs, false)
    case Tilde(xs) => XpermsOf(xs, true)
    case Star => [Xperm(0, 0xFFFF, false)]
    case One(x) => [if IsZero(x) then Xperm(0, 0xFFFF, false) else XpermOf(x, false)]
  }

  function AvName(action: Token): string {
    if action == AL then "allow"
    else if action == DN then "deny"
    else if action == AA then "auditallow"
    else "dontaudit"
  }

  predicate ArePlainIds(names: seq<string>) {
    forall k :: 0 <= k < |names| ==> PlainId(names[k])
  }

  function AvWords(action: Token, s: seq<string>, t: seq<string>, c: seq<string>, p: seq<string>): seq<string> {
    [AvName(action)] + (TermWords(s) + (TermWords(t) + (TermWords(c) + TermWords(p))))
  }

  function XpermWords(action: Token, s: seq<string>, t: seq<string>, c: seq<string>, f: Ioctls): seq<string>
    requires Writable(f)
  {
    [ActionName(action)] + (TermWords(s) + (TermWords(t) + (TermWords(c) + (["ioctl"] + IoctlWords(f)))))
  }

  // ---------------------------------------------------------------------
  // Tokens
  // ---------------------------------------------------------------------

  function Ids(names: seq<string>): (ts: seq<Token>)
    ensures |ts| == |names| && forall k :: 0 <= k < |names| ==> ts[k] == ID(names[k])
  {
    seq(|names|, k requires 0 <= k < |names| => ID(names[k]))
  }

  function TermTokens(names: seq<string>): seq<Token> {
    if names == [] then [ST] else if |names| == 1 then [ID(names[0])] else [LB] + Ids(names) + [RB]
  }

  function TokenOf(x: Item): Token
    requires IsItem(x)
  {
    if x.Lone? then HX(DigitsValue(x.a.digits)) else ID(WordOf(x))
  }

  function ItemTokens(xs: seq<Item>): (ts: seq<Token>)
    requires AreItems(xs)
    ensures |ts| == |xs| && forall k :: 0 <= k < |xs| ==> ts[k] == TokenOf(xs[k])
  {
    seq(|xs|, k requires 0 <= k < |xs| => TokenOf(xs[k]))
  }

  function IoctlTokens(f: Ioctls): seq<Token>
    requires Writable(f)
  {
    match f
    case Braces(xs) => [LB] + ItemTokens(xs) + [RB]
    case Tilde(xs) => [TL, LB] + ItemTokens(xs) + [RB]
    case Star => [ST]
    case One(x) => [TokenOf(x)]
  }

  predicate AreWords(ws: seq<string>) {
    forall k :: 0 <= k < |ws| ==> IsWord(ws[k])
  }

  /** The words read as these tokens. */
  ghost predicate Tokenizes(ws: seq<string>, ts: seq<Token>) {
    AreWords(ws) && Tokenize(ws, 0) == ts
  }

  lemma {:induction false} Assoc(x: seq<Token>, y: seq<Token>, z: seq<Token>)
    ensures x + (y + z) == x + y + z
  {
  }

  lemma {:induction false} TokenizeFrom(a: seq<string>, b: seq<string>, i: nat)
    requires i <= |a|
    ensures Tokenize(a + b, i) == Tokenize(a, i) + Tokenize(b, 0)
    decreases |a| - i
  {
    if i < |a| {
      TokenizeFrom(a, b, i + 1);
      assert (a + b)[i] == a[i];
      Assoc(Extract(a[i]), Tokenize(a, i + 1), Tokenize(b, 0));
    } else {
      TokenizeBehind(a, b, 0);
    }
  }

  lemma {:induction false} TokenizeBehind(a: seq<string>, b: seq<string>, j: nat)
    requires j <= |b|
    ensures Tokenize(a + b, |a| + j) == Tokenize(b, j)
    decreases |b| - j
  {
    if j < |b| {
      TokenizeBehind(a, b, j + 1);
      assert (a + b)[|a| + j] == b[j];
    }
  }

  lemma {:induction false} Both(a: seq<string>, ts: seq<Token>, b: seq<string>, us: seq<Token>)
    requires Tokenizes(a, ts) && Tokenizes(b, us)
    ensures Tokenizes(a + b, ts + us)
  {
    TokenizeFrom(a, b, 0);
  }

  lemma {:induction false} OneWord(w: string, ts: seq<Token>)
    requires IsWord(w) && Extract(w) == ts
    ensures Tokenizes([w], ts)
  {
    assert Tokenize([w], 1) == [];
    assert ts + [] == ts;
  }

  lemma {:induction false} NamesTokenize(names: seq<string>)
    requires ArePlainIds(names)
    ensures Tokenizes(names, Ids(names))
  {
    forall k | 0 <= k < |names| ensures IsWord(names[k]) && Extract(names[k]) == [Ids(names)[k]] {
      PlainReads(names[k]);
    }
    TokenizeSingles(names, Ids(names), 0);
    assert Ids(names)[0..] == Ids(names);
  }

  lemma {:induction false} JoinedReads(a: string, b: string, s: string)
    requires NumberWord(a) && NumberWord(b) && s == a + "-" + b
    ensures PlainId(s)
    ensures Find(s, '-', 0) == Some(|a|) && s[..|a|] == a && s[|a| + 1..] == b
  {
    assert forall i :: 0 <= i < |a| ==> s[i] == a[i];
    assert s[|a|] == '-';
    assert forall i :: |a| < i < |s| ==> s[i] == b[i - |a| - 1];
    NotKeyword(s);
    FindAt(s, '-', 0, |a|);
    DashIsNoNumber(s, |a|);
  }

  lemma {:induction false} DashIsNoNumber(s: string, k: nat)
    requires 2 < k < |s| && s[k] == '-'
    ensures ParseHex(s).None?
  {
    var t := s[2..];
    assert t[k - 2] == '-';
    NoHexValue(t, |t|, k - 2);
    if t[0] == '+' {
      assert t[1..][k - 3] == '-';
      NoHexValue(t[1..], |t| - 1, k - 3);
    }
  }

  lemma {:induction false} ItemReadsAs(x: Item)
    requires IsItem(x)
    ensures IsWord(WordOf(x)) && Extract(WordOf(x)) == [TokenOf(x)]
    ensures x.Joined? ==> HexRange(WordOf(x)) == Some((XpermOf(x, false).low, XpermOf(x, false).high))
  {
    var s := WordOf(x);
    NumberReads(x.a, NumberText(x.a));
    if x.Lone? {
      NotKeyword(s);
    } else {
      NumberReads(x.b, NumberText(x.b));
      JoinedReads(NumberText(x.a), NumberText(x.b), s);
    }
    PlainExtract(s);
  }

  lemma {:induction false} ItemsTokenize(xs: seq<Item>)
    requires AreItems(xs)
    ensures Tokenizes(ItemWords(xs), ItemTokens(xs))
  {
    forall k | 0 <= k < |xs| ensures IsWord(ItemWords(xs)[k]) && Extract(ItemWords(xs)[k]) == [ItemTokens(xs)[k]] {
      ItemReadsAs(xs[k]);
    }
    TokenizeSingles(ItemWords(xs), ItemTokens(xs), 0);
    assert ItemTokens(xs)[0..] == ItemTokens(xs);
  }

  lemma {:induction false} StarReads(w: string)
    requires w == "*"
    ensures IsWord(w) && Extract(w) == [ST]
  {
  }

  /** A tilde and a brace in one word are two tokens. */
  lemma {:induction false} TildeReads(w: string)
    requires w == "~{"
    ensures IsWord(w) && Extract(w) == [TL, LB]
  {
    assert w[0] == '~' && w[1] == '{';
    assert Keyword(w).None?;
    FindAt(w, '{', 0, 1);
    var tilde := w[..1];
    assert tilde == "~" && w[2..] == "";
    LoneTilde(tilde);
    assert Extract(w) == Extract(tilde) + [LB] + Extract("");
  }

  lemma {:induction false} LoneTilde(w: string)
    requires w == "~"
    ensures Extract(w) == [TL]
  {
    assert w[0] == '~' && w[1..] == "" && Keyword(w).None?;
    assert Find(w, '{', 0).None? && Find(w, '}', 0).None? && Find(w, ',', 0).None?;
    assert Extract("") == [];
  }

  lemma {:induction false} Braced(open: string, us: seq<Token>, ws: seq<string>, ts: seq<Token>, close: string)
    requires IsWord(open) && Extract(open) == us && Tokenizes(ws, ts) && close == "}"
    ensures Tokenizes([open] + ws + [close], us + ts + [RB])
  {
    OneWord(open, us);
    BraceReads(close, '}');
    OneWord(close, [RB]);
    Both([open], us, ws, ts);
    Both([open] + ws, us + ts, [close], [RB]);
  }

  lemma {:induction false} TermTokenizes(names: seq<string>)
    requires ArePlainIds(names)
    ensures Tokenizes(TermWords(names), TermTokens(names))
  {
    if names == [] {
      StarReads("*");
      OneWord("*", [ST]);
    } else {
      NamesTokenize(names);
      if |names| == 1 {
        assert Ids(names) == [ID(names[0])];
      } else {
        BraceReads("{", '{');
        Braced("{", [LB], names, Ids(names), "}");
      }
    }
  }

  lemma {:induction false} IoctlsTokenize(f: Ioctls)
    requires Writable(f)
    ensures Tokenizes(IoctlWords(f), IoctlTokens(f))
  {
    match f {
      case Braces(xs) =>
        ItemsTokenize(xs);
        BraceReads("{", '{');
        Braced("{", [LB], ItemWords(xs), ItemTokens(xs), "}");
      case Tilde(xs) =>
        ItemsTokenize(xs);
        TildeReads("~{");
        Braced("~{", [TL, LB], ItemWords(xs), ItemTokens(xs), "}");
      case Star =>
        StarReads("*");
        OneWord("*", [ST]);
      case One(x) =>
        ItemReadsAs(x);
        OneWord(WordOf(x), [TokenOf(x)]);
    }
  }

  // ---------------------------------------------------------------------
  // Parsing
  // ---------------------------------------------------------------------

  /** These tokens stand at the position. */
  ghost predicate Stands(ts: seq<Token>, pos: nat, us: seq<Token>) {
    pos + |us| <= |ts| && forall k :: 0 <= k < |us| ==> ts[pos + k] == us[k]
  }

  lemma {:induction false} StandsBoth(ts: seq<Token>, pos: nat, a: seq<Token>, b: seq<Token>)
    requires Stands(ts, pos, a + b)
    ensures Stands(ts, pos, a) && Stands(ts, pos + |a|, b)
  {
    assert forall k :: 0 <= k < |a| ==> (a + b)[k] == a[k];
    forall k | 0 <= k < |b| ensures ts[pos + |a| + k] == b[k] {
      assert (a + b)[|a| + k] == b[k];
      assert ts[pos + (|a| + k)] == (a + b)[|a| + k];
    }
  }

  lemma {:induction false} NamesParse(ts: seq<Token>, pos: nat, names: seq<string>, i: nat)
    requires i <= |names| && Stands(ts, pos, Ids(names) + [RB])
    ensures Names(ts, pos + i, Some(names[..i])) == Ok(names, pos + |names| + 1)
    decreases |names| - i
  {
    assert ts[pos + i] == (Ids(names) + [RB])[i];
    if i == |names| {
      assert names[..i] == names;
    } else {
      assert names[..i] + [names[i]] == names[..i + 1];
      NamesParse(ts, pos, names, i + 1);
    }
  }

  lemma {:induction false} BracedParses(ts: seq<Token>, pos: nat, names: seq<string>, us: seq<Token>)
    requires us == Ids(names) && Stands(ts, pos, [LB] + us + [RB])
    ensures Sterm(ts, pos) == Ok(names, pos + |names| + 2)
  {
    assert [LB] + us + [RB] == [LB] + (us + [RB]);
    StandsBoth(ts, pos, [LB], us + [RB]);
    assert ts[pos + 0] == [LB][0];
    NamesParse(ts, pos + 1, names, 0);
    assert names[..0] == [];
  }

  lemma {:induction false} TermParses(ts: seq<Token>, pos: nat, names: seq<string>)
    requires Stands(ts, pos, TermTokens(names))
    ensures Sterm(ts, pos) == Ok(names, pos + |TermTokens(names)|)
  {
    if |names| > 1 {
      BracedParses(ts, pos, names, Ids(names));
    } else {
      assert ts[pos + 0] == TermTokens(names)[0];
      if |names| == 1 {
        assert names == [names[0]];
      }
    }
  }

  /** With a star anywhere among them, names in braces come to a star. */
  lemma {:induction false} StarAmongNames(ts: seq<Token>, pos: nat, us: seq<Token>)
    requires Stands(ts, pos, [LB] + us + [RB]) && ST in us
    requires forall k :: 0 <= k < |us| ==> us[k] == ST || us[k].ID?
    ensures Sterm(ts, pos) == Ok([], pos + |us| + 2)
  {
    assert [LB] + us + [RB] == [LB] + (us + [RB]);
    StandsBoth(ts, pos, [LB], us + [RB]);
    assert ts[pos + 0] == [LB][0];
    StarParses(ts, pos + 1, us, 0, Some([]));
  }

  lemma {:induction false} StarParses(ts: seq<Token>, pos: nat, us: seq<Token>, i: nat, got: Option<seq<string>>)
    requires Stands(ts, pos, us + [RB]) && i <= |us| && (got.None? || ST in us[i..])
    requires forall k :: 0 <= k < |us| ==> us[k] == ST || us[k].ID?
    ensures Names(ts, pos + i, got) == Ok([], pos + |us| + 1)
    decreases |us| - i
  {
    assert ts[pos + i] == (us + [RB])[i];
    if i < |us| {
      assert us[i..] == [us[i]] + us[i + 1..];
      StarParses(ts, pos, us, i + 1,
                 if us[i] == ST || got.None? then None else Some(got.value + [us[i].name]));
    }
  }

  lemma {:induction false} ItemParses(ts: seq<Token>, pos: nat, x: Item, reset: bool)
    requires IsItem(x) && pos + 1 < |ts| && ts[pos] == TokenOf(x) && ts[pos + 1] != HP
    ensures ts[pos] != RB && ParseXperm(ts, pos, reset) == Ok(XpermOf(x, reset), pos + 1)
  {
    ItemReadsAs(x);
  }

  /** Item `j` of the list reads as it should, and is not its end. */
  ghost predicate ItemStands(ts: seq<Token>, pos: nat, ys: seq<Xperm>, reset: bool, j: nat)
    requires j < |ys|
  {
    && pos + j < |ts| && ts[pos + j] != RB
    && ParseXperm(ts, pos + j, reset) == Ok(ys[j], pos + j + 1)
  }

  ghost predicate ListStands(ts: seq<Token>, pos: nat, ys: seq<Xperm>, reset: bool) {
    && pos + |ys| < |ts| && ts[pos + |ys|] == RB
    && forall j :: 0 <= j < |ys| ==> ItemStands(ts, pos, ys, reset, j)
  }

  lemma {:induction false} ListParses(ts: seq<Token>, pos: nat, ys: seq<Xperm>, reset: bool, i: nat)
    requires i < |ys| && ListStands(ts, pos, ys, reset)
    ensures XpermList(ts, pos + i, reset, ys[..i]) == Ok(ys, pos + |ys| + 1)
    decreases |ys| - i
  {
    assert ItemStands(ts, pos, ys, reset, i);
    assert ys[..i] + [ys[i]] == ys[..i + 1];
    if i + 1 == |ys| {
      assert ys[..i + 1] == ys;
    } else {
      assert ItemStands(ts, pos, ys, reset, i + 1);
      ListParses(ts, pos, ys, reset, i + 1);
    }
  }

  lemma {:induction false} TokenAndNext(ts: seq<Token>, pos: nat, us: seq<Token>, j: nat)
    requires j < |us| && Stands(ts, pos, us + [RB])
    ensures pos + j + 1 < |ts| && ts[pos + j] == us[j]
    ensures ts[pos + j + 1] == if j + 1 < |us| then us[j + 1] else RB
  {
    var vs := us + [RB];
    assert ts[pos + j] == vs[j];
    assert ts[pos + (j + 1)] == vs[j + 1];
  }

  lemma {:induction false} ItemsStand(ts: seq<Token>, pos: nat, xs: seq<Item>, us: seq<Token>, reset: bool, j: nat)
    requires AreItems(xs) && j < |xs| && us == ItemTokens(xs) && Stands(ts, pos, us + [RB])
    ensures ItemStands(ts, pos, XpermsOf(xs, reset), reset, j)
  {
    TokenAndNext(ts, pos, us, j);
    assert us[j] == TokenOf(xs[j]) && (j + 1 < |us| ==> us[j + 1] == TokenOf(xs[j + 1]));
    ItemParses(ts, pos + j, xs[j], reset);
  }

  lemma {:induction false} ItemsAllStand(ts: seq<Token>, pos: nat, xs: seq<Item>, us: seq<Token>, reset: bool)
    requires AreItems(xs) && us == ItemTokens(xs) && Stands(ts, pos, us + [RB])
    ensures ListStands(ts, pos, XpermsOf(xs, reset), reset)
  {
    var ys := XpermsOf(xs, reset);
    forall j | 0 <= j < |ys| ensures ItemStands(ts, pos, ys, reset, j) {
      ItemsStand(ts, pos, xs, us, reset, j);
    }
    assert ts[pos + |us|] == (us + [RB])[|us|];
  }

  lemma {:induction false} ItemsParse(ts: seq<Token>, pos: nat, xs: seq<Item>, us: seq<Token>, reset: bool)
    requires AreItems(xs) && xs != [] && us == ItemTokens(xs) && Stands(ts, pos, us + [RB])
    ensures XpermList(ts, pos, reset, []) == Ok(XpermsOf(xs, reset), pos + |xs| + 1)
  {
    ItemsAllStand(ts, pos, xs, us, reset);
    ListParses(ts, pos, XpermsOf(xs, reset), reset, 0);
    assert XpermsOf(xs, reset)[..0] == [];
  }

  lemma {:induction false} BracesParse(ts: seq<Token>, pos: nat, xs: seq<Item>, us: seq<Token>, reset: bool)
    requires AreItems(xs) && xs != [] && us == ItemTokens(xs) && Stands(ts, pos, [LB] + us + [RB])
    ensures ts[pos] == LB && XpermItems(ts, pos, reset) == Ok(XpermsOf(xs, reset), pos + |xs| + 2)
  {
    assert [LB] + us + [RB] == [LB] + (us + [RB]);
    StandsBoth(ts, pos, [LB], us + [RB]);
    assert ts[pos + 0] == [LB][0];
    ItemsParse(ts, pos + 1, xs, us, reset);
  }

  lemma {:induction false} TildeStands(ts: seq<Token>, pos: nat, us: seq<Token>)
    requires Stands(ts, pos, [TL, LB] + us + [RB])
    ensures ts[pos] == TL && Stands(ts, pos + 1, [LB] + us + [RB])
  {
    assert [TL, LB] + us + [RB] == [TL] + ([LB] + us + [RB]);
    StandsBoth(ts, pos, [TL], [LB] + us + [RB]);
    assert ts[pos + 0] == [TL][0];
  }

  lemma {:induction false} TildeParses(ts: seq<Token>, pos: nat, xs: seq<Item>, us: seq<Token>)
    requires AreItems(xs) && xs != [] && us == ItemTokens(xs) && Stands(ts, pos, [TL, LB] + us + [RB])
    ensures ParseXperms(ts, pos) == Ok(XpermsOf(xs, true), pos + |xs| + 3)
  {
    TildeStands(ts, pos, us);
    BracesParse(ts, pos + 1, xs, us, true);
  }

  lemma {:induction false} NumberParses(ts: seq<Token>, pos: nat, v: nat)
    requires pos < |ts| && ts[pos] == HX(v)
    ensures ParseXperms(ts, pos) == Ok([if v == 0 then Xperm(0, 0xFFFF, false) else Xperm(v, v, false)], pos + 1)
  {
  }

  lemma {:induction false} RangeParses(ts: seq<Token>, pos: nat, s: string, low: nat, high: nat)
    requires pos < |ts| && ts[pos] == ID(s) && HexRange(s) == Some((low, high))
    ensures ParseXperms(ts, pos) == Ok([Xperm(low, high, false)], pos + 1)
  {
  }

  lemma {:induction false} OneParses(ts: seq<Token>, pos: nat, x: Item, u: Token)
    requires IsItem(x) && u == TokenOf(x) && Stands(ts, pos, [u])
    ensures ParseXperms(ts, pos) == Ok(Meaning(One(x)), pos + 1)
  {
    ItemReadsAs(x);
    assert ts[pos + 0] == [u][0];
    if x.Lone? {
      NumberParses(ts, pos, DigitsValue(x.a.digits));
    } else {
      RangeParses(ts, pos, WordOf(x), XpermOf(x, false).low, XpermOf(x, false).high);
    }
  }

  /** The ioctls of a line are read as what they mean, whichever way they are written. */
  lemma {:induction false} IoctlsParse(ts: seq<Token>, pos: nat, f: Ioctls)
    requires Writable(f) && Stands(ts, pos, IoctlTokens(f))
    ensures ParseXperms(ts, pos) == Ok(Meaning(f), pos + |IoctlTokens(f)|)
  {
    match f {
      case Braces(xs) =>
        BracesParse(ts, pos, xs, ItemTokens(xs), false);
      case Tilde(xs) => TildeParses(ts, pos, xs, ItemTokens(xs));
      case Star => assert ts[pos + 0] == [ST][0];
      case One(x) => OneParses(ts, pos, x, TokenOf(x));
    }
  }

  lemma {:induction false} NextTerm(ts: seq<Token>, pos: nat, names: seq<string>, us: seq<Token>, rest: seq<Token>)
      returns (end: nat)
    requires us == TermTokens(names) && Stands(ts, pos, us + rest)
    ensures Sterm(ts, pos) == Ok(names, end) && Stands(ts, end, rest) && end + |rest| == pos + |us + rest|
  {
    StandsBoth(ts, pos, us, rest);
    TermParses(ts, pos, names);
    end := pos + |us|;
  }

  lemma {:induction false} ThreeTerms(ts: seq<Token>, s: seq<string>, t: seq<string>, c: seq<string>,
      rest: seq<Token>, all: seq<Token>)
      returns (a: nat, b: nat, e: nat)
    requires all == TermTokens(s) + (TermTokens(t) + (TermTokens(c) + rest)) && Stands(ts, 1, all)
    ensures Sterm(ts, 1) == Ok(s, a) && Sterm(ts, a) == Ok(t, b) && Sterm(ts, b) == Ok(c, e)
    ensures Stands(ts, e, rest) && e + |rest| == 1 + |all|
  {
    a := NextTerm(ts, 1, s, TermTokens(s), TermTokens(t) + (TermTokens(c) + rest));
    b := NextTerm(ts, a, t, TermTokens(t), TermTokens(c) + rest);
    e := NextTerm(ts, b, c, TermTokens(c), rest);
  }

  lemma {:induction false} LineParses(ws: seq<string>, ts: seq<Token>)
    requires Tokenizes(ws, ts) && ws != [] && ws[0][0] != '#'
    ensures ParseStatement(LineText(ws)) == Exec(ts)
  {
    WordsOfLine(ws);
  }

  lemma {:induction false} AvActionReads(action: Token)
    requires action in {AL, DN, AA, DA}
    ensures IsWord(AvName(action)) && Extract(AvName(action)) == [action] && AvName(action)[0] != '#'
  {
  }

  function AvTokens(action: Token, s: seq<string>, t: seq<string>, c: seq<string>, p: seq<string>): seq<Token> {
    [action] + (TermTokens(s) + (TermTokens(t) + (TermTokens(c) + TermTokens(p))))
  }

  lemma {:induction false} AvTokenizes(action: Token, s: seq<string>, t: seq<string>, c: seq<string>, p: seq<string>)
    requires action in {AL, DN, AA, DA} && ArePlainIds(s) && ArePlainIds(t) && ArePlainIds(c) && ArePlainIds(p)
    ensures Tokenizes(AvWords(action, s, t, c, p), AvTokens(action, s, t, c, p))
  {
    TermTokenizes(s);
    TermTokenizes(t);
    TermTokenizes(c);
    TermTokenizes(p);
    AvActionReads(action);
    OneWord(AvName(action), [action]);
    Both(TermWords(c), TermTokens(c), TermWords(p), TermTokens(p));
    Both(TermWords(t), TermTokens(t), TermWords(c) + TermWords(p), TermTokens(c) + TermTokens(p));
    Both(TermWords(s), TermTokens(s), TermWords(t) + (TermWords(c) + TermWords(p)),
         TermTokens(t) + (TermTokens(c) + TermTokens(p)));
    Both([AvName(action)], [action], TermWords(s) + (TermWords(t) + (TermWords(c) + TermWords(p))),
         TermTokens(s) + (TermTokens(t) + (TermTokens(c) + TermTokens(p))));
  }

  lemma {:induction false} ExecAv(ts: seq<Token>, s: Parsed<seq<string>>, t: Parsed<seq<string>>,
      c: Parsed<seq<string>>, p: Parsed<seq<string>>)
    requires ts != [] && ts[0] in {AL, DN, AA, DA} && s.Ok? && t.Ok? && c.Ok? && p.Ok? && p.pos == |ts|
    requires Sterm(ts, 1) == s && Sterm(ts, s.pos) == t && Sterm(ts, t.pos) == c && Sterm(ts, c.pos) == p
    ensures Exec(ts) == Some(Av(ts[0], s.value, t.value, c.value, p.value))
  {
  }

  lemma {:induction false} AvExec(action: Token, s: seq<string>, t: seq<string>, c: seq<string>, p: seq<string>,
      all: seq<Token>, ts: seq<Token>)
    requires action in {AL, DN, AA, DA} && ts == [action] + all
    requires all == TermTokens(s) + (TermTokens(t) + (TermTokens(c) + TermTokens(p)))
    ensures Exec(ts) == Some(Av(action, s, t, c, p))
  {
    Behind(action, all, ts);
    var a, b, e := ThreeTerms(ts, s, t, c, TermTokens(p), all);
    TermParses(ts, e, p);
    ExecAv(ts, Ok(s, a), Ok(t, b), Ok(c, e), Ok(p, |ts|));
  }

  lemma {:induction false} Behind(t: Token, us: seq<Token>, ts: seq<Token>)
    requires ts == [t] + us
    ensures ts[0] == t && |ts| == 1 + |us| && Stands(ts, 1, us)
  {
  }

  /** A line of an access-vector rule reads as that rule: names alone, in braces, or a star for none. */
  lemma {:induction false} AvLineReads(action: Token, s: seq<string>, t: seq<string>, c: seq<string>, p: seq<string>)
    requires action in {AL, DN, AA, DA} && ArePlainIds(s) && ArePlainIds(t) && ArePlainIds(c) && ArePlainIds(p)
    ensures ParseStatement(LineText(AvWords(action, s, t, c, p))) == Some(Av(action, s, t, c, p))
  {
    AvTokenizes(action, s, t, c, p);
    AvActionReads(action);
    LineParses(AvWords(action, s, t, c, p), AvTokens(action, s, t, c, p));
    var all := TermTokens(s) + (TermTokens(t) + (TermTokens(c) + TermTokens(p)));
    AvExec(action, s, t, c, p, all, AvTokens(action, s, t, c, p));
  }

  function XpermTokens(action: Token, s: seq<string>, t: seq<string>, c: seq<string>, f: Ioctls): seq<Token>
    requires Writable(f)
  {
    [action] + (TermTokens(s) + (TermTokens(t) + (TermTokens(c) + ([ID("ioctl")] + IoctlTokens(f)))))
  }

  lemma {:induction false} XpermTokenizes(action: Token, s: seq<string>, t: seq<string>, c: seq<string>, f: Ioctls)
    requires action in {AX, AY, DX} && ArePlainIds(s) && ArePlainIds(t) && ArePlainIds(c) && Writable(f)
    ensures Tokenizes(XpermWords(action, s, t, c, f), XpermTokens(action, s, t, c, f))
  {
    TermTokenizes(s);
    TermTokenizes(t);
    TermTokenizes(c);
    IoctlsTokenize(f);
    IoctlReads();
    PlainReads("ioctl");
    OneWord("ioctl", [ID("ioctl")]);
    ActionReads(action);
    OneWord(ActionName(action), [action]);
    var w, u := ["ioctl"] + IoctlWords(f), [ID("ioctl")] + IoctlTokens(f);
    Both(["ioctl"], [ID("ioctl")], IoctlWords(f), IoctlTokens(f));
    Both(TermWords(c), TermTokens(c), w, u);
    Both(TermWords(t), TermTokens(t), TermWords(c) + w, TermTokens(c) + u);
    Both(TermWords(s), TermTokens(s), TermWords(t) + (TermWords(c) + w), TermTokens(t) + (TermTokens(c) + u));
    Both([ActionName(action)], [action], TermWords(s) + (TermWords(t) + (TermWords(c) + w)),
         TermTokens(s) + (TermTokens(t) + (TermTokens(c) + u)));
  }

  lemma {:induction false} ExecIoctl(ts: seq<Token>, s: Parsed<seq<string>>, t: Parsed<seq<string>>,
      c: Parsed<seq<string>>, p: Parsed<seq<Xperm>>)
    requires ts != [] && ts[0] in {AX, AY, DX} && s.Ok? && t.Ok? && c.Ok? && p.Ok? && p.pos == |ts|
    requires Sterm(ts, 1) == s && Sterm(ts, s.pos) == t && Sterm(ts, t.pos) == c
    requires Peek(ts, c.pos) == Some(ID("ioctl")) && ParseXperms(ts, c.pos + 1) == p
    ensures Exec(ts) == Some(Ioctl(ts[0], s.value, t.value, c.value, p.value))
  {
  }

  lemma {:induction false} TailParses(ts: seq<Token>, pos: nat, f: Ioctls, us: seq<Token>, tail: seq<Token>)
    requires Writable(f) && us == IoctlTokens(f) && tail == [ID("ioctl")] + us && Stands(ts, pos, tail)
    ensures Peek(ts, pos) == Some(ID("ioctl")) && ParseXperms(ts, pos + 1) == Ok(Meaning(f), pos + |tail|)
  {
    StandsBoth(ts, pos, [ID("ioctl")], us);
    assert ts[pos + 0] == [ID("ioctl")][0];
    IoctlsParse(ts, pos + 1, f);
  }

  lemma {:induction false} XpermParts(ts: seq<Token>, s: seq<string>, t: seq<string>, c: seq<string>, f: Ioctls,
      tail: seq<Token>, all: seq<Token>)
      returns (a: nat, b: nat, e: nat)
    requires Writable(f) && tail == [ID("ioctl")] + IoctlTokens(f) && Stands(ts, 1, all) && |ts| == 1 + |all|
    requires all == TermTokens(s) + (TermTokens(t) + (TermTokens(c) + tail))
    ensures Sterm(ts, 1) == Ok(s, a) && Sterm(ts, a) == Ok(t, b) && Sterm(ts, b) == Ok(c, e)
    ensures Peek(ts, e) == Some(ID("ioctl")) && ParseXperms(ts, e + 1) == Ok(Meaning(f), |ts|)
  {
    a, b, e := ThreeTerms(ts, s, t, c, tail, all);
    TailParses(ts, e, f, IoctlTokens(f), tail);
  }

  lemma {:induction false} XpermExec(action: Token, s: seq<string>, t: seq<string>, c: seq<string>, f: Ioctls,
      tail: seq<Token>, all: seq<Token>, ts: seq<Token>)
    requires action in {AX, AY, DX} && Writable(f) && tail == [ID("ioctl")] + IoctlTokens(f)
    requires all == TermTokens(s) + (TermTokens(t) + (TermTokens(c) + tail)) && ts == [action] + all
    ensures Exec(ts) == Some(Ioctl(action, s, t, c, Meaning(f)))
  {
    Behind(action, all, ts);
    var a, b, e := XpermParts(ts, s, t, c, f, tail, all);
    ExecParts(ts, action, s, t, c, a, b, e, Meaning(f));
  }

  lemma {:induction false} ExecParts(ts: seq<Token>, action: Token, s: seq<string>, t: seq<string>, c: seq<string>,
      a: nat, b: nat, e: nat, xs: seq<Xperm>)
    requires ts != [] && ts[0] == action && action in {AX, AY, DX}
    requires Sterm(ts, 1) == Ok(s, a) && Sterm(ts, a) == Ok(t, b) && Sterm(ts, b) == Ok(c, e)
    requires Peek(ts, e) == Some(ID("ioctl")) && ParseXperms(ts, e + 1) == Ok(xs, |ts|)
    ensures Exec(ts) == Some(Ioctl(action, s, t, c, xs))
  {
    ExecIoctl(ts, Ok(s, a), Ok(t, b), Ok(c, e), Ok(xs, |ts|));
  }

  /** A line of an extended permission rule reads as that rule, with the ioctls as they are meant. */
  lemma {:induction false} XpermLineReads(action: Token, s: seq<string>, t: seq<string>, c: seq<string>, f: Ioctls)
    requires action in {AX, AY, DX} && ArePlainIds(s) && ArePlainIds(t) && ArePlainIds(c) && Writable(f)
    ensures ParseStatement(LineText(XpermWords(action, s, t, c, f))) == Some(Ioctl(action, s, t, c, Meaning(f)))
  {
    XpermTokenizes(action, s, t, c, f);
    ActionReads(action);
    LineParses(XpermWords(action, s, t, c, f), XpermTokens(action, s, t, c, f));
    var tail := [ID("ioctl")] + IoctlTokens(f);
    var all := TermTokens(s) + (TermTokens(t) + (TermTokens(c) + tail));
    XpermExec(action, s, t, c, f, tail, all, XpermTokens(action, s, t, c, f));
  }

  // ---------------------------------------------------------------------
  // What the lines grant
  // ---------------------------------------------------------------------

  /**
   * What a key grants after the line: braces and a lone item add to what it granted, a star
   * and a lone zero grant all, and behind a tilde only the last item counts, and is excluded.
   */
  lemma {:induction false} LineGrants(n: Nodes, f: Ioctls, d: nat, i: nat)
    requires Writable(f) && d <= 255 && i <= 255
    ensures var after := ApplyAll(n, Meaning(f), |Meaning(f)|);
            Grants(after, d, i) <==>
            match f
            case Braces(xs) => Grants(n, d, i) || Listed(XpermsOf(xs, false), d, i)
            case Tilde(xs) => !Widened(XpermOf(xs[|xs| - 1], false), d, i)
            case Star => true
            case One(x) => Grants(n, d, i) || Widened(XpermOf(x, false), d, i) || IsZero(x)
  {
    match f {
      case Braces(xs) => BracesGrant(n, XpermsOf(xs, false), d, i);
      case Tilde(xs) => TildeGrants(n, XpermsOf(xs, true), d, i);
      case Star => OneGrants(n, Xperm(0, 0xFFFF, false), d, i);
      case One(x) => OneGrants(n, Meaning(f)[0], d, i);
    }
    WholeRange(n, d, i);
  }

  lemma {:induction false} BracesGrant(n: Nodes, ys: seq<Xperm>, d: nat, i: nat)
    requires d <= 255 && i <= 255 && forall k :: 0 <= k < |ys| ==> IsXperm(ys[k]) && !ys[k].reset
    ensures Grants(ApplyAll(n, ys, |ys|), d, i) <==> Grants(n, d, i) || Listed(ys, d, i)
  {
    PlainListGrants(n, ys, |ys|, d, i);
    assert ys[..|ys|] == ys;
  }

  lemma {:induction false} TildeGrants(n: Nodes, ys: seq<Xperm>, d: nat, i: nat)
    requires d <= 255 && i <= 255 && ys != [] && IsXperm(ys[|ys| - 1]) && ys[|ys| - 1].reset
    ensures Grants(ApplyAll(n, ys, |ys|), d, i) <==> !Widened(ys[|ys| - 1], d, i)
  {
    AppliedGrants(ApplyAll(n, ys, |ys| - 1), ys[|ys| - 1], d, i);
  }

  lemma {:induction false} OneGrants(n: Nodes, y: Xperm, d: nat, i: nat)
    requires d <= 255 && i <= 255 && IsXperm(y) && !y.reset
    ensures Grants(ApplyAll(n, [y], 1), d, i) <==> Grants(n, d, i) || Widened(y, d, i)
    ensures Grants(ApplyAll(n, [y], 1), d, i) <==> Grants(Applied(n, y), d, i)
  {
    AppliedGrants(n, y, d, i);
    assert ApplyAll(n, [y], 0) == n;
  }

  lemma {:induction false} WholeRange(n: Nodes, d: nat, i: nat)
    requires d <= 255 && i <= 255
    ensures Grants(Applied(n, Xperm(0, 0xFFFF, false)), d, i)
  {
    AppliedGrants(n, Xperm(0, 0xFFFF, false), d, i);
    assert Driver(0) == 0 && Driver(0xFFFF) == 255;
  }

  /** What the text of an extended permission line grants on a key, by how its ioctls are written. */
  lemma {:induction false} XpermLineGrants(action: Token, s: seq<string>, t: seq<string>, c: seq<string>, f: Ioctls,
      n: Nodes, d: nat, i: nat)
    requires action in {AX, AY, DX} && ArePlainIds(s) && ArePlainIds(t) && ArePlainIds(c) && Writable(f)
    requires d <= 255 && i <= 255
    ensures var st := ParseStatement(LineText(XpermWords(action, s, t, c, f)));
            && st.Some? && st.value.Ioctl? && st.value.action == action
            && st.value.src == s && st.value.tgt == t && st.value.cls == c
            && (Grants(ApplyAll(n, st.value.xperms, |st.value.xperms|), d, i) <==>
                match f
                case Braces(xs) => Grants(n, d, i) || Listed(XpermsOf(xs, false), d, i)
                case Tilde(xs) => !Widened(XpermOf(xs[|xs| - 1], false), d, i)
                case Star => true
                case One(x) => Grants(n, d, i) || Widened(XpermOf(x, false), d, i) || IsZero(x))
  {
    XpermLineReads(action, s, t, c, f);
    LineGrants(n, f, d, i);
  }

  /** No line has the dash token: the spaced range of the grammar comment is never read as one. */
  lemma {:induction false} ExtractHasNoDash(s: string)
    ensures HP !in Extract(s)
    decreases |s|
  {
    if Keyword(s).None? && s != "" {
      var lb, rb, cm := Find(s, '{', 0), Find(s, '}', 0), Find(s, ',', 0);
      var at := if lb.Some? then lb else if rb.Some? then rb else cm;
      if at.Some? {
        ExtractHasNoDash(s[..at.value]);
        ExtractHasNoDash(s[at.value + 1..]);
      } else if s[0] == '~' {
        ExtractHasNoDash(s[1..]);
      }
    }
  }

  lemma {:induction false} TokenizeHasNoDash(ws: seq<string>, i: nat)
    requires i <= |ws|
    ensures HP !in Tokenize(ws, i)
    decreases |ws| - i
  {
    if i < |ws| {
      ExtractHasNoDash(ws[i]);
      TokenizeHasNoDash(ws, i + 1);
    }
  }

  /** A dash between two numbers of a list, with blanks around it, makes the list a syntax error. */
  lemma {:induction false} SpacedRangeFails(ts: seq<Token>, pos: nat, v: nat, reset: bool, got: seq<Xperm>)
    requires pos + 1 < |ts| && ts[pos] == HX(v) && ts[pos + 1] == ID("-")
    ensures Extract("-") == [ID("-")] && XpermList(ts, pos, reset, got) == Bad
  {
    var dash := "-";
    assert dash[..0] == "" && dash[1..] == "";
    PlainExtract(dash);
    FindAt(dash, '-', 0, 0);
    assert ParseXperm(ts, pos + 1, reset) == Bad;
  }

  /** A tilde has to be followed by a brace. */
  lemma {:induction false} TildeNeedsBrace(ts: seq<Token>, pos: nat)
    requires pos + 1 < |ts| && ts[pos] == TL && ts[pos + 1] != LB
    ensures ParseXperms(ts, pos) == Bad
  {
  }

  // ---------------------------------------------------------------------
  // What the lines of access-vector rules set
  // ---------------------------------------------------------------------

  function EffectOf(action: Token): Rules.Effect {
    match action
    case AA => Rules.AUDITALLOW
    case DA => Rules.AUDITDENY
    case _ => Rules.ALLOWED
  }

  predicate Inverts(action: Token) {
    action == DN || action == DA
  }

  ghost predicate LineRan(pol: Rules.Policy, line: string, before: Rules.Table, after: Rules.Table) {
    var st := ParseStatement(line);
    if st.Some? && st.value.Av? then
      Rules.BitsChanged(pol, [st.value.src, st.value.tgt, st.value.cls, st.value.perms], [],
        EffectOf(st.value.action), Inverts(st.value.action), before, after)
    else after == before
  }

  /** Carries out a line; one that is no access-vector rule leaves the table alone. */
  method RunAvLine(db: Rules.Policydb, line: string)
    modifies db
    ensures LineRan(db.pol, line, old(db.table), db.table)
  {
    var st := ParseStatement(line);
    if st.Some? && st.value.Av? {
      db.Expand([st.value.src, st.value.tgt, st.value.cls, st.value.perms], [], EffectOf(st.value.action),
        Inverts(st.value.action));
    }
  }

  lemma {:induction false} NotBlank(names: seq<string>)
    requires ArePlainIds(names)
    ensures Rules.NoBlank(names)
  {
  }

  /**
   * The text of a rule against the table. Allow and auditallow set the permission at the keys the line
   * names, deny and dontaudit clear it, each for its own kind of node, and no other permission changes.
   * Only a deny reaches plain types through a star.
   */
  lemma {:induction false} AvLineSets(pol: Rules.Policy, action: Token, s: seq<string>, t: seq<string>,
      c: seq<string>, p: seq<string>, before: Rules.Table, after: Rules.Table, k: Rules.Key, b: nat)
    requires action in {AL, DN, AA, DA} && ArePlainIds(s) && ArePlainIds(t) && ArePlainIds(c) && ArePlainIds(p)
    requires Rules.IsBit(b) && LineRan(pol, LineText(AvWords(action, s, t, c, p)), before, after)
    ensures b in Rules.Data(after, k) <==>
            if k.effect.ALLOWED? && action == AL && Rules.Named(pol, s, t, c, p, false, k, b) then true
            else if k.effect.ALLOWED? && action == DN && Rules.Named(pol, s, t, c, p, true, k, b) then false
            else if k.effect.AUDITALLOW? && action == AA && Rules.Named(pol, s, t, c, p, false, k, b) then true
            else if k.effect.AUDITDENY? && action == DA && Rules.Named(pol, s, t, c, p, false, k, b) then false
            else b in Rules.Data(before, k)
  {
    AvLineReads(action, s, t, c, p);
    NotBlank(s);
    NotBlank(t);
    NotBlank(c);
    NotBlank(p);
    AvSets(pol, action, s, t, c, p, before, after, k, b);
  }

  lemma {:induction false} AvSets(pol: Rules.Policy, action: Token, s: seq<string>, t: seq<string>,
      c: seq<string>, p: seq<string>, before: Rules.Table, after: Rules.Table, k: Rules.Key, b: nat)
    requires action in {AL, DN, AA, DA} && Rules.IsBit(b)
    requires Rules.NoBlank(s) && Rules.NoBlank(t) && Rules.NoBlank(c) && Rules.NoBlank(p)
    requires Rules.BitsChanged(pol, [s, t, c, p], [], EffectOf(action), Inverts(action), before, after)
    ensures b in Rules.Data(after, k) <==>
            if k.effect.ALLOWED? && action == AL && Rules.Named(pol, s, t, c, p, false, k, b) then true
            else if k.effect.ALLOWED? && action == DN && Rules.Named(pol, s, t, c, p, true, k, b) then false
            else if k.effect.AUDITALLOW? && action == AA && Rules.Named(pol, s, t, c, p, false, k, b) then true
            else if k.effect.AUDITDENY? && action == DA && Rules.Named(pol, s, t, c, p, false, k, b) then false
            else b in Rules.Data(before, k)
  {
    Rules.HitsNamed(pol, s, t, c, p, EffectOf(action), Inverts(action), k, b);
  }
}
