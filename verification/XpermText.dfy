/**
 * The text form of extended permission rules: the printer of
 * native/src/sepolicy/sepolicy.cpp and the tokenizer and parser of
 * native/src/sepolicy/statement.rs.
 */
module XpermText {
  import opened Options
  import opened Xperms

  // ---------------------------------------------------------------------
  // Hexadecimal numbers
  // ---------------------------------------------------------------------

  function HexChar(d: nat): char
    requires d < 16
  {
    if d < 10 then '0' + d as char else 'A' + (d - 10) as char
  }

  function HexDigit(c: char): Option<nat> {
    if '0' <= c <= '9' then Some(c as nat - '0' as nat)
    else if 'a' <= c <= 'f' then Some(c as nat - 'a' as nat + 10)
    else if 'A' <= c <= 'F' then Some(c as nat - 'A' as nat + 10)
    else None
  }

  lemma {:induction false} HexCharDigit(d: nat)
    requires d < 16
    ensures HexDigit(HexChar(d)) == Some(d)
    ensures HexChar(d) != '-' && HexChar(d) != '+' && Calm(HexChar(d))
  {
  }

  /** The value of the first `n` digits, where they are digits and it fits 16 bits. */
  function HexValue(s: string, n: nat): Option<nat>
    requires n <= |s|
  {
    if n == 0 then Some(0)
    else
      var front, d := HexValue(s, n - 1), HexDigit(s[n - 1]);
      if front.Some? && d.Some? && front.value * 16 + d.value < 0x1_0000 then Some(front.value * 16 + d.value)
      else None
  }

  /** A number as u16::from_str_radix reads it: a plus sign may lead. */
  function FromRadix16(s: string): Option<nat> {
    if s == "" || s == "+" then None
    else if s[0] == '+' then HexValue(s[1..], |s| - 1)
    else HexValue(s, |s|)
  }

  function ParseHex(s: string): Option<nat> {
    if |s| >= 2 && s[0] == '0' && s[1] == 'x' then FromRadix16(s[2..]) else None
  }

  function HexText(a: nat, b: nat, c: nat, d: nat): (s: string)
    requires a < 16 && b < 16 && c < 16 && d < 16
    ensures |s| == 6
  {
    ['0', 'x', HexChar(a), HexChar(b), HexChar(c), HexChar(d)]
  }

  /** "0x%04X" */
  function Hex4(v: nat): (s: string)
    requires v < 0x1_0000
    ensures |s| == 6
  {
    HexText(v / 4096, v / 256 % 16, v / 16 % 16, v % 16)
  }

  predicate HexWord(s: string) {
    |s| == 6 && s[0] == '0' && s[1] == 'x' && forall i :: 0 <= i < 6 ==> s[i] != '-' && s[i] != '+' && Calm(s[i])
  }

  lemma {:induction false} HexTextValue(a: nat, b: nat, c: nat, d: nat, s: string)
    requires a < 16 && b < 16 && c < 16 && d < 16 && s == HexText(a, b, c, d)
    ensures ParseHex(s) == Some(a * 4096 + b * 256 + c * 16 + d) && HexWord(s)
  {
    HexCharDigit(a);
    HexCharDigit(b);
    HexCharDigit(c);
    HexCharDigit(d);
    FourDigits(s[2..], a, b, c, d);
  }

  lemma {:induction false} Nibbles(v: nat)
    ensures v == v / 4096 * 4096 + v / 256 % 16 * 256 + v / 16 % 16 * 16 + v % 16
  {
    assert v / 16 / 16 == v / 256 && v / 256 / 16 == v / 4096;
  }

  lemma {:induction false} HexRoundTrip(v: nat)
    requires v < 0x1_0000
    ensures ParseHex(Hex4(v)) == Some(v) && HexWord(Hex4(v))
  {
    var a, b, c, d := v / 4096, v / 256 % 16, v / 16 % 16, v % 16;
    Nibbles(v);
    HexTextValue(a, b, c, d, Hex4(v));
  }

  lemma {:induction false} FourDigits(t: string, a: nat, b: nat, c: nat, d: nat)
    requires |t| == 4 && a < 16 && b < 16 && c < 16 && d < 16
    requires HexDigit(t[0]) == Some(a) && HexDigit(t[1]) == Some(b) && HexDigit(t[2]) == Some(c) &&
      HexDigit(t[3]) == Some(d)
    ensures HexValue(t, 4) == Some(a * 4096 + b * 256 + c * 16 + d)
  {
    assert HexValue(t, 1) == Some(a) by { assert HexValue(t, 0) == Some(0); }
    assert HexValue(t, 2) == Some(a * 16 + b);
    assert HexValue(t, 3) == Some(a * 256 + b * 16 + c);
  }

  // ---------------------------------------------------------------------
  // Words and tokens
  // ---------------------------------------------------------------------

  predicate IsSpace(c: char) {
    var n := c as nat;
    9 <= n <= 13 || n == 32 || n == 0x85 || n == 0xA0 || n == 0x1680 || 0x2000 <= n <= 0x200A ||
    n == 0x2028 || n == 0x2029 || n == 0x202F || n == 0x205F || n == 0x3000
  }

  /** Neither white space nor a character the tokenizer splits at. */
  predicate Calm(c: char) {
    !IsSpace(c) && c != '{' && c != '}' && c != ','
  }

  function SkipSpace(s: string, i: nat): (j: nat)
    requires i <= |s|
    ensures i <= j <= |s| && (j < |s| ==> !IsSpace(s[j]))
    decreases |s| - i
  {
    if i < |s| && IsSpace(s[i]) then SkipSpace(s, i + 1) else i
  }

  function WordEnd(s: string, i: nat): (j: nat)
    requires i <= |s|
    ensures i <= j <= |s|
    decreases |s| - i
  {
    if i < |s| && !IsSpace(s[i]) then WordEnd(s, i + 1) else i
  }

  function Words(s: string, i: nat): seq<string>
    requires i <= |s|
    decreases |s| - i
  {
    var a := SkipSpace(s, i);
    if a == |s| then [] else [s[a..WordEnd(s, a)]] + Words(s, WordEnd(s, a))
  }

  datatype Token =
    | AL | DN | AA | DA | AX | AY | DX | PM | EF | TA | TY | AT | TT | TC | TM | GF
    | LB | RB | CM | ST | TL | HP | HX(value: nat) | ID(name: string)

  function Keyword(s: string): Option<Token> {
    if s == "allow" then Some(AL)
    else if s == "deny" then Some(DN)
    else if s == "auditallow" then Some(AA)
    else if s == "dontaudit" then Some(DA)
    else if s == "allowxperm" then Some(AX)
    else if s == "auditallowxperm" then Some(AY)
    else if s == "dontauditxperm" then Some(DX)
    else if s == "permissive" then Some(PM)
    else if s == "enforce" then Some(EF)
    else if s == "typeattribute" then Some(TA)
    else if s == "type" then Some(TY)
    else if s == "attribute" then Some(AT)
    else if s == "type_transition" then Some(TT)
    else if s == "type_change" then Some(TC)
    else if s == "type_member" then Some(TM)
    else if s == "genfscon" then Some(GF)
    else if s == "*" then Some(ST)
    else None
  }

  function Find(s: string, c: char, i: nat): (r: Option<nat>)
    requires i <= |s|
    ensures r.Some? ==> i <= r.value < |s| && s[r.value] == c
    ensures r.None? ==> forall k :: i <= k < |s| ==> s[k] != c
    decreases |s| - i
  {
    if i == |s| then None else if s[i] == c then Some(i) else Find(s, c, i + 1)
  }

  function Extract(s: string): seq<Token>
    decreases |s|
  {
    if Keyword(s).Some? then [Keyword(s).value]
    else if s == "" then []
    else
      var lb, rb, cm := Find(s, '{', 0), Find(s, '}', 0), Find(s, ',', 0);
      if lb.Some? then Extract(s[..lb.value]) + [LB] + Extract(s[lb.value + 1..])
      else if rb.Some? then Extract(s[..rb.value]) + [RB] + Extract(s[rb.value + 1..])
      else if cm.Some? then Extract(s[..cm.value]) + [CM] + Extract(s[cm.value + 1..])
      else if s[0] == '~' then [TL] + Extract(s[1..])
      else if ParseHex(s).Some? then [HX(ParseHex(s).value)]
      else [ID(s)]
  }

  function Tokenize(words: seq<string>, i: nat): seq<Token>
    requires i <= |words|
    decreases |words| - i
  {
    if i == |words| then [] else Extract(words[i]) + Tokenize(words, i + 1)
  }

  // ---------------------------------------------------------------------
  // The parser
  // ---------------------------------------------------------------------

  datatype Parsed<T> = Ok(value: T, pos: nat) | Bad

  function Peek(ts: seq<Token>, pos: nat): Option<Token> {
    if pos < |ts| then Some(ts[pos]) else None
  }

  /** The names up to the closing brace; a star anywhere makes them a wildcard. */
  function Names(ts: seq<Token>, pos: nat, names: Option<seq<string>>): Parsed<seq<string>>
    decreases |ts| - pos
  {
    match Peek(ts, pos)
    case Some(ID(n)) => Names(ts, pos + 1, if names.Some? then Some(names.value + [n]) else None)
    case Some(ST) => Names(ts, pos + 1, None)
    case Some(RB) => Ok(if names.Some? then names.value else [], pos + 1)
    case _ => Bad
  }

  function Sterm(ts: seq<Token>, pos: nat): Parsed<seq<string>> {
    match Peek(ts, pos)
    case Some(ID(n)) => Ok([n], pos + 1)
    case Some(ST) => Ok([], pos + 1)
    case Some(LB) => Names(ts, pos + 1, Some([]))
    case _ => Bad
  }

  method ParseSterm(ts: seq<Token>, start: nat) returns (r: Parsed<seq<string>>)
    ensures r == Sterm(ts, start)
  {
    match Peek(ts, start)
    case Some(ID(n)) => return Ok([n], start + 1);
    case Some(ST) => return Ok([], start + 1);
    case Some(LB) =>
      var names, pos := Some([]), start + 1;
      while true
        invariant Sterm(ts, start) == Names(ts, pos, names)
        decreases |ts| - pos
      {
        match Peek(ts, pos) {
          case Some(ID(n)) =>
            if names.Some? {
              names := Some(names.value + [n]);
            }
          case Some(ST) => names := None;
          case Some(RB) => return Ok(if names.Some? then names.value else [], pos + 1);
          case _ => return Bad;
        }
        pos := pos + 1;
      }
    case _ => return Bad;
  }

  /** A range in one word, as split at its first dash. */
  function HexRange(s: string): Option<(nat, nat)> {
    var dash := Find(s, '-', 0);
    if dash.None? then None
    else
      var low, high := ParseHex(s[..dash.value]), ParseHex(s[dash.value + 1..]);
      if low.Some? && high.Some? then Some((low.value, high.value)) else None
  }

  function ParseXperm(ts: seq<Token>, pos: nat, reset: bool): Parsed<Xperm> {
    match Peek(ts, pos)
    case Some(HX(low)) =>
      if Peek(ts, pos + 1) == Some(HP) then
        match Peek(ts, pos + 2)
        case Some(HX(high)) => Ok(Xperm(low, high, reset), pos + 3)
        case _ => Bad
      else Ok(Xperm(low, low, reset), pos + 1)
    case Some(ID(s)) =>
      if HexRange(s).Some? then Ok(Xperm(HexRange(s).value.0, HexRange(s).value.1, reset), pos + 1) else Bad
    case _ => Bad
  }

  /** The items up to the closing brace, at least one. */
  function XpermList(ts: seq<Token>, pos: nat, reset: bool, got: seq<Xperm>): Parsed<seq<Xperm>>
    decreases |ts| - pos
  {
    match ParseXperm(ts, pos, reset)
    case Bad => Bad
    case Ok(x, next) =>
      if Peek(ts, next) == Some(RB) then Ok(got + [x], next + 1)
      else XpermList(ts, next, reset, got + [x])
  }

  /** What follows the tilde, if any. */
  function XpermItems(ts: seq<Token>, pos: nat, reset: bool): Parsed<seq<Xperm>> {
    match Peek(ts, pos)
    case Some(LB) => XpermList(ts, pos + 1, reset, [])
    case Some(ST) => Ok([Xperm(0, 0xFFFF, reset)], pos + 1)
    case Some(HX(low)) => Ok([if low > 0 then Xperm(low, low, reset) else Xperm(0, 0xFFFF, reset)], pos + 1)
    case Some(ID(s)) =>
      if HexRange(s).Some? then Ok([Xperm(HexRange(s).value.0, HexRange(s).value.1, reset)], pos + 1) else Bad
    case _ => Bad
  }

  function ParseXperms(ts: seq<Token>, pos: nat): Parsed<seq<Xperm>> {
    if Peek(ts, pos) == Some(TL) then
      if Peek(ts, pos + 1) == Some(LB) then XpermItems(ts, pos + 1, true) else Bad
    else XpermItems(ts, pos, false)
  }

  method ParseXpermList(ts: seq<Token>, start: nat, reset: bool) returns (r: Parsed<seq<Xperm>>)
    ensures r == XpermList(ts, start, reset, [])
  {
    var got, pos := [], start;
    while true
      invariant XpermList(ts, start, reset, []) == XpermList(ts, pos, reset, got)
      decreases |ts| - pos
    {
      var x := ParseXperm(ts, pos, reset);
      if x.Bad? {
        return Bad;
      }
      got := got + [x.value];
      pos := x.pos;
      if Peek(ts, pos) == Some(RB) {
        return Ok(got, pos + 1);
      }
    }
  }

  datatype Statement =
    | Av(action: Token, src: seq<string>, tgt: seq<string>, cls: seq<string>, perms: seq<string>)
    | Ioctl(action: Token, src: seq<string>, tgt: seq<string>, cls: seq<string>, xperms: seq<Xperm>)

  /** The statements with source, target and class; None is a syntax error. */
  function Exec(ts: seq<Token>): Option<Statement> {
    if ts == [] || ts[0] !in {AL, DN, AA, DA, AX, AY, DX} then None
    else
      var s := Sterm(ts, 1);
      if s.Bad? then None else
      var t := Sterm(ts, s.pos);
      if t.Bad? then None else
      var c := Sterm(ts, t.pos);
      if c.Bad? then None
      else if ts[0] in {AL, DN, AA, DA} then
        var p := Sterm(ts, c.pos);
        if p.Bad? || p.pos < |ts| then None else Some(Av(ts[0], s.value, t.value, c.value, p.value))
      else if Peek(ts, c.pos) != Some(ID("ioctl")) then None
      else
        var p := ParseXperms(ts, c.pos + 1);
        if p.Bad? || p.pos < |ts| then None else Some(Ioctl(ts[0], s.value, t.value, c.value, p.value))
  }

  /** An empty line or one that begins with a hash is skipped. */
  function ParseStatement(line: string): Option<Statement> {
    var words := Words(line, 0);
    if words == [] || words[0][0] == '#' then None else Exec(Tokenize(words, 0))
  }

  // ---------------------------------------------------------------------
  // The printer
  // ---------------------------------------------------------------------

  function ItemText(x: Xperm): string
    requires IsXperm(x)
  {
    if x.low == x.high then Hex4(x.low) else Hex4(x.low) + "-" + Hex4(x.high)
  }

  /** A function node prints driver and function, a driver node the driver alone. */
  function FunctionItem(driver: nat, r: Range): Xperm {
    Xperm(driver * 256 + r.lo, driver * 256 + r.hi, false)
  }

  function DriverItem(r: Range): Xperm {
    Xperm(r.lo * 256, r.hi * 256, false)
  }

  function ItemOf(driver: Option<nat>, r: Range): Xperm {
    if driver.Some? then FunctionItem(driver.value, r) else DriverItem(r)
  }

  function Items(driver: Option<nat>, rs: seq<Range>): seq<Xperm> {
    seq(|rs|, k requires 0 <= k < |rs| => ItemOf(driver, rs[k]))
  }

  predicate AreXperms(xs: seq<Xperm>) {
    forall k :: 0 <= k < |xs| ==> IsXperm(xs[k]) && !xs[k].reset
  }

  function LineWords(name: string, src: string, tgt: string, cls: string, xs: seq<Xperm>): seq<string>
    requires AreXperms(xs)
  {
    [name, src, tgt, cls, "ioctl", "{"] + seq(|xs|, k requires 0 <= k < |xs| => ItemText(xs[k])) + ["}"]
  }

  /** The first `n` words, and what follows them on the line. */
  function Head(ws: seq<string>, n: nat): string
    requires 0 < n <= |ws|
  {
    if n == 1 then ws[0] else Head(ws, n - 1) + " " + ws[n - 1]
  }

  function Tail(ws: seq<string>, k: nat): string
    requires k <= |ws|
    decreases |ws| - k
  {
    if k == |ws| then "\n" else " " + ws[k] + Tail(ws, k + 1)
  }

  function LineText(ws: seq<string>): string
    requires ws != []
  {
    Head(ws, |ws|) + "\n"
  }

  lemma {:induction false} HeadTail(ws: seq<string>, n: nat)
    requires 0 < n <= |ws|
    ensures Head(ws, n) + Tail(ws, n) == LineText(ws)
    decreases |ws| - n
  {
    if n < |ws| {
      HeadTail(ws, n + 1);
      Join3(Head(ws, n), " ", ws[n], Tail(ws, n + 1));
    }
  }

  lemma {:induction false} Join3(a: string, b: string, c: string, d: string)
    ensures a + b + c + d == a + (b + c + d)
  {
  }

  lemma {:induction false} LineWordsShape(name: string, src: string, tgt: string, cls: string, xs: seq<Xperm>,
      ws: seq<string>)
    requires AreXperms(xs) && ws == LineWords(name, src, tgt, cls, xs)
    ensures |ws| == 7 + |xs| && ws[6 + |xs|] == "}"
    ensures ws[0] == name && ws[1] == src && ws[2] == tgt && ws[3] == cls && ws[4] == "ioctl" && ws[5] == "{"
    ensures forall k :: 0 <= k < |xs| ==> ws[6 + k] == ItemText(xs[k])
  {
  }

  lemma {:induction false} ItemsShape(perms: set<nat>, driver: Option<nat>, rs: seq<Range>)
    requires RangesOf(perms, rs, 256) && (driver.Some? ==> driver.value <= 255)
    ensures AreXperms(Items(driver, rs)) && |Items(driver, rs)| == |rs|
    ensures forall k :: 0 <= k < |rs| ==>
      rs[k].lo <= rs[k].hi <= 255 && Items(driver, rs)[k] == ItemOf(driver, rs[k]) && IsXperm(ItemOf(driver, rs[k]))
  {
    forall k | 0 <= k < |rs| ensures rs[k].lo <= rs[k].hi <= 255 && IsXperm(ItemOf(driver, rs[k])) {
      assert Maximal(perms, rs[k]);
    }
  }

  /** Prints a node of the key; a node without bits is not printed. */
  method PrintNode(name: string, src: string, tgt: string, cls: string, driver: Option<nat>, perms: set<nat>)
      returns (text: string, rs: seq<Range>)
    requires driver.Some? ==> driver.value <= 255
    ensures RangesOf(perms, rs, 256) && AreXperms(Items(driver, rs))
    ensures text == if rs == [] then "" else LineText(LineWords(name, src, tgt, cls, Items(driver, rs)))
  {
    rs := Ranges(perms);
    ItemsShape(perms, driver, rs);
    if rs == [] {
      return "", rs;
    }
    LineWordsShape(name, src, tgt, cls, Items(driver, rs), LineWords(name, src, tgt, cls, Items(driver, rs)));
    text := PrintLine(name, src, tgt, cls, driver, rs, LineWords(name, src, tgt, cls, Items(driver, rs)));
  }

  method PrintLine(name: string, src: string, tgt: string, cls: string, driver: Option<nat>, rs: seq<Range>,
      ghost ws: seq<string>) returns (text: string)
    requires |ws| == 7 + |rs| && ws[6 + |rs|] == "}"
    requires ws[0] == name && ws[1] == src && ws[2] == tgt && ws[3] == cls && ws[4] == "ioctl" && ws[5] == "{"
    requires forall k :: 0 <= k < |rs| ==>
      IsXperm(ItemOf(driver, rs[k])) && ws[6 + k] == ItemText(ItemOf(driver, rs[k]))
    ensures text == LineText(ws)
  {
    HeadSix(ws, name, src, tgt, cls);
    text := PrintItems(name + " " + src + " " + tgt + " " + cls + " ioctl {", driver, rs, ws);
    text := text + " " + "}" + "\n";
  }

  method PrintItems(start: string, driver: Option<nat>, rs: seq<Range>, ghost ws: seq<string>) returns (text: string)
    requires |ws| >= 6 + |rs| && start == Head(ws, 6)
    requires forall k :: 0 <= k < |rs| ==>
      IsXperm(ItemOf(driver, rs[k])) && ws[6 + k] == ItemText(ItemOf(driver, rs[k]))
    ensures text == Head(ws, 6 + |rs|)
  {
    text := start;
    for k := 0 to |rs|
      invariant text == Head(ws, 6 + k)
    {
      var x := ItemOf(driver, rs[k]);
      assert ws[6 + k] == ItemText(x);
      if x.low == x.high {
        text := text + " " + Hex4(x.low);
      } else {
        text := text + " " + (Hex4(x.low) + "-" + Hex4(x.high));
      }
    }
  }

  lemma {:induction false} HeadSix(ws: seq<string>, name: string, src: string, tgt: string, cls: string)
    requires |ws| >= 6 && ws[0] == name && ws[1] == src && ws[2] == tgt && ws[3] == cls && ws[4] == "ioctl" &&
      ws[5] == "{"
    ensures Head(ws, 6) == name + " " + src + " " + tgt + " " + cls + " ioctl {"
  {
    assert Head(ws, 2) == name + " " + src;
    assert Head(ws, 4) == Head(ws, 2) + " " + tgt + " " + cls;
    assert Head(ws, 5) == Head(ws, 4) + " " + "ioctl";
    assert " " + "ioctl" + " " + "{" == " ioctl {";
    Join3(Head(ws, 4), " ", "ioctl", " " + "{");
  }

  // ---------------------------------------------------------------------
  // Reading a printed line
  // ---------------------------------------------------------------------

  predicate IsWord(w: string) {
    w != "" && forall i :: 0 <= i < |w| ==> !IsSpace(w[i])
  }

  lemma {:induction false} WordEndAt(s: string, i: nat, j: nat)
    requires i <= j <= |s| && (forall k :: i <= k < j ==> !IsSpace(s[k])) && (j < |s| ==> IsSpace(s[j]))
    ensures WordEnd(s, i) == j
    decreases j - i
  {
    if i < j {
      WordEndAt(s, i + 1, j);
    }
  }

  lemma {:induction false} TailStarts(ws: seq<string>, k: nat)
    requires k <= |ws|
    ensures Tail(ws, k) != "" && IsSpace(Tail(ws, k)[0])
  {
  }

  lemma {:induction false} NextWord(s: string, i: nat, w: string, j: nat)
    requires IsWord(w) && i < j && j == i + 1 + |w| && j < |s|
    requires IsSpace(s[i]) && s[i + 1..j] == w && IsSpace(s[j])
    ensures Words(s, i) == [w] + Words(s, j)
  {
    assert forall k :: i + 1 <= k < j ==> s[k] == w[k - i - 1];
    assert SkipSpace(s, i + 1) == i + 1;
    WordEndAt(s, i + 1, j);
  }

  lemma {:induction false} SpacedWord(s: string, pre: string, w: string, rest: string)
    requires s == pre + (" " + w + rest) && rest != ""
    ensures var next := pre + " " + w;
            s == next + rest && s[|pre|] == ' ' && s[|pre| + 1..|next|] == w && s[|next|] == rest[0]
  {
    Join3(pre, " ", w, rest);
  }

  lemma {:induction false} NoMoreWords(pre: string)
    ensures Words(pre + "\n", |pre|) == []
  {
    var s := pre + "\n";
    assert s[|pre|] == '\n';
    assert SkipSpace(s, |pre| + 1) == |s|;
  }

  lemma {:induction false} WordsTail(s: string, pre: string, ws: seq<string>, k: nat)
    requires k <= |ws| && (forall j :: 0 <= j < |ws| ==> IsWord(ws[j])) && s == pre + Tail(ws, k)
    ensures Words(s, |pre|) == ws[k..]
    decreases |ws| - k
  {
    if k == |ws| {
      NoMoreWords(pre);
    } else {
      OneMoreWord(s, pre, ws, k, pre + " " + ws[k]);
      WordsTail(s, pre + " " + ws[k], ws, k + 1);
      assert ws[k..] == [ws[k]] + ws[k + 1..];
    }
  }

  lemma {:induction false} OneMoreWord(s: string, pre: string, ws: seq<string>, k: nat, next: string)
    requires k < |ws| && IsWord(ws[k]) && s == pre + Tail(ws, k) && next == pre + " " + ws[k]
    ensures s == next + Tail(ws, k + 1) && |next| <= |s| && Words(s, |pre|) == [ws[k]] + Words(s, |next|)
  {
    TailStarts(ws, k + 1);
    SpacedWord(s, pre, ws[k], Tail(ws, k + 1));
    NextWord(s, |pre|, ws[k], |next|);
  }

  lemma {:induction false} WordsOfLine(ws: seq<string>)
    requires ws != [] && forall j :: 0 <= j < |ws| ==> IsWord(ws[j])
    ensures Words(LineText(ws), 0) == ws
  {
    var s, w := LineText(ws), ws[0];
    HeadTail(ws, 1);
    TailStarts(ws, 1);
    assert s == w + Tail(ws, 1);
    assert SkipSpace(s, 0) == 0;
    WordEndAt(s, 0, |w|);
    WordsTail(s, w, ws, 1);
    assert s[0..|w|] == w;
  }

  lemma {:induction false} TokenizeSingles(ws: seq<string>, ts: seq<Token>, i: nat)
    requires |ws| == |ts| && i <= |ws| && forall k :: 0 <= k < |ws| ==> Extract(ws[k]) == [ts[k]]
    ensures Tokenize(ws, i) == ts[i..]
    decreases |ws| - i
  {
    if i < |ws| {
      TokenizeSingles(ws, ts, i + 1);
    }
  }

  predicate PlainWord(s: string) {
    s != "" && (forall i :: 0 <= i < |s| ==> Calm(s[i])) && s[0] != '~' && Keyword(s).None?
  }

  /** A name the tokenizer takes as it is. */
  predicate PlainId(s: string) {
    PlainWord(s) && ParseHex(s).None?
  }

  lemma {:induction false} PlainExtract(s: string)
    requires PlainWord(s)
    ensures Extract(s) == if ParseHex(s).Some? then [HX(ParseHex(s).value)] else [ID(s)]
  {
  }

  lemma {:induction false} NotKeyword(s: string)
    requires s != "" && s[0] == '0'
    ensures Keyword(s).None?
  {
  }

  lemma {:induction false} NoHexValue(s: string, n: nat, k: nat)
    requires k < n <= |s| && HexDigit(s[k]).None?
    ensures HexValue(s, n).None?
  {
    if k < n - 1 {
      NoHexValue(s, n - 1, k);
    }
  }

  lemma {:induction false} FindAt(s: string, c: char, i: nat, k: nat)
    requires i <= k < |s| && s[k] == c && forall j :: i <= j < k ==> s[j] != c
    ensures Find(s, c, i) == Some(k)
    decreases k - i
  {
    if i < k {
      FindAt(s, c, i + 1, k);
    }
  }

  lemma {:induction false} RangeWord(a: string, b: string, s: string)
    requires HexWord(a) && HexWord(b) && s == a + "-" + b
    ensures PlainId(s)
    ensures Find(s, '-', 0) == Some(6) && s[..6] == a && s[7..] == b
  {
    assert forall i :: 0 <= i < 6 ==> s[i] == a[i];
    assert s[6] == '-';
    assert forall i :: 7 <= i < |s| ==> s[i] == b[i - 7];
    NotKeyword(s);
    FindAt(s, '-', 0, 6);
    var t := s[2..];
    assert t[0] == s[2] && t[4] == s[6];
    NoHexValue(t, |t|, 4);
  }

  function ItemToken(x: Xperm): Token
    requires IsXperm(x)
  {
    if x.low == x.high then HX(x.low) else ID(ItemText(x))
  }

  lemma {:induction false} ItemReads(x: Xperm)
    requires IsXperm(x) && !x.reset
    ensures IsWord(ItemText(x)) && Extract(ItemText(x)) == [ItemToken(x)]
    ensures x.low != x.high ==> HexRange(ItemText(x)) == Some((x.low, x.high))
  {
    var a, b, s := Hex4(x.low), Hex4(x.high), ItemText(x);
    HexRoundTrip(x.low);
    HexRoundTrip(x.high);
    if x.low == x.high {
      NotKeyword(s);
    } else {
      RangeWord(a, b, s);
    }
    PlainExtract(s);
  }

  lemma {:induction false} ParseItem(ts: seq<Token>, pos: nat, x: Xperm)
    requires IsXperm(x) && !x.reset && pos + 1 < |ts| && ts[pos] == ItemToken(x) && ts[pos + 1] != HP
    requires x.low != x.high ==> HexRange(ItemText(x)) == Some((x.low, x.high))
    ensures ParseXperm(ts, pos, false) == Ok(x, pos + 1)
  {
  }

  function LineTokens(action: Token, src: string, tgt: string, cls: string, xs: seq<Xperm>): seq<Token>
    requires AreXperms(xs)
  {
    [action, ID(src), ID(tgt), ID(cls), ID("ioctl"), LB] +
    seq(|xs|, k requires 0 <= k < |xs| => ItemToken(xs[k])) + [RB]
  }

  /** Item `j` of a line reads as it should. */
  ghost predicate Reads(ts: seq<Token>, xs: seq<Xperm>, j: nat)
    requires j < |xs| && 6 + j < |ts|
  {
    ts[6 + j] != RB && ParseXperm(ts, 6 + j, false) == Ok(xs[j], 7 + j)
  }

  lemma {:induction false} ParseItems(ts: seq<Token>, xs: seq<Xperm>, k: nat)
    requires k < |xs| && |ts| == 7 + |xs| && ts[6 + |xs|] == RB
    requires forall j :: 0 <= j < |xs| ==> Reads(ts, xs, j)
    ensures XpermList(ts, 6 + k, false, xs[..k]) == Ok(xs, |ts|)
    decreases |xs| - k
  {
    assert Reads(ts, xs, k);
    assert xs[..k] + [xs[k]] == xs[..k + 1];
    if k + 1 == |xs| {
      assert xs[..k + 1] == xs;
    } else {
      assert Reads(ts, xs, k + 1);
      ParseItems(ts, xs, k + 1);
    }
  }

  lemma {:induction false} ExecTokens(ts: seq<Token>, src: string, tgt: string, cls: string, xs: seq<Xperm>)
    requires |ts| > 6 && ts[0] in {AX, AY, DX} && ts[1] == ID(src) && ts[2] == ID(tgt) && ts[3] == ID(cls)
    requires ts[4] == ID("ioctl") && ts[5] == LB && XpermList(ts, 6, false, []) == Ok(xs, |ts|)
    ensures Exec(ts) == Some(Ioctl(ts[0], [src], [tgt], [cls], xs))
  {
    assert Sterm(ts, 1) == Ok([src], 2) && Sterm(ts, 2) == Ok([tgt], 3) && Sterm(ts, 3) == Ok([cls], 4);
    assert ParseXperms(ts, 5) == XpermItems(ts, 5, false) == Ok(xs, |ts|);
  }

  ghost predicate TokensShape(action: Token, src: string, tgt: string, cls: string, xs: seq<Xperm>, ts: seq<Token>)
    requires AreXperms(xs)
  {
    && |ts| == 7 + |xs| && ts[6 + |xs|] == RB
    && ts[0] == action && ts[1] == ID(src) && ts[2] == ID(tgt) && ts[3] == ID(cls) && ts[4] == ID("ioctl") &&
      ts[5] == LB
    && forall k :: 0 <= k < |xs| ==> ts[6 + k] == ItemToken(xs[k])
  }

  lemma {:induction false} LineTokensShape(action: Token, src: string, tgt: string, cls: string, xs: seq<Xperm>,
      ts: seq<Token>)
    requires AreXperms(xs) && ts == LineTokens(action, src, tgt, cls, xs)
    ensures TokensShape(action, src, tgt, cls, xs, ts)
  {
  }

  function ActionName(action: Token): string {
    if action == AX then "allowxperm" else if action == AY then "auditallowxperm" else "dontauditxperm"
  }

  lemma {:induction false} ActionReads(action: Token)
    requires action in {AX, AY, DX}
    ensures IsWord(ActionName(action)) && Extract(ActionName(action)) == [action] && ActionName(action)[0] != '#'
  {
  }

  lemma {:induction false} BraceReads(brace: string, c: char)
    requires brace == [c] && (c == '{' || c == '}')
    ensures IsWord(brace) && Extract(brace) == [if c == '{' then LB else RB]
  {
    assert brace[0] == c;
    assert Keyword(brace).None?;
    assert Find(brace, c, 0) == Some(0);
    assert brace[..0] == "" && brace[1..] == "";
    assert Extract("") == [];
  }

  lemma {:induction false} IoctlReads()
    ensures PlainId("ioctl")
  {
  }

  lemma {:induction false} PlainReads(s: string)
    requires PlainId(s)
    ensures IsWord(s) && Extract(s) == [ID(s)]
  {
    PlainExtract(s);
  }

  /** A word of the line reads as the token in its place. */
  ghost predicate ReadsAs(ws: seq<string>, ts: seq<Token>, k: nat)
    requires k < |ws| == |ts|
  {
    IsWord(ws[k]) && Extract(ws[k]) == [ts[k]]
  }

  lemma {:induction false} LineWordReads(action: Token, xs: seq<Xperm>, ws: seq<string>, ts: seq<Token>, k: nat)
    requires action in {AX, AY, DX} && AreXperms(xs) && |ws| == |ts| == 7 + |xs| && k < 7 + |xs|
    requires ws[0] == ActionName(action) && ts[0] == action && ws[5] == "{" && ts[5] == LB && ws[6 + |xs|] == "}" &&
      ts[6 + |xs|] == RB
    requires 1 <= k <= 4 ==> PlainId(ws[k]) && ts[k] == ID(ws[k])
    requires 6 <= k < 6 + |xs| ==> ws[k] == ItemText(xs[k - 6]) && ts[k] == ItemToken(xs[k - 6])
    ensures ReadsAs(ws, ts, k)
  {
    if k == 0 {
      ActionReads(action);
    } else if 1 <= k <= 4 {
      PlainReads(ws[k]);
    } else if k == 5 {
      BraceReads(ws[k], '{');
    } else if k == 6 + |xs| {
      BraceReads(ws[k], '}');
    } else {
      ItemReads(xs[k - 6]);
    }
  }

  lemma {:induction false} ShapedWordReads(action: Token, src: string, tgt: string, cls: string, xs: seq<Xperm>,
      ws: seq<string>, ts: seq<Token>, k: nat)
    requires action in {AX, AY, DX} && PlainId(src) && PlainId(tgt) && PlainId(cls) && PlainId("ioctl") && AreXperms(xs)
    requires |ws| == 7 + |xs| && TokensShape(action, src, tgt, cls, xs, ts) && k < |ws|
    requires ws[0] == ActionName(action) && ws[1] == src && ws[2] == tgt && ws[3] == cls && ws[4] == "ioctl"
    requires ws[5] == "{" && ws[6 + |xs|] == "}" && forall j :: 0 <= j < |xs| ==> ws[6 + j] == ItemText(xs[j])
    ensures ReadsAs(ws, ts, k)
  {
    if 6 <= k < 6 + |xs| {
      assert ws[6 + (k - 6)] == ItemText(xs[k - 6]) && ts[6 + (k - 6)] == ItemToken(xs[k - 6]);
    }
    LineWordReads(action, xs, ws, ts, k);
  }

  lemma {:induction false} LineTokenized(action: Token, src: string, tgt: string, cls: string, xs: seq<Xperm>,
      ws: seq<string>, ts: seq<Token>)
    requires action in {AX, AY, DX} && PlainId(src) && PlainId(tgt) && PlainId(cls) && AreXperms(xs)
    requires ws == LineWords(ActionName(action), src, tgt, cls, xs) && ts == LineTokens(action, src, tgt, cls, xs)
    ensures ParseStatement(LineText(ws)) == Exec(ts)
  {
    LineWordsShape(ActionName(action), src, tgt, cls, xs, ws);
    LineTokensShape(action, src, tgt, cls, xs, ts);
    ActionReads(action);
    IoctlReads();
    forall k | 0 <= k < |ws| ensures ReadsAs(ws, ts, k) {
      ShapedWordReads(action, src, tgt, cls, xs, ws, ts, k);
    }
    WordsRead(ws, ts);
  }

  lemma {:induction false} ParseOne(xs: seq<Xperm>, ts: seq<Token>, j: nat)
    requires AreXperms(xs) && j < |xs| && |ts| == 7 + |xs| && ts[6 + |xs|] == RB
    requires forall k :: 0 <= k < |xs| ==> ts[6 + k] == ItemToken(xs[k])
    ensures Reads(ts, xs, j)
  {
    ItemReads(xs[j]);
    if j + 1 < |xs| {
      assert ts[6 + (j + 1)] == ItemToken(xs[j + 1]);
    }
    ParseItem(ts, 6 + j, xs[j]);
  }

  lemma {:induction false} ExecLine(action: Token, src: string, tgt: string, cls: string, xs: seq<Xperm>,
      ts: seq<Token>)
    requires action in {AX, AY, DX} && AreXperms(xs) && xs != [] && TokensShape(action, src, tgt, cls, xs, ts)
    ensures Exec(ts) == Some(Ioctl(action, [src], [tgt], [cls], xs))
  {
    forall j | 0 <= j < |xs| ensures Reads(ts, xs, j) {
      ParseOne(xs, ts, j);
    }
    assert xs[..0] == [];
    ParseItems(ts, xs, 0);
    ExecTokens(ts, src, tgt, cls, xs);
  }

  /** A printed line reads back as the statement with the same items. */
  lemma {:induction false} LineReads(action: Token, src: string, tgt: string, cls: string, xs: seq<Xperm>)
    requires action in {AX, AY, DX} && PlainId(src) && PlainId(tgt) && PlainId(cls) && AreXperms(xs) && xs != []
    ensures ParseStatement(LineText(LineWords(ActionName(action), src, tgt, cls, xs))) ==
            Some(Ioctl(action, [src], [tgt], [cls], xs))
  {
    var ws, ts := LineWords(ActionName(action), src, tgt, cls, xs), LineTokens(action, src, tgt, cls, xs);
    LineTokenized(action, src, tgt, cls, xs, ws, ts);
    LineTokensShape(action, src, tgt, cls, xs, ts);
    ExecLine(action, src, tgt, cls, xs, ts);
  }

  lemma {:induction false} WordEndPlain(s: string, i: nat)
    requires i <= |s|
    ensures forall k :: i <= k < WordEnd(s, i) ==> !IsSpace(s[k])
    decreases |s| - i
  {
    if i < |s| && !IsSpace(s[i]) {
      WordEndPlain(s, i + 1);
    }
  }

  lemma {:induction false} WordsHaveNoSpace(s: string, i: nat)
    requires i <= |s|
    ensures forall k :: 0 <= k < |Words(s, i)| ==> NoSpace(Words(s, i)[k])
    decreases |s| - i
  {
    var a := SkipSpace(s, i);
    if a < |s| {
      WordEndPlain(s, a);
      WordsHaveNoSpace(s, WordEnd(s, a));
    }
  }

  predicate NoSpace(w: string) {
    forall i :: 0 <= i < |w| ==> !IsSpace(w[i])
  }

  ghost predicate PlainTokens(ts: seq<Token>) {
    forall k :: 0 <= k < |ts| && ts[k].ID? ==> PlainId(ts[k].name)
  }

  ghost predicate PlainNames(ns: seq<string>) {
    forall k :: 0 <= k < |ns| ==> PlainId(ns[k])
  }

  lemma {:induction false} PlainJoined(a: seq<Token>, t: Token, b: seq<Token>)
    requires PlainTokens(a) && PlainTokens(b) && !t.ID?
    ensures PlainTokens(a + [t] + b)
  {
  }

  lemma {:induction false} NoSpaceAround(s: string, at: nat)
    requires NoSpace(s) && at < |s|
    ensures NoSpace(s[..at]) && NoSpace(s[at + 1..])
  {
  }

  /** The last case: nothing to split at. */
  lemma {:induction false} LoneWord(s: string)
    requires NoSpace(s) && s != "" && Keyword(s).None? && s[0] != '~'
    requires Find(s, '{', 0).None? && Find(s, '}', 0).None? && Find(s, ',', 0).None?
    ensures PlainWord(s)
  {
  }

  lemma {:induction false} ExtractAt(s: string, at: nat, t: Token)
    requires Keyword(s).None? && s != "" && at < |s|
    requires var lb, rb, cm := Find(s, '{', 0), Find(s, '}', 0), Find(s, ',', 0);
             || (lb == Some(at) && t == LB) || (lb.None? && rb == Some(at) && t == RB)
             || (lb.None? && rb.None? && cm == Some(at) && t == CM)
    ensures Extract(s) == Extract(s[..at]) + [t] + Extract(s[at + 1..])
  {
  }

  lemma {:induction false} ExtractIsPlain(s: string)
    requires NoSpace(s)
    ensures PlainTokens(Extract(s))
    decreases |s|
  {
    if Keyword(s).Some? || s == "" {
      return;
    }
    var lb, rb, cm := Find(s, '{', 0), Find(s, '}', 0), Find(s, ',', 0);
    var at := if lb.Some? then lb else if rb.Some? then rb else cm;
    if at.Some? {
      var t := if lb.Some? then LB else if rb.Some? then RB else CM;
      ExtractAt(s, at.value, t);
      NoSpaceAround(s, at.value);
      ExtractIsPlain(s[..at.value]);
      ExtractIsPlain(s[at.value + 1..]);
      PlainJoined(Extract(s[..at.value]), t, Extract(s[at.value + 1..]));
    } else if s[0] == '~' {
      NoSpaceAround(s, 0);
      ExtractIsPlain(s[1..]);
      PlainJoined([], TL, Extract(s[1..]));
      assert [] + [TL] + Extract(s[1..]) == [TL] + Extract(s[1..]);
    } else {
      LoneWord(s);
      PlainExtract(s);
    }
  }

  lemma {:induction false} TokenizeIsPlain(words: seq<string>, i: nat)
    requires i <= |words| && forall k :: 0 <= k < |words| ==> NoSpace(words[k])
    ensures PlainTokens(Tokenize(words, i))
    decreases |words| - i
  {
    if i < |words| {
      ExtractIsPlain(words[i]);
      TokenizeIsPlain(words, i + 1);
    }
  }

  lemma {:induction false} NamesArePlain(ts: seq<Token>, pos: nat, names: Option<seq<string>>)
    requires PlainTokens(ts) && (names.Some? ==> PlainNames(names.value))
    ensures Names(ts, pos, names).Ok? ==> PlainNames(Names(ts, pos, names).value)
    decreases |ts| - pos
  {
    match Peek(ts, pos) {
      case Some(ID(n)) => NamesArePlain(ts, pos + 1, if names.Some? then Some(names.value + [n]) else None);
      case Some(ST) => NamesArePlain(ts, pos + 1, None);
      case _ =>
    }
  }

  lemma {:induction false} StermIsPlain(ts: seq<Token>, pos: nat)
    requires PlainTokens(ts)
    ensures Sterm(ts, pos).Ok? ==> PlainNames(Sterm(ts, pos).value)
  {
    if Peek(ts, pos) == Some(LB) {
      NamesArePlain(ts, pos + 1, Some([]));
    }
  }

  /** Whatever a line says, the names in its statement are ones the tokenizer takes as they are. */
  lemma {:induction false} StatementsArePlain(line: string)
    ensures var st := ParseStatement(line);
            st.Some? ==> PlainNames(st.value.src) && PlainNames(st.value.tgt) && PlainNames(st.value.cls)
  {
    var words := Words(line, 0);
    WordsHaveNoSpace(line, 0);
    var ts := Tokenize(words, 0);
    TokenizeIsPlain(words, 0);
    if ParseStatement(line).Some? {
      var s := Sterm(ts, 1);
      var t := Sterm(ts, s.pos);
      StermIsPlain(ts, 1);
      StermIsPlain(ts, s.pos);
      StermIsPlain(ts, t.pos);
    }
  }

  /** A printed line reads back as the statement with the same names and items exactly when the names are plain. */
  lemma {:induction false} LineReadsIff(action: Token, src: string, tgt: string, cls: string, xs: seq<Xperm>)
    requires action in {AX, AY, DX} && AreXperms(xs) && xs != []
    ensures ParseStatement(LineText(LineWords(ActionName(action), src, tgt, cls, xs))) ==
              Some(Ioctl(action, [src], [tgt], [cls], xs))
            <==> PlainId(src) && PlainId(tgt) && PlainId(cls)
  {
    var line, st := LineText(LineWords(ActionName(action), src, tgt, cls, xs)), Ioctl(action, [src], [tgt], [cls], xs);
    if PlainId(src) && PlainId(tgt) && PlainId(cls) {
      LineReads(action, src, tgt, cls, xs);
    } else {
      StatementsArePlain(line);
      assert st.src[0] == src && st.tgt[0] == tgt && st.cls[0] == cls;
    }
  }

  lemma {:induction false} WordsRead(ws: seq<string>, ts: seq<Token>)
    requires ws != [] && |ws| == |ts| && ws[0] != ""
    requires forall k :: 0 <= k < |ws| ==> ReadsAs(ws, ts, k)
    ensures ParseStatement(LineText(ws)) == if ws[0][0] == '#' then None else Exec(ts)
  {
    forall k | 0 <= k < |ws| ensures IsWord(ws[k]) && Extract(ws[k]) == [ts[k]] {
      assert ReadsAs(ws, ts, k);
    }
    WordsOfLine(ws);
    TokenizeSingles(ws, ts, 0);
    assert ts[0..] == ts;
  }

  // ---------------------------------------------------------------------
  // The round trip
  // ---------------------------------------------------------------------

  function Cover(rs: seq<Range>, k: nat): set<nat>
    requires k <= |rs|
  {
    if k == 0 then {} else Cover(rs, k - 1) + Span(rs[k - 1].lo, rs[k - 1].hi)
  }

  lemma {:induction false} CoverHas(rs: seq<Range>, k: nat, i: nat)
    requires k <= |rs|
    ensures i in Cover(rs, k) <==> exists j :: 0 <= j < k && rs[j].lo <= i <= rs[j].hi
  {
    if k > 0 {
      CoverHas(rs, k - 1, i);
    }
  }

  lemma {:induction false} CoverAll(perms: set<nat>, rs: seq<Range>)
    requires RangesOf(perms, rs, 256) && forall i :: i in perms ==> i <= 255
    ensures Cover(rs, |rs|) == perms
  {
    forall i: nat ensures i in Cover(rs, |rs|) <==> i in perms {
      CoverHas(rs, |rs|, i);
      if i in Cover(rs, |rs|) {
        var j :| 0 <= j < |rs| && rs[j].lo <= i <= rs[j].hi;
        assert Maximal(perms, rs[j]);
      }
    }
  }

  lemma {:induction false} Split16(d: nat, f: nat)
    requires f <= 255
    ensures Driver(d * 256 + f) == d && Func(d * 256 + f) == f
  {
  }

  lemma {:induction false} ApplyFunctionItem(n: Nodes, d: nat, r: Range)
    requires r.lo <= 255 && r.hi <= 255
    ensures Applied(n, FunctionItem(d, r)) == n.(funcs := n.funcs[d := FuncBits(n, d) + Span(r.lo, r.hi)])
  {
    Split16(d, r.lo);
    Split16(d, r.hi);
  }

  lemma {:induction false} FunctionItemsApply(d: nat, rs: seq<Range>, xs: seq<Xperm>, k: nat)
    requires k <= |rs| == |xs|
    requires forall j :: 0 <= j < |rs| ==> rs[j].lo <= rs[j].hi <= 255 && xs[j] == FunctionItem(d, rs[j])
    ensures ApplyAll(NO_NODES, xs, k) == if k == 0 then NO_NODES else Nodes(None, map[d := Cover(rs, k)])
  {
    if k > 0 {
      FunctionItemsApply(d, rs, xs, k - 1);
      ApplyFunctionItem(ApplyAll(NO_NODES, xs, k - 1), d, rs[k - 1]);
    }
  }

  lemma {:induction false} ApplyDriverItem(n: Nodes, r: Range)
    ensures r.lo == r.hi ==> r.lo in Applied(n, DriverItem(r)).funcs
    ensures r.lo != r.hi ==> Applied(n, DriverItem(r)) == n.(driver := Some(DriverBits(n) + Span(r.lo, r.hi)))
  {
    Split16(r.lo, 0);
    Split16(r.hi, 0);
  }

  /** Each range of at least two drivers sets driver bits; a lone driver sets one bit of a function node instead. */
  lemma {:induction false} DriverItemsApply(rs: seq<Range>, xs: seq<Xperm>, k: nat)
    requires k <= |rs| == |xs|
    requires forall j :: 0 <= j < |rs| ==> rs[j].lo <= rs[j].hi <= 255 && xs[j] == DriverItem(rs[j])
    ensures var n := ApplyAll(NO_NODES, xs, k);
            && (n.funcs == map[] <==> forall j :: 0 <= j < k ==> rs[j].lo < rs[j].hi)
            && (n.funcs == map[] ==> n.driver == if k == 0 then None else Some(Cover(rs, k)))
  {
    if k > 0 {
      DriverItemsApply(rs, xs, k - 1);
      FuncsStay(ApplyAll(NO_NODES, xs, k - 1), rs[k - 1]);
      ApplyDriverItem(ApplyAll(NO_NODES, xs, k - 1), rs[k - 1]);
    }
  }

  lemma {:induction false} FuncsStay(n: Nodes, r: Range)
    ensures n.funcs != map[] ==> Applied(n, DriverItem(r)).funcs != map[]
  {
    if d :| d in n.funcs {
      assert d in Applied(n, DriverItem(r)).funcs;
    }
  }

  /** Printing a function node, reading the line and applying it to an empty key gives the node back. */
  lemma {:induction false} FunctionNodeRoundTrip(action: Token, src: string, tgt: string, cls: string, d: nat,
      perms: set<nat>, rs: seq<Range>)
    requires action in {AX, AY, DX} && PlainId(src) && PlainId(tgt) && PlainId(cls) && d <= 255
    requires RangesOf(perms, rs, 256) && rs != [] && forall i :: i in perms ==> i <= 255
    ensures AreXperms(Items(Some(d), rs))
    ensures
      var xs := Items(Some(d), rs);
      && ParseStatement(LineText(LineWords(ActionName(action), src, tgt, cls, xs))) ==
         Some(Ioctl(action, [src], [tgt], [cls], xs))
      && ApplyAll(NO_NODES, xs, |xs|) == Nodes(None, map[d := perms])
  {
    ItemsShape(perms, Some(d), rs);
    LineReads(action, src, tgt, cls, Items(Some(d), rs));
    CoverAll(perms, rs);
    FunctionItemsApply(d, rs, Items(Some(d), rs), |rs|);
  }

  /** A driver node comes back exactly when each of its maximal ranges has at least two drivers. */
  lemma {:induction false} DriverNodeRoundTripIff(action: Token, src: string, tgt: string, cls: string,
      perms: set<nat>, rs: seq<Range>)
    requires action in {AX, AY, DX} && PlainId(src) && PlainId(tgt) && PlainId(cls)
    requires RangesOf(perms, rs, 256) && rs != [] && forall i :: i in perms ==> i <= 255
    ensures AreXperms(Items(None, rs))
    ensures
      var xs := Items(None, rs);
      && ParseStatement(LineText(LineWords(ActionName(action), src, tgt, cls, xs))) ==
         Some(Ioctl(action, [src], [tgt], [cls], xs))
      && (ApplyAll(NO_NODES, xs, |xs|) == Nodes(Some(perms), map[]) <==>
        forall k :: 0 <= k < |rs| ==> rs[k].lo < rs[k].hi)
  {
    ItemsShape(perms, None, rs);
    LineReads(action, src, tgt, cls, Items(None, rs));
    CoverAll(perms, rs);
    DriverItemsApply(rs, Items(None, rs), |rs|);
  }

  /** Outside braces the number zero stands for everything and is not a reset, so it grants every ioctl. */
  lemma {:induction false} ZeroGrantsAll(ts: seq<Token>, pos: nat, n: Nodes, d: nat, f: nat)
    requires pos < |ts| && ts[pos] == HX(0) && d <= 255 && f <= 255
    ensures ParseXperms(ts, pos) == Ok([Xperm(0, 0xFFFF, false)], pos + 1)
    ensures Grants(Applied(n, Xperm(0, 0xFFFF, false)), d, f)
  {
    AppliedGrants(n, Xperm(0, 0xFFFF, false), d, f);
    assert Driver(0) == 0 && Driver(0xFFFF) == 255;
  }
}
