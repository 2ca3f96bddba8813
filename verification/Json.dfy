/**
 The JSON the program writes and reads back: `json.dumps` in its compact and in its
 two-space indented form, and `json.loads` (strings as in section 7 of RFC 8259).
 A number with a fraction or an exponent is kept as its token (section 6 of RFC 8259).
 */
module Json {
  import opened Common
  import opened Decimal

  /** One digit or more. */
  type Digits = s: string | s != "" && AllDigits(s) witness "0"

  datatype Sign = NoSign | Plus | Minus

  datatype Exponent = Exponent(upper: bool, sign: Sign, digits: Digits)

  datatype Scale = Scale(fraction: Option<Digits>, exponent: Option<Exponent>)

  /** What makes a number a float: a fraction, an exponent, or both. */
  type FloatScale = t: Scale | t.fraction.Some? || t.exponent.Some? witness Scale(Some("0"), None)

  datatype Value =
    | Null
    | Bool(b: bool)
    | Num(n: int)
    | Float(negative: bool, whole: nat, scale: FloatScale)
    | Str(s: string)
    | Arr(items: seq<Value>)
    | Obj(fields: seq<Field>)

  datatype Field = Field(name: string, value: Value)

  /** `separators=(",", ":")`, or `indent=2` with `(",", ": ")`. */
  datatype Style = Compact | Indented

  // ---------------------------------------------------------------- printing

  function LowerHex(n: int): char
    requires 0 <= n < 16
  {
    if n < 10 then ('0' as int + n) as char else ('a' as int + n - 10) as char
  }

  /** `ensure_ascii=False`: only quotes, backslashes and C0 controls are escaped. */
  function EscapeChar(c: char): string {
    if c == '"' then "\\\""
    else if c == '\\' then "\\\\"
    else if c == '\n' then "\\n"
    else if c == '\r' then "\\r"
    else if c == '\t' then "\\t"
    else if c as int == 8 then "\\b"
    else if c as int == 12 then "\\f"
    else if c as int < 0x20 then "\\u00" + [LowerHex(c as int / 16), LowerHex(c as int % 16)]
    else [c]
  }

  function EscapeAll(s: string): string {
    if s == [] then [] else EscapeChar(s[0]) + EscapeAll(s[1..])
  }

  function PrintString(s: string): string {
    "\"" + (EscapeAll(s) + "\"")
  }

  function PrintInt(n: int): string {
    if n < 0 then "-" + Text(-n) else Text(n)
  }

  function PrintExponent(e: Exponent): string {
    (if e.upper then "E" else "e")
    + ((match e.sign case NoSign => "" case Plus => "+" case Minus => "-") + e.digits)
  }

  function PrintFraction(d: Option<Digits>): string {
    if d.Some? then "." + d.value else ""
  }

  function PrintPower(e: Option<Exponent>): string {
    if e.Some? then PrintExponent(e.value) else ""
  }

  function PrintScale(t: Scale): string {
    PrintFraction(t.fraction) + PrintPower(t.exponent)
  }

  function PrintFloat(negative: bool, whole: nat, scale: Scale): string {
    (if negative then "-" else "") + (Text(whole) + PrintScale(scale))
  }

  /** The line break and indentation in front of a nested item or closing bracket. */
  function Break(st: Style, depth: nat): string {
    if st.Compact? then "" else "\n" + seq(2 * depth, i => ' ')
  }

  function Colon(st: Style): string {
    if st.Compact? then ":" else ": "
  }

  function Print(v: Value, st: Style, depth: nat): string
    decreases v
  {
    match v
    case Null => "null"
    case Bool(b) => if b then "true" else "false"
    case Num(n) => PrintInt(n)
    case Float(negative, whole, scale) => PrintFloat(negative, whole, scale)
    case Str(s) => PrintString(s)
    case Arr(items) =>
      if items == [] then "[]"
      else "[" + (Break(st, depth + 1) + (PrintItems(items, st, depth + 1) + (Break(st, depth) + "]")))
    case Obj(fields) =>
      if fields == [] then "{}"
      else "{" + (Break(st, depth + 1) + (PrintFields(fields, st, depth + 1) + (Break(st, depth) + "}")))
  }

  function PrintItems(items: seq<Value>, st: Style, depth: nat): string
    decreases items
  {
    if items == [] then ""
    else if |items| == 1 then Print(items[0], st, depth)
    else Print(items[0], st, depth) + ("," + (Break(st, depth) + PrintItems(items[1..], st, depth)))
  }

  function PrintField(f: Field, st: Style, depth: nat): string
    decreases f
  {
    PrintString(f.name) + (Colon(st) + Print(f.value, st, depth))
  }

  function PrintFields(fields: seq<Field>, st: Style, depth: nat): string
    decreases fields
  {
    if fields == [] then ""
    else if |fields| == 1 then PrintField(fields[0], st, depth)
    else PrintField(fields[0], st, depth) + ("," + (Break(st, depth) + PrintFields(fields[1..], st, depth)))
  }

  // ----------------------------------------------------------------- parsing

  predicate Space(c: char) {
    c == ' ' || c == '\n' || c == '\t' || c == '\r'
  }

  function SkipSpace(s: string): (r: string)
    ensures |r| <= |s|
  {
    if s != [] && Space(s[0]) then SkipSpace(s[1..]) else s
  }

  function HexDigit(c: char): Option<nat> {
    if '0' <= c <= '9' then Some(c as int - '0' as int)
    else if 'a' <= c <= 'f' then Some(c as int - 'a' as int + 10)
    else if 'A' <= c <= 'F' then Some(c as int - 'A' as int + 10)
    else None
  }

  /** Four hexadecimal digits. */
  function Hex4(s: string): (r: Option<nat>)
    ensures r.Some? ==> |s| >= 4 && r.value < 0x1_0000
  {
    if |s| < 4 || HexDigit(s[0]).None? || HexDigit(s[1]).None? || HexDigit(s[2]).None? || HexDigit(s[3]).None?
    then None
    else Some(HexDigit(s[0]).value * 0x1000 + HexDigit(s[1]).value * 0x100
              + HexDigit(s[2]).value * 0x10 + HexDigit(s[3]).value)
  }

  /** What follows a backslash: the character meant and the unread text. */
  function Unescape(s: string): (r: Option<(char, string)>)
    ensures r.Some? ==> |r.value.1| < |s|
  {
    if s == [] then None
    else if s[0] == '"' || s[0] == '\\' || s[0] == '/' then Some((s[0], s[1..]))
    else if s[0] == 'n' then Some(('\n', s[1..]))
    else if s[0] == 'r' then Some(('\r', s[1..]))
    else if s[0] == 't' then Some(('\t', s[1..]))
    else if s[0] == 'b' then Some((8 as char, s[1..]))
    else if s[0] == 'f' then Some((12 as char, s[1..]))
    else if s[0] == 'u' && Hex4(s[1..]).Some? then
      var unit := Hex4(s[1..]).value;
      if unit < 0xD800 || unit >= 0xE000 then Some((unit as char, s[5..]))
      else if unit < 0xDC00 && |s| >= 11 && s[5] == '\\' && s[6] == 'u' && Hex4(s[7..]).Some?
              && 0xDC00 <= Hex4(s[7..]).value < 0xE000 then
        Some(((0x1_0000 + (unit - 0xD800) * 0x400 + (Hex4(s[7..]).value - 0xDC00)) as char, s[11..]))
      else None
    else None
  }

  /** The rest of a string literal after its opening quote. */
  function ParseString(s: string): (r: Option<(string, string)>)
    ensures r.Some? ==> |r.value.1| < |s|
    decreases |s|
  {
    if s == [] || s[0] as int < 0x20 then None
    else if s[0] == '"' then Some(([], s[1..]))
    else
      var head := if s[0] == '\\' then Unescape(s[1..]) else Some((s[0], s[1..]));
      if head.None? then None
      else
        var tail := ParseString(head.value.1);
        if tail.None? then None else Some(([head.value.0] + tail.value.0, tail.value.1))
  }

  predicate StartsFraction(s: string) {
    s != [] && (s[0] == '.' || s[0] == 'e' || s[0] == 'E')
  }

  /** `0`, or digits that do not begin with `0`. */
  function ParseWhole(s: string): (r: Option<(nat, string)>)
    ensures r.Some? ==> |r.value.1| < |s|
  {
    var run := if s != [] && s[0] == '0' then 1 else DigitRun(s);
    if run == 0 then None else Some((Number(s[..run]), s[run..]))
  }

  /** A leading run of digits, if there is one. */
  function ParseDigits(s: string): (r: Option<(Digits, string)>)
    ensures r.Some? ==> |r.value.1| < |s|
  {
    if DigitRun(s) == 0 then None else Some((s[..DigitRun(s)], s[DigitRun(s)..]))
  }

  function ParseFraction(s: string): (r: (Option<Digits>, string))
    ensures |r.1| <= |s|
  {
    if s == [] || s[0] != '.' then (None, s)
    else
      var d := ParseDigits(s[1..]);
      if d.None? then (None, s) else (Some(d.value.0), d.value.1)
  }

  function ParseSign(s: string): (r: (Sign, string))
    ensures |r.1| <= |s|
  {
    if s != [] && s[0] == '+' then (Plus, s[1..])
    else if s != [] && s[0] == '-' then (Minus, s[1..])
    else (NoSign, s)
  }

  function ParseExponent(s: string): (r: (Option<Exponent>, string))
    ensures |r.1| <= |s|
  {
    if s == [] || (s[0] != 'e' && s[0] != 'E') then (None, s)
    else
      var (sign, t) := ParseSign(s[1..]);
      var d := ParseDigits(t);
      if d.None? then (None, s) else (Some(Exponent(s[0] == 'E', sign, d.value.0)), d.value.1)
  }

  /** An unsigned number: an integer unless a fraction or an exponent follows. */
  function ParseUnsigned(negative: bool, s: string): (r: Option<(Value, string)>)
    ensures r.Some? ==> |r.value.1| < |s|
  {
    var w := ParseWhole(s);
    if w.None? then None
    else
      var (fraction, t) := ParseFraction(w.value.1);
      var (exponent, rest) := ParseExponent(t);
      if fraction.None? && exponent.None? then Some((Num(if negative then 0 - w.value.0 else w.value.0), rest))
      else Some((Float(negative, w.value.0, Scale(fraction, exponent)), rest))
  }

  function ParseNumber(s: string): (r: Option<(Value, string)>)
    ensures r.Some? ==> |r.value.1| < |s|
  {
    if s != [] && s[0] == '-' then ParseUnsigned(true, s[1..]) else ParseUnsigned(false, s)
  }

  function ParseValue(s: string): (r: Option<(Value, string)>)
    ensures r.Some? ==> |r.value.1| < |s|
    decreases |s|, 0
  {
    if s == [] then None
    else if StartsWith(s, "null") then Some((Null, s[4..]))
    else if StartsWith(s, "true") then Some((Bool(true), s[4..]))
    else if StartsWith(s, "false") then Some((Bool(false), s[5..]))
    else if s[0] == '"' then
      var t := ParseString(s[1..]);
      if t.None? then None else Some((Str(t.value.0), t.value.1))
    else if s[0] == '[' then
      var t := SkipSpace(s[1..]);
      if t != [] && t[0] == ']' then Some((Arr([]), t[1..]))
      else
        var items := ParseItems(t);
        if items.None? then None else Some((Arr(items.value.0), items.value.1))
    else if s[0] == '{' then
      var t := SkipSpace(s[1..]);
      if t != [] && t[0] == '}' then Some((Obj([]), t[1..]))
      else
        var fields := ParseFields(t);
        if fields.None? then None else Some((Obj(fields.value.0), fields.value.1))
    else ParseNumber(s)
  }

  function ParseItems(s: string): (r: Option<(seq<Value>, string)>)
    ensures r.Some? ==> |r.value.1| < |s|
    decreases |s|, 1
  {
    var v := ParseValue(s);
    if v.None? then None
    else
      var t := SkipSpace(v.value.1);
      if t == [] then None
      else if t[0] == ']' then Some(([v.value.0], t[1..]))
      else if t[0] == ',' then
        var more := ParseItems(SkipSpace(t[1..]));
        if more.None? then None else Some(([v.value.0] + more.value.0, more.value.1))
      else None
  }

  function ParseField(s: string): (r: Option<(Field, string)>)
    ensures r.Some? ==> |r.value.1| < |s|
    decreases |s|, 1
  {
    if s == [] || s[0] != '"' then None
    else
      var name := ParseString(s[1..]);
      if name.None? then None
      else
        var t := SkipSpace(name.value.1);
        if t == [] || t[0] != ':' then None
        else
          var v := ParseValue(SkipSpace(t[1..]));
          if v.None? then None else Some((Field(name.value.0, v.value.0), v.value.1))
  }

  function ParseFields(s: string): (r: Option<(seq<Field>, string)>)
    ensures r.Some? ==> |r.value.1| < |s|
    decreases |s|, 2
  {
    var f := ParseField(s);
    if f.None? then None
    else
      var t := SkipSpace(f.value.1);
      if t == [] then None
      else if t[0] == '}' then Some(([f.value.0], t[1..]))
      else if t[0] == ',' then
        var more := ParseFields(SkipSpace(t[1..]));
        if more.None? then None else Some(([f.value.0] + more.value.0, more.value.1))
      else None
  }

  /** `json.loads`. */
  function Loads(s: string): Option<Value> {
    var v := ParseValue(SkipSpace(s));
    if v.Some? && SkipSpace(v.value.1) == [] then Some(v.value.0) else None
  }

  // -------------------------------------------------------------- round trip

  /** Text after which a number cannot continue. */
  predicate Delimited(s: string) {
    s == [] || (!IsDigit(s[0]) && !StartsFraction(s))
  }

  /** Reading `head + rest` past a known head. */
  lemma Drop(head: string, rest: string)
    ensures (head + rest)[|head|..] == rest && (head + rest)[..|head|] == head
  {
  }

  lemma SkipNothing(s: string)
    requires s == [] || !Space(s[0])
    ensures SkipSpace(s) == s
  {
  }

  lemma {:induction false} SkipBlanks(n: nat, s: string)
    requires s == [] || !Space(s[0])
    ensures SkipSpace(seq(n, i => ' ') + s) == s
  {
    var t := seq(n, i => ' ') + s;
    if n > 0 {
      assert t[1..] == seq(n - 1, i => ' ') + s;
      SkipBlanks(n - 1, s);
    } else {
      assert t == s;
    }
  }

  lemma SkipBreak(st: Style, depth: nat, s: string)
    requires s == [] || !Space(s[0])
    ensures SkipSpace(Break(st, depth) + s) == s
  {
    if st.Compact? {
      assert Break(st, depth) + s == s;
    } else {
      var blanks: string := seq(2 * depth, i => ' ');
      assert (Break(st, depth) + s)[1..] == blanks + s;
      SkipBlanks(2 * depth, s);
    }
  }

  lemma ParseEscapedChar(c: char, rest: string)
    ensures var t := EscapeChar(c) + rest;
            && t[0] as int >= 0x20 && t[0] != '"'
            && (if t[0] == '\\' then Unescape(t[1..]) else Some((t[0], t[1..]))) == Some((c, rest))
  {
    var t := EscapeChar(c) + rest;
    if c as int < 0x20 && |EscapeChar(c)| == 6 {
      assert t[1..] == "u00" + [LowerHex(c as int / 16), LowerHex(c as int % 16)] + rest;
      assert t[1..][1..][..4] == "00" + [LowerHex(c as int / 16), LowerHex(c as int % 16)];
      assert t[1..][5..] == rest;
    } else if |EscapeChar(c)| == 2 {
      assert t[1..] == EscapeChar(c)[1..] + rest;
      assert t[1..][1..] == rest;
    } else {
      assert t[1..] == rest;
    }
  }

  lemma {:induction false} ParseEscaped(s: string, rest: string)
    ensures ParseString(EscapeAll(s) + ("\"" + rest)) == Some((s, rest))
  {
    var t := EscapeAll(s) + ("\"" + rest);
    if s == [] {
      assert t == "\"" + rest;
      assert t[1..] == rest;
    } else {
      var u := EscapeAll(s[1..]) + ("\"" + rest);
      assert t == EscapeChar(s[0]) + u;
      ParseEscapedChar(s[0], u);
      ParseEscaped(s[1..], rest);
      assert s == [s[0]] + s[1..];
    }
  }

  lemma ParsePrintedWhole(n: nat, rest: string)
    requires rest == [] || !IsDigit(rest[0])
    ensures ParseWhole(Text(n) + rest) == Some((n, rest))
  {
    DigitRunOf(Text(n), rest);
    Drop(Text(n), rest);
    ValueOfText(n);
    assert (Text(n) + rest)[0] == Text(n)[0];
  }

  lemma ParsePrintedDigits(d: Digits, rest: string)
    requires rest == [] || !IsDigit(rest[0])
    ensures ParseDigits(d + rest) == Some((d, rest))
  {
    DigitRunOf(d, rest);
    Drop(d, rest);
  }

  lemma ParsePrintedSign(sign: Sign, d: Digits, rest: string)
    ensures ParseSign((match sign case NoSign => "" case Plus => "+" case Minus => "-") + (d + rest)) == (sign, d + rest)
  {
    var mark := match sign case NoSign => "" case Plus => "+" case Minus => "-";
    var t := mark + (d + rest);
    if sign.NoSign? {
      assert t == d + rest && t[0] == d[0] && IsDigit(d[0]);
    } else {
      assert t[1..] == d + rest;
    }
  }

  lemma ParsePrintedExponent(e: Exponent, rest: string)
    requires Delimited(rest)
    ensures ParseExponent(PrintExponent(e) + rest) == (Some(e), rest)
  {
    var mark := match e.sign case NoSign => "" case Plus => "+" case Minus => "-";
    var t := PrintExponent(e) + rest;
    assert t[1..] == mark + (e.digits + rest);
    ParsePrintedSign(e.sign, e.digits, rest);
    ParsePrintedDigits(e.digits, rest);
  }

  lemma ParsePrintedPower(e: Option<Exponent>, rest: string)
    requires Delimited(rest)
    ensures ParseExponent(PrintPower(e) + rest) == (e, rest)
    ensures var t := PrintPower(e) + rest; t == [] || (!IsDigit(t[0]) && t[0] != '.')
  {
    if e.Some? {
      ParsePrintedExponent(e.value, rest);
    } else {
      assert PrintPower(e) + rest == rest;
    }
  }

  lemma ParsePrintedFraction(d: Option<Digits>, rest: string)
    requires rest == [] || (!IsDigit(rest[0]) && rest[0] != '.')
    ensures ParseFraction(PrintFraction(d) + rest) == (d, rest)
    ensures var t := PrintFraction(d) + rest; t == [] || !IsDigit(t[0])
  {
    if d.Some? {
      assert (PrintFraction(d) + rest)[1..] == d.value + rest;
      ParsePrintedDigits(d.value, rest);
    } else {
      assert PrintFraction(d) + rest == rest;
    }
  }

  /** Reading a printed fraction and exponent back, one after the other. */
  lemma ParsePrintedScale(t: Scale, rest: string)
    requires Delimited(rest)
    ensures var (fraction, after) := ParseFraction(PrintScale(t) + rest);
            fraction == t.fraction && ParseExponent(after) == (t.exponent, rest)
    ensures var u := PrintScale(t) + rest; u == [] || !IsDigit(u[0])
  {
    hide PrintFraction, PrintPower, ParseFraction, ParseExponent, Delimited, IsDigit;
    Regroup(PrintFraction(t.fraction), PrintPower(t.exponent), rest);
    ParsePrintedPower(t.exponent, rest);
    ParsePrintedFraction(t.fraction, PrintPower(t.exponent) + rest);
  }

  lemma ParsePrintedUnsigned(negative: bool, whole: nat, t: Scale, rest: string)
    requires Delimited(rest)
    ensures ParseUnsigned(negative, (Text(whole) + PrintScale(t)) + rest)
            == Some((if t.fraction.None? && t.exponent.None? then Num(if negative then 0 - whole else whole)
                     else Float(negative, whole, t), rest))
  {
    hide PrintScale, ParseFraction, ParseExponent, ParseWhole, Delimited, IsDigit;
    Regroup(Text(whole), PrintScale(t), rest);
    ParsePrintedScale(t, rest);
    ParsePrintedWhole(whole, PrintScale(t) + rest);
  }

  /** No printed value begins with white space or a closing bracket. */
  lemma PrintedHead(v: Value, st: Style, depth: nat)
    ensures Print(v, st, depth) != []
    ensures var c := Print(v, st, depth)[0]; !Space(c) && c != ']' && c != '}'
  {
  }

  lemma ParsePrintedSigned(negative: bool, whole: nat, t: Scale, rest: string)
    requires Delimited(rest)
    ensures ParseNumber(PrintFloat(negative, whole, t) + rest)
            == Some((if t.fraction.None? && t.exponent.None? then Num(if negative then 0 - whole else whole)
                     else Float(negative, whole, t), rest))
  {
    hide PrintScale, ParseUnsigned, Delimited;
    var unsigned := Text(whole) + PrintScale(t);
    ParsePrintedUnsigned(negative, whole, t, rest);
    if negative {
      assert (("-" + unsigned) + rest)[1..] == unsigned + rest;
    } else {
      assert "" + unsigned == unsigned;
      assert (unsigned + rest)[0] == Text(whole)[0] && IsDigit(Text(whole)[0]);
    }
  }

  // One parsing step each, with the printed text abstracted away.

  lemma ParseArray(body: string, t: string, items: seq<Value>, rest: string)
    requires SkipSpace(body) == t && t != [] && t[0] != ']'
    requires ParseItems(t) == Some((items, rest))
    ensures ParseValue("[" + body) == Some((Arr(items), rest))
  {
    hide ParseItems, ParseFields, ParseString, ParseNumber, SkipSpace;
    assert "null"[0] == 'n' && "true"[0] == 't' && "false"[0] == 'f';
    assert ("[" + body)[1..] == body;
  }

  lemma ParseObject(body: string, t: string, fields: seq<Field>, rest: string)
    requires SkipSpace(body) == t && t != [] && t[0] != '}'
    requires ParseFields(t) == Some((fields, rest))
    ensures ParseValue("{" + body) == Some((Obj(fields), rest))
  {
    hide ParseItems, ParseFields, ParseString, ParseNumber, SkipSpace;
    assert "null"[0] == 'n' && "true"[0] == 't' && "false"[0] == 'f';
    assert ("{" + body)[1..] == body;
  }

  lemma LastItem(s: string, v: Value, tail: string, rest: string)
    requires ParseValue(s) == Some((v, tail)) && SkipSpace(tail) == "]" + rest
    ensures ParseItems(s) == Some(([v], rest))
  {
    assert ("]" + rest)[1..] == rest;
  }

  lemma AnotherItem(s: string, v: Value, tail: string, next: string, more: seq<Value>, rest: string)
    requires ParseValue(s) == Some((v, "," + tail)) && SkipSpace(tail) == next
    requires ParseItems(next) == Some((more, rest))
    ensures ParseItems(s) == Some(([v] + more, rest))
  {
    assert ("," + tail)[1..] == tail;
  }

  lemma OneField(name: string, tail: string, next: string, v: Value, rest: string)
    requires SkipSpace(tail) == next && ParseValue(next) == Some((v, rest))
    ensures ParseField(PrintString(name) + (":" + tail)) == Some((Field(name, v), rest))
  {
    hide ParseValue, EscapeAll;
    var t := PrintString(name) + (":" + tail);
    assert t[1..] == EscapeAll(name) + ("\"" + (":" + tail));
    ParseEscaped(name, ":" + tail);
    assert (":" + tail)[1..] == tail;
  }

  lemma LastField(s: string, f: Field, tail: string, rest: string)
    requires ParseField(s) == Some((f, tail)) && SkipSpace(tail) == "}" + rest
    ensures ParseFields(s) == Some(([f], rest))
  {
    assert ("}" + rest)[1..] == rest;
  }

  lemma AnotherField(s: string, f: Field, tail: string, next: string, more: seq<Field>, rest: string)
    requires ParseField(s) == Some((f, "," + tail)) && SkipSpace(tail) == next
    requires ParseFields(next) == Some((more, rest))
    ensures ParseFields(s) == Some(([f] + more, rest))
  {
    assert ("," + tail)[1..] == tail;
  }

  /** A bracketed group followed by more text, regrouped from the left. */
  lemma RegroupNested(open: string, brk: string, body: string, brk': string, close: string, rest: string)
    ensures (open + (brk + (body + (brk' + close)))) + rest == open + (brk + (body + (brk' + (close + rest))))
  {
    Regroup(open, brk + (body + (brk' + close)), rest);
    Regroup(brk, body + (brk' + close), rest);
    Regroup(body, brk' + close, rest);
    Regroup(brk', close, rest);
  }

  /** A first element, a comma and more elements followed by more text. */
  lemma RegroupList(first: string, brk: string, more: string, rest: string)
    ensures (first + ("," + (brk + more))) + rest == first + ("," + (brk + (more + rest)))
  {
    Regroup(first, "," + (brk + more), rest);
    Regroup(",", brk + more, rest);
    Regroup(brk, more, rest);
  }

  lemma ParseWord(word: string, rest: string)
    requires word in {"null", "true", "false"}
    ensures ParseValue(word + rest)
            == Some((if word == "null" then Null else Bool(word == "true"), rest))
  {
    var t := word + rest;
    Drop(word, rest);
    assert t[0] == word[0];
    assert word == "null" ==> StartsWith(t, "null");
    assert word == "true" ==> StartsWith(t, "true") && !StartsWith(t, "null");
    assert word == "false" ==> StartsWith(t, "false") && !StartsWith(t, "null") && !StartsWith(t, "true");
  }

  lemma ParseNumeral(t: string)
    requires t != [] && (t[0] == '-' || IsDigit(t[0]))
    ensures ParseValue(t) == ParseNumber(t)
  {
    hide ParseNumber, ParseString, ParseItems, ParseFields, SkipSpace;
    assert "null"[0] == 'n' && "true"[0] == 't' && "false"[0] == 'f';
  }

  lemma ParsePrintedFloat(negative: bool, whole: nat, t: Scale, rest: string)
    requires Delimited(rest)
    ensures ParseValue(PrintFloat(negative, whole, t) + rest)
            == Some((if t.fraction.None? && t.exponent.None? then Num(if negative then 0 - whole else whole)
                     else Float(negative, whole, t), rest))
  {
    hide ParseValue, ParseNumber, PrintScale;
    ParsePrintedSigned(negative, whole, t, rest);
    var u := PrintFloat(negative, whole, t) + rest;
    assert u[0] == if negative then '-' else Text(whole)[0];
    ParseNumeral(u);
  }

  lemma ParsePrintedNumber(n: int, rest: string)
    requires Delimited(rest)
    ensures ParseValue(PrintInt(n) + rest) == Some((Num(n), rest))
  {
    hide ParseValue;
    var whole: nat := if n < 0 then -n else n;
    ParsePrintedFloat(n < 0, whole, Scale(None, None), rest);
    assert PrintFloat(n < 0, whole, Scale(None, None)) == PrintInt(n);
  }

  lemma ParsePrintedText(s: string, rest: string)
    ensures ParseValue(PrintString(s) + rest) == Some((Str(s), rest))
  {
    hide EscapeAll, ParseString;
    ParseEscaped(s, rest);
    Regroup("\"", EscapeAll(s) + "\"", rest);
    Regroup(EscapeAll(s), "\"", rest);
    ParseQuoted(EscapeAll(s) + ("\"" + rest), s, rest);
  }

  lemma ParseQuoted(body: string, s: string, rest: string)
    requires ParseString(body) == Some((s, rest))
    ensures ParseValue("\"" + body) == Some((Str(s), rest))
  {
    hide ParseString, ParseItems, ParseFields, ParseNumber, SkipSpace;
    assert "null"[0] == 'n' && "true"[0] == 't' && "false"[0] == 'f';
    assert ("\"" + body)[1..] == body;
  }

  lemma ParseEmpty(v: Value, rest: string)
    requires v == Arr([]) || v == Obj([])
    ensures ParseValue(Print(v, Compact, 0) + rest) == Some((v, rest))
  {
    hide ParseItems, ParseFields, ParseString, ParseNumber, SkipSpace;
    var t := Print(v, Compact, 0) + rest;
    var close := if v.Arr? then "]" else "}";
    assert t[1..] == close + rest;
    assert t[0] == (if v.Arr? then '[' else '{');
    assert "null"[0] == 'n' && "true"[0] == 't' && "false"[0] == 'f';
    SkipNothing(close + rest);
    assert (close + rest)[1..] == rest;
  }

  /** loads(dumps(v)) = v, whatever follows the value in the text. */
  lemma {:induction false} ParsePrinted(v: Value, st: Style, depth: nat, rest: string)
    requires Delimited(rest)
    ensures ParseValue(Print(v, st, depth) + rest) == Some((v, rest))
    decreases v, 3
  {
    match v
    case Null => ParseWord("null", rest);
    case Bool(b) => ParseWord(if b then "true" else "false", rest);
    case Num(n) => ParsePrintedNumber(n, rest);
    case Float(negative, whole, scale) => ParsePrintedFloat(negative, whole, scale, rest);
    case Str(s) => ParsePrintedText(s, rest);
    case Arr(items) =>
      if items == [] { ParseEmpty(v, rest); } else { ParsePrintedArray(items, st, depth, rest); }
    case Obj(fields) =>
      if fields == [] { ParseEmpty(v, rest); } else { ParsePrintedObject(fields, st, depth, rest); }
  }

  lemma {:induction false} ParsePrintedArray(items: seq<Value>, st: Style, depth: nat, rest: string)
    requires items != []
    ensures ParseValue(Print(Arr(items), st, depth) + rest) == Some((Arr(items), rest))
    decreases items, 3
  {
    hide ParseValue, PrintItems, ParseItems, SkipSpace;
    var printed := PrintItems(items, st, depth + 1);
    var body := printed + (Break(st, depth) + ("]" + rest));
    RegroupNested("[", Break(st, depth + 1), printed, Break(st, depth), "]", rest);
    ItemsHead(items, st, depth + 1);
    SkipBreak(st, depth + 1, body);
    ParsePrintedItems(items, st, depth + 1, depth, rest);
    ParseArray(Break(st, depth + 1) + body, body, items, rest);
  }

  lemma {:induction false} ParsePrintedObject(fields: seq<Field>, st: Style, depth: nat, rest: string)
    requires fields != []
    ensures ParseValue(Print(Obj(fields), st, depth) + rest) == Some((Obj(fields), rest))
    decreases fields, 6
  {
    hide ParseValue, PrintFields, ParseFields, SkipSpace;
    var printed := PrintFields(fields, st, depth + 1);
    var body := printed + (Break(st, depth) + ("}" + rest));
    RegroupNested("{", Break(st, depth + 1), printed, Break(st, depth), "}", rest);
    FieldsHead(fields, st, depth + 1);
    SkipBreak(st, depth + 1, body);
    ParsePrintedFields(fields, st, depth + 1, depth, rest);
    ParseObject(Break(st, depth + 1) + body, body, fields, rest);
  }

  lemma ItemsHead(items: seq<Value>, st: Style, depth: nat)
    requires items != []
    ensures PrintItems(items, st, depth) != []
    ensures var c := PrintItems(items, st, depth)[0]; !Space(c) && c != ']'
  {
    PrintedHead(items[0], st, depth);
  }

  lemma FieldsHead(fields: seq<Field>, st: Style, depth: nat)
    requires fields != []
    ensures PrintFields(fields, st, depth) != [] && PrintFields(fields, st, depth)[0] == '"'
  {
    assert PrintField(fields[0], st, depth)[0] == '"';
  }

  lemma ItemsUnfold(items: seq<Value>, st: Style, depth: nat)
    requires items != []
    ensures PrintItems(items, st, depth)
            == if |items| == 1 then Print(items[0], st, depth)
               else Print(items[0], st, depth) + ("," + (Break(st, depth) + PrintItems(items[1..], st, depth)))
  {
    hide Print, Break;
  }

  lemma FieldsUnfold(fields: seq<Field>, st: Style, depth: nat)
    requires fields != []
    ensures PrintFields(fields, st, depth)
            == if |fields| == 1 then PrintField(fields[0], st, depth)
               else PrintField(fields[0], st, depth) + ("," + (Break(st, depth) + PrintFields(fields[1..], st, depth)))
  {
    hide PrintField, Break;
  }

  lemma BreakDelimits(st: Style, depth: nat, rest: string)
    requires rest != [] && (rest[0] == ']' || rest[0] == '}')
    ensures Delimited(Break(st, depth) + rest)
  {
  }

  lemma CommaDelimits(rest: string)
    ensures Delimited("," + rest)
  {
  }

  lemma {:induction false} ParsePrintedItems(items: seq<Value>, st: Style, depth: nat, outer: nat, rest: string)
    requires items != []
    ensures ParseItems(PrintItems(items, st, depth) + (Break(st, outer) + ("]" + rest))) == Some((items, rest))
    decreases items, 2
  {
    hide ParseItems, ParseValue, Print, SkipSpace, PrintItems, Break, Delimited;
    var end := Break(st, outer) + ("]" + rest);
    var t := PrintItems(items, st, depth) + end;
    ItemsUnfold(items, st, depth);
    BreakDelimits(st, outer, "]" + rest);
    if |items| == 1 {
      ParsePrinted(items[0], st, depth, end);
      SkipBreak(st, outer, "]" + rest);
      LastItem(t, items[0], end, rest);
      assert items == [items[0]];
    } else {
      var more := PrintItems(items[1..], st, depth) + end;
      var tail := Break(st, depth) + more;
      RegroupList(Print(items[0], st, depth), Break(st, depth), PrintItems(items[1..], st, depth), end);
      CommaDelimits(tail);
      ParsePrinted(items[0], st, depth, "," + tail);
      ItemsHead(items[1..], st, depth);
      SkipBreak(st, depth, more);
      ParsePrintedItems(items[1..], st, depth, outer, rest);
      AnotherItem(t, items[0], tail, more, items[1..], rest);
      assert items == [items[0]] + items[1..];
    }
  }

  lemma {:induction false} ParsePrintedField(f: Field, st: Style, depth: nat, rest: string)
    requires Delimited(rest)
    ensures ParseField(PrintField(f, st, depth) + rest) == Some((f, rest))
    decreases f, 4
  {
    var value := Print(f.value, st, depth) + rest;
    var tail := if st.Compact? then value else " " + value;
    assert PrintField(f, st, depth) + rest == PrintString(f.name) + (":" + tail);
    PrintedHead(f.value, st, depth);
    assert (" " + value)[1..] == value;
    ParsePrinted(f.value, st, depth, rest);
    OneField(f.name, tail, value, f.value, rest);
  }

  lemma {:induction false} ParsePrintedFields(fields: seq<Field>, st: Style, depth: nat, outer: nat, rest: string)
    requires fields != []
    ensures ParseFields(PrintFields(fields, st, depth) + (Break(st, outer) + ("}" + rest))) == Some((fields, rest))
    decreases fields, 5
  {
    hide ParseFields, ParseField, PrintField, SkipSpace, PrintFields, Break, Delimited;
    var end := Break(st, outer) + ("}" + rest);
    var t := PrintFields(fields, st, depth) + end;
    FieldsUnfold(fields, st, depth);
    BreakDelimits(st, outer, "}" + rest);
    if |fields| == 1 {
      ParsePrintedField(fields[0], st, depth, end);
      SkipBreak(st, outer, "}" + rest);
      LastField(t, fields[0], end, rest);
      assert fields == [fields[0]];
    } else {
      var more := PrintFields(fields[1..], st, depth) + end;
      var tail := Break(st, depth) + more;
      RegroupList(PrintField(fields[0], st, depth), Break(st, depth), PrintFields(fields[1..], st, depth), end);
      CommaDelimits(tail);
      ParsePrintedField(fields[0], st, depth, "," + tail);
      FieldsHead(fields[1..], st, depth);
      SkipBreak(st, depth, more);
      ParsePrintedFields(fields[1..], st, depth, outer, rest);
      AnotherField(t, fields[0], tail, more, fields[1..], rest);
      assert fields == [fields[0]] + fields[1..];
    }
  }

  /** `json.loads(json.dumps(v))` is `v`, in both styles and with a final newline. */
  lemma LoadsDumps(v: Value, st: Style)
    ensures Loads(Print(v, st, 0)) == Some(v)
    ensures Loads(Print(v, st, 0) + "\n") == Some(v)
  {
    PrintedHead(v, st, 0);
    ParsePrinted(v, st, 0, []);
    assert Print(v, st, 0) + [] == Print(v, st, 0);
    ParsePrinted(v, st, 0, "\n");
    assert SkipSpace("\n") == SkipSpace([]);
  }

  lemma PrintInjective(a: Value, b: Value, st: Style)
    requires Print(a, st, 0) == Print(b, st, 0)
    ensures a == b
  {
    LoadsDumps(a, st);
    LoadsDumps(b, st);
  }
}
