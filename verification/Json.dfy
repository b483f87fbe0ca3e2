/**
  * The compact JSON that the audit log authenticates: an array of `[name, value]` pairs whose
  * values are integers, strings or null, printed without spaces and with non-ASCII characters
  * left raw. Only the quotation mark, the reverse solidus and characters below U+0020 are
  * escaped (section 7 of RFC 8259). The parser below undoes the printer.
  */
module Json {
  import opened Basics

  datatype Scalar = Number(n: int) | Str(text: string) | Null

  datatype Field = Field(name: string, value: Scalar)

  // ---------------------------------------------------------------- printer

  function HexDigit(n: int): char
    requires 0 <= n < 16
  {
    if n < 10 then ('0' as int + n) as char else ('a' as int + (n - 10)) as char
  }

  function EscapeChar(c: char): (s: string)
    ensures s != []
  {
    if c == '\"' then "\\\""
    else if c == '\\' then "\\\\"
    else if c == '\n' then "\\n"
    else if c == '\r' then "\\r"
    else if c == '\t' then "\\t"
    else if c == 8 as char then "\\b"
    else if c == 12 as char then "\\f"
    else if c < ' ' then "\\u00" + [HexDigit(c as int / 16), HexDigit(c as int % 16)]
    else [c]
  }

  /** The last `n` characters, each replaced by its escape. */
  function EscapeLast(s: string, n: nat): string
    requires n <= |s|
    decreases n
  {
    if n == 0 then [] else EscapeChar(s[|s| - n]) + EscapeLast(s, n - 1)
  }

  function Escape(s: string): string {
    EscapeLast(s, |s|)
  }

  function Quote(s: string): string {
    ['\"'] + Escape(s) + ['\"']
  }

  function Digits(n: nat): (s: string)
    ensures s != [] && AllDigits(s)
  {
    if n < 10 then [HexDigit(n)] else Digits(n / 10) + [HexDigit(n % 10)]
  }

  function Decimal(n: int): (s: string)
    ensures s != [] && (s[0] == '-' || '0' <= s[0] <= '9')
  {
    if n < 0 then ['-'] + Digits(-n) else Digits(n)
  }

  function PrintScalar(v: Scalar): string {
    match v
    case Number(n) => Decimal(n)
    case Str(text) => Quote(text)
    case Null => "null"
  }

  function PrintField(f: Field): (s: string)
    ensures s != [] && s[0] == '['
  {
    ['['] + Quote(f.name) + [','] + PrintScalar(f.value) + [']']
  }

  /** The fields after the first one, each preceded by a comma. */
  function PrintMore(fs: seq<Field>): string {
    if fs == [] then [] else [','] + PrintField(fs[0]) + PrintMore(fs[1..])
  }

  function PrintDocument(fs: seq<Field>): string {
    if fs == [] then "[]" else ['['] + PrintField(fs[0]) + PrintMore(fs[1..]) + [']']
  }

  // ---------------------------------------------------------------- parser

  predicate IsDigit(c: char) {
    '0' <= c <= '9'
  }

  predicate AllDigits(s: string) {
    forall i :: 0 <= i < |s| ==> IsDigit(s[i])
  }

  function HexValue(c: char): Option<int> {
    if IsDigit(c) then Some(c as int - '0' as int)
    else if 'a' <= c <= 'f' then Some(c as int - 'a' as int + 10)
    else None
  }

  /** Consumes one given character. */
  function Expect(c: char, s: string): (r: Option<string>)
    ensures r.Some? ==> |r.value| < |s|
  {
    if s != [] && s[0] == c then Some(s[1..]) else None
  }

  /** Reads one possibly escaped character of a string body. */
  function ParseChar(s: string): (r: Option<(char, string)>)
    ensures r.Some? ==> |r.value.1| < |s|
  {
    if s == [] || s[0] == '\"' || s[0] < ' ' then None
    else if s[0] != '\\' then Some((s[0], s[1..]))
    else if |s| < 2 then None
    else if s[1] == '\"' then Some(('\"', s[2..]))
    else if s[1] == '\\' then Some(('\\', s[2..]))
    else if s[1] == 'n' then Some(('\n', s[2..]))
    else if s[1] == 'r' then Some(('\r', s[2..]))
    else if s[1] == 't' then Some(('\t', s[2..]))
    else if s[1] == 'b' then Some((8 as char, s[2..]))
    else if s[1] == 'f' then Some((12 as char, s[2..]))
    else if |s| >= 6 && s[1..4] == "u00" then
      var high :- HexValue(s[4]);
      var low :- HexValue(s[5]);
      Some(((high * 16 + low) as char, s[6..]))
    else None
  }

  /** Reads a string body up to and including its closing quotation mark. */
  function ParseBody(s: string): (r: Option<(string, string)>)
    ensures r.Some? ==> |r.value.1| < |s|
    decreases |s|
  {
    if s != [] && s[0] == '\"' then Some(([], s[1..]))
    else
      var (c, tail) :- ParseChar(s);
      var (text, rest) :- ParseBody(tail);
      Some(([c] + text, rest))
  }

  function DigitRun(s: string): (n: nat)
    ensures n <= |s| && AllDigits(s[..n])
    ensures n < |s| ==> !IsDigit(s[n])
  {
    if s == [] || !IsDigit(s[0]) then 0
    else
      var n := 1 + DigitRun(s[1..]);
      assert forall i :: 0 < i < n ==> s[i] == s[1..][i - 1];
      n
  }

  function NatValue(s: string): nat
    requires AllDigits(s)
  {
    if s == [] then 0 else NatValue(s[..|s| - 1]) * 10 + (s[|s| - 1] as int - '0' as int)
  }

  function ParseNumber(s: string): (r: Option<(int, string)>)
    ensures r.Some? ==> |r.value.1| < |s|
  {
    var negative := s != [] && s[0] == '-';
    var tail := if negative then s[1..] else s;
    var n := DigitRun(tail);
    if n == 0 then None
    else Some((if negative then 0 - NatValue(tail[..n]) else NatValue(tail[..n]), tail[n..]))
  }

  function ParseScalar(s: string): (r: Option<(Scalar, string)>)
    ensures r.Some? ==> |r.value.1| < |s|
  {
    if s != [] && s[0] == '\"' then
      var (text, rest) :- ParseBody(s[1..]);
      Some((Str(text), rest))
    else if |s| >= 4 && s[..4] == "null" then Some((Null, s[4..]))
    else
      var (n, rest) :- ParseNumber(s);
      Some((Number(n), rest))
  }

  /** Reads `["name",`. */
  function ParseName(s: string): (r: Option<(string, string)>)
    ensures r.Some? ==> |r.value.1| < |s|
  {
    var s1 :- Expect('[', s);
    var s2 :- Expect('\"', s1);
    var (name, s3) :- ParseBody(s2);
    var s4 :- Expect(',', s3);
    Some((name, s4))
  }

  /** Reads a value and the bracket that closes its field. */
  function ParseValue(s: string): (r: Option<(Scalar, string)>)
    ensures r.Some? ==> |r.value.1| < |s|
  {
    var (value, s1) :- ParseScalar(s);
    var s2 :- Expect(']', s1);
    Some((value, s2))
  }

  function ParseField(s: string): (r: Option<(Field, string)>)
    ensures r.Some? ==> |r.value.1| < |s|
  {
    var (name, s1) :- ParseName(s);
    var (value, s2) :- ParseValue(s1);
    Some((Field(name, value), s2))
  }

  function ParseMore(s: string): (r: Option<(seq<Field>, string)>)
    ensures r.Some? ==> |r.value.1| < |s|
    decreases |s|
  {
    if s == [] then None
    else if s[0] == ']' then Some(([], s[1..]))
    else
      var s1 :- Expect(',', s);
      var (f, s2) :- ParseField(s1);
      var (fs, s3) :- ParseMore(s2);
      Some(([f] + fs, s3))
  }

  function ParseDocument(s: string): Option<seq<Field>> {
    if s == "[]" then Some([])
    else
      var s1 :- Expect('[', s);
      var (f, s2) :- ParseField(s1);
      var (fs, s3) :- ParseMore(s2);
      if s3 == [] then Some([f] + fs) else None
  }

  // ---------------------------------------------------------------- round trip

  lemma CharRoundTrip(c: char, rest: string)
    ensures ParseChar(EscapeChar(c) + rest) == Some((c, rest))
    ensures EscapeChar(c)[0] != '\"'
  {
    var e := EscapeChar(c);
    var s := e + rest;
    assert s[|e|..] == rest;
    if |e| == 6 {
      HexRoundTrip(c as int, rest);
    }
  }

  lemma HexRoundTrip(n: int, rest: string)
    requires 0 <= n < 32
    ensures var s := "\\u00" + [HexDigit(n / 16), HexDigit(n % 16)] + rest;
            && s[0] == '\\' && s[1] == 'u' && s[1..4] == "u00" && s[6..] == rest
            && HexValue(s[4]) == Some(n / 16) && HexValue(s[5]) == Some(n % 16)
  {
    HexDigitValue(n / 16);
    HexDigitValue(n % 16);
  }

  lemma HexDigitValue(d: int)
    requires 0 <= d < 16
    ensures HexValue(HexDigit(d)) == Some(d)
  {
  }

  lemma {:induction false} LastRoundTrip(text: string, n: nat, rest: string)
    requires n <= |text|
    ensures ParseBody(EscapeLast(text, n) + ['\"'] + rest) == Some((text[|text| - n..], rest))
  {
    hide ParseChar, EscapeChar;
    var s := EscapeLast(text, n) + ['\"'] + rest;
    if n == 0 {
      assert s == ['\"'] + rest && s[1..] == rest;
      assert text[|text| - n..] == [];
    } else {
      var c, tail := text[|text| - n], EscapeLast(text, n - 1) + ['\"'] + rest;
      assert s == EscapeChar(c) + tail;
      CharRoundTrip(c, tail);
      LastRoundTrip(text, n - 1, rest);
      assert text[|text| - n..] == [c] + text[|text| - (n - 1)..];
    }
  }

  lemma BodyRoundTrip(text: string, rest: string)
    ensures ParseBody(Escape(text) + ['\"'] + rest) == Some((text, rest))
  {
    hide ParseBody, EscapeLast;
    LastRoundTrip(text, |text|, rest);
  }

  lemma {:induction false} NatValueOfDigits(n: nat)
    ensures NatValue(Digits(n)) == n
  {
    if n >= 10 {
      NatValueOfDigits(n / 10);
      var s := Digits(n);
      assert s[..|s| - 1] == Digits(n / 10);
    }
  }

  lemma {:induction false} DigitRunStops(ds: string, rest: string)
    requires AllDigits(ds)
    requires rest != [] ==> !IsDigit(rest[0])
    ensures DigitRun(ds + rest) == |ds|
  {
    var s := ds + rest;
    var n := DigitRun(s);
    assert forall i :: 0 <= i < |ds| ==> s[i] == ds[i];
    assert n >= |ds|;
    assert rest != [] ==> s[|ds|] == rest[0];
  }

  lemma NaturalRoundTrip(n: nat, rest: string)
    requires rest != [] ==> !IsDigit(rest[0])
    ensures ParseNumber(Digits(n) + rest) == Some((n as int, rest))
  {
    var ds := Digits(n);
    DigitRunStops(ds, rest);
    NatValueOfDigits(n);
    assert (ds + rest)[..|ds|] == ds;
    assert (ds + rest)[|ds|..] == rest;
    assert IsDigit(ds[0]) && (ds + rest)[0] == ds[0];
  }

  lemma NumberRoundTrip(n: int, rest: string)
    requires rest != [] ==> !IsDigit(rest[0])
    ensures ParseNumber(Decimal(n) + rest) == Some((n, rest))
  {
    hide DigitRun, NatValue, Digits;
    if n < 0 {
      NaturalRoundTrip(-n, rest);
      assert IsDigit(Digits(-n)[0]);
      var tail := Digits(-n) + rest;
      assert Decimal(n) + rest == ['-'] + tail;
      assert (['-'] + tail)[1..] == tail;
      assert tail[0] == Digits(-n)[0];
    } else {
      NaturalRoundTrip(n, rest);
      assert Decimal(n) == Digits(n);
    }
  }

  lemma StringRoundTrip(text: string, rest: string)
    ensures ParseScalar(Quote(text) + rest) == Some((Str(text), rest))
  {
    hide ParseBody, Escape;
    BodyRoundTrip(text, rest);
    assert (Quote(text) + rest)[1..] == Escape(text) + ['\"'] + rest;
  }

  lemma ScalarRoundTrip(v: Scalar, rest: string)
    requires rest != [] ==> !IsDigit(rest[0])
    ensures ParseScalar(PrintScalar(v) + rest) == Some((v, rest))
  {
    match v
    case Number(n) =>
      NumberRoundTrip(n, rest);
      assert (Decimal(n) + rest)[0] == Decimal(n)[0];
    case Str(text) =>
      StringRoundTrip(text, rest);
    case Null =>
      assert ("null" + rest)[..4] == "null" && ("null" + rest)[4..] == rest;
  }

  lemma NameRoundTrip(name: string, rest: string)
    ensures ParseName(['['] + Quote(name) + [','] + rest) == Some((name, rest))
  {
    hide ParseBody, Escape;
    var afterName := [','] + rest;
    var body := Escape(name) + ['\"'] + afterName;
    BodyRoundTrip(name, afterName);
    assert ['['] + Quote(name) + [','] + rest == ['['] + (['\"'] + body);
    assert (['['] + (['\"'] + body))[1..] == ['\"'] + body;
    assert (['\"'] + body)[1..] == body;
    assert afterName[1..] == rest;
  }

  lemma ValueRoundTrip(v: Scalar, rest: string)
    ensures ParseValue(PrintScalar(v) + [']'] + rest) == Some((v, rest))
  {
    hide ParseScalar, PrintScalar;
    ScalarRoundTrip(v, [']'] + rest);
    assert PrintScalar(v) + [']'] + rest == PrintScalar(v) + ([']'] + rest);
    assert ([']'] + rest)[1..] == rest;
  }

  lemma FieldRoundTrip(f: Field, rest: string)
    ensures ParseField(PrintField(f) + rest) == Some((f, rest))
  {
    var afterName := PrintScalar(f.value) + [']'] + rest;
    assert PrintField(f) + rest == ['['] + Quote(f.name) + [','] + afterName;
    NameRoundTrip(f.name, afterName);
    ValueRoundTrip(f.value, rest);
  }

  lemma MoreStep(s1: string, f: Field, s2: string, fs: seq<Field>, s3: string)
    requires ParseField(s1) == Some((f, s2))
    requires ParseMore(s2) == Some((fs, s3))
    ensures ParseMore([','] + s1) == Some(([f] + fs, s3))
  {
    assert ([','] + s1)[1..] == s1;
  }

  lemma Regroup(first: string, more: string, rest: string)
    ensures [','] + first + more + [']'] + rest == [','] + (first + (more + [']'] + rest))
  {
  }

  lemma {:induction false} MoreRoundTrip(fs: seq<Field>, rest: string)
    ensures ParseMore(PrintMore(fs) + [']'] + rest) == Some((fs, rest))
  {
    if fs == [] {
      assert PrintMore(fs) + [']'] + rest == [']'] + rest;
      assert ([']'] + rest)[1..] == rest;
    } else {
      var tail := PrintMore(fs[1..]) + [']'] + rest;
      FieldRoundTrip(fs[0], tail);
      MoreRoundTrip(fs[1..], rest);
      MoreStep(PrintField(fs[0]) + tail, fs[0], tail, fs[1..], rest);
      Regroup(PrintField(fs[0]), PrintMore(fs[1..]), rest);
      assert fs == [fs[0]] + fs[1..];
    }
  }

  lemma DocumentStep(s1: string, f: Field, s2: string, fs: seq<Field>)
    requires s1 != [] && s1[0] == '['
    requires ParseField(s1) == Some((f, s2))
    requires ParseMore(s2) == Some((fs, []))
    ensures ParseDocument(['['] + s1) == Some([f] + fs)
  {
    var s := ['['] + s1;
    assert s[1..] == s1;
    assert s[1] == '[';
  }

  lemma RegroupDocument(first: string, more: string)
    ensures ['['] + first + more + [']'] == ['['] + (first + (more + [']'] + []))
  {
  }

  lemma {:induction false} NonemptyDocumentRoundTrip(f: Field, fs: seq<Field>)
    ensures ParseDocument(['['] + PrintField(f) + PrintMore(fs) + [']']) == Some([f] + fs)
  {
    var first, tail := PrintField(f), PrintMore(fs) + [']'] + [];
    FieldRoundTrip(f, tail);
    MoreRoundTrip(fs, []);
    DocumentStep(first + tail, f, tail, fs);
    RegroupDocument(first, PrintMore(fs));
  }

  /** The parser undoes the printer on every list of fields. */
  lemma {:induction false} DocumentRoundTrip(fs: seq<Field>)
    ensures ParseDocument(PrintDocument(fs)) == Some(fs)
  {
    if fs != [] {
      NonemptyDocumentRoundTrip(fs[0], fs[1..]);
      assert fs == [fs[0]] + fs[1..];
    }
  }

  // ---------------------------------------------------------------- the text itself

  const HEX := "0123456789abcdef"

  /** Characters that stand for themselves: not a quotation mark, a reverse solidus or a control character. */
  predicate Plain(c: char) {
    0x20 <= c as int && c != '\"' && c != '\\'
  }

  /** The two-character escapes that the printer uses, and what they stand for. */
  predicate ShortEscape(c: char, e: char) {
    var v := c as int;
    || (v == 0x22 && e == '\"') || (v == 0x5C && e == '\\') || (v == 0x08 && e == 'b') || (v == 0x0C && e == 'f')
    || (v == 0x0A && e == 'n') || (v == 0x0D && e == 'r') || (v == 0x09 && e == 't')
  }

  /** Section 7 of RFC 8259: this text, inside quotation marks, stands for that character. */
  predicate StandsFor(text: string, c: char) {
    || (text == [c] && Plain(c))
    || (|text| == 2 && text[0] == '\\' && ShortEscape(c, text[1]))
    || (|text| == 6 && text[..4] == "\\u00" && c as int < 256
        && text[4] == HEX[c as int / 16] && text[5] == HEX[c as int % 16])
  }

  /** The printer leaves plain characters raw, and uses the long escape only where there is no short one. */
  lemma EscapeCharStandsFor(c: char)
    ensures StandsFor(EscapeChar(c), c)
    ensures |EscapeChar(c)| == 1 <==> Plain(c)
    ensures |EscapeChar(c)| == 2 <==> exists e :: ShortEscape(c, e)
  {
    if Plain(c) {
    } else if |EscapeChar(c)| == 6 {
      HexDigitIs(c as int / 16);
      HexDigitIs(c as int % 16);
    } else {
      assert ShortEscape(c, EscapeChar(c)[1]);
    }
  }

  lemma HexDigitIs(n: int)
    requires 0 <= n < 16
    ensures HexDigit(n) == HEX[n]
  {
  }

  /** Numbers in decimal: digits of that value, without leading zeros, after a minus sign when negative. */
  lemma {:induction false} DigitsAreDecimal(n: nat)
    ensures AllDigits(Digits(n)) && NatValue(Digits(n)) == n
    ensures Digits(n)[0] == '0' ==> n == 0 && |Digits(n)| == 1
  {
    NatValueOfDigits(n);
    if n >= 10 {
      DigitsAreDecimal(n / 10);
    }
  }

  predicate AllPlain(s: string) {
    forall i :: 0 <= i < |s| ==> Plain(s[i])
  }

  lemma {:induction false} PlainEscapesToItself(s: string, n: nat)
    requires AllPlain(s) && n <= |s|
    ensures EscapeLast(s, n) == s[|s| - n..]
  {
    hide EscapeChar;
    if n > 0 {
      PlainEscapesToItself(s, n - 1);
      PlainIsRaw(s[|s| - n]);
      assert s[|s| - n..] == [s[|s| - n]] + s[|s| - (n - 1)..];
    }
  }

  lemma PlainIsRaw(c: char)
    requires Plain(c)
    ensures EscapeChar(c) == [c]
  {
  }

  lemma PlainQuotes(s: string)
    requires AllPlain(s)
    ensures Quote(s) == "\"" + s + "\""
  {
    hide EscapeLast;
    PlainEscapesToItself(s, |s|);
    assert s[|s| - |s|..] == s;
  }
}
