/** Base 64 as section 4 of RFC 4648 defines it, decoding as Python's validating decoder does. */
module Base64 {
  import opened Basics

  function Digit(i: int): char
    requires 0 <= i < 64
  {
    if i < 26 then ('A' as int + i) as char
    else if i < 52 then ('a' as int + (i - 26)) as char
    else if i < 62 then ('0' as int + (i - 52)) as char
    else if i == 62 then '+'
    else '/'
  }

  predicate InAlphabet(c: char) {
    'A' <= c <= 'Z' || 'a' <= c <= 'z' || '0' <= c <= '9' || c == '+' || c == '/'
  }

  function Value(c: char): (i: int)
    requires InAlphabet(c)
    ensures 0 <= i < 64
  {
    if 'A' <= c <= 'Z' then c as int - 'A' as int
    else if 'a' <= c <= 'z' then c as int - 'a' as int + 26
    else if '0' <= c <= '9' then c as int - '0' as int + 52
    else if c == '+' then 62
    else 63
  }

  lemma DigitValue(i: int)
    requires 0 <= i < 64
    ensures InAlphabet(Digit(i)) && Value(Digit(i)) == i
  {
  }

  lemma ValueDigit(c: char)
    requires InAlphabet(c)
    ensures Digit(Value(c)) == c
  {
  }

  function EncodeBlock(a: int, b: int, c: int): (s: string)
    requires 0 <= a < 256 && 0 <= b < 256 && 0 <= c < 256
    ensures |s| == 4
  {
    [Digit(a / 4), Digit(a % 4 * 16 + b / 16), Digit(b % 16 * 4 + c / 64), Digit(c % 64)]
  }

  function Encode(b: Bytes): string {
    if |b| == 0 then []
    else if |b| == 1 then EncodeBlock(b[0], 0, 0)[..2] + "=="
    else if |b| == 2 then EncodeBlock(b[0], b[1], 0)[..3] + "="
    else EncodeBlock(b[0], b[1], b[2]) + Encode(b[3..])
  }

  function Block(p: int, q: int, r: int, s: int): (b: Bytes)
    requires 0 <= p < 64 && 0 <= q < 64 && 0 <= r < 64 && 0 <= s < 64
    ensures |b| == 3
  {
    [p * 4 + q / 16, q % 16 * 16 + r / 4, r % 4 * 64 + s]
  }

  /**
    * `b64decode(..., validate=True)`: padding where it belongs, no other foreign character; stray low
    * bits are dropped.
    */
  function Decode(s: string): Option<Bytes> {
    if s == [] then Some([])
    else if |s| < 4 || !InAlphabet(s[0]) || !InAlphabet(s[1]) then None
    else if |s| == 4 && s[2..] == "==" then Some(Block(Value(s[0]), Value(s[1]), 0, 0)[..1])
    else if !InAlphabet(s[2]) then None
    else if |s| == 4 && s[3] == '=' then Some(Block(Value(s[0]), Value(s[1]), Value(s[2]), 0)[..2])
    else if !InAlphabet(s[3]) then None
    else
      var rest :- Decode(s[4..]);
      Some(Block(Value(s[0]), Value(s[1]), Value(s[2]), Value(s[3])) + rest)
  }

  /** `rstrip("=")`. */
  function StripPadding(s: string): string {
    if s != [] && s[|s| - 1] == '=' then StripPadding(s[..|s| - 1]) else s
  }

  predicate AllInAlphabet(s: string) {
    forall i :: 0 <= i < |s| ==> InAlphabet(s[i])
  }

  // ---------------------------------------------------------------- the alphabet and the bits

  /** Table 1 of RFC 4648. */
  const ALPHABET := "ABCDEFGHIJKLMNOPQRSTUVWXYZ" + "abcdefghijklmnopqrstuvwxyz" + "0123456789" + "+/"

  lemma DigitsAreTheAlphabet(i: int)
    requires 0 <= i < 64
    ensures |ALPHABET| == 64 && Digit(i) == ALPHABET[i]
  {
    if i < 26 {
      UpperCase(i);
    } else if i < 52 {
      LowerCase(i - 26);
    } else if i < 62 {
      Decimals(i - 52);
    }
  }

  lemma UpperCase(i: int)
    requires 0 <= i < 26
    ensures ALPHABET[i] as int == 'A' as int + i
  {
    assert "ABCDEFGHIJKLMNOPQRSTUVWXYZ"[i] as int == 'A' as int + i;
  }

  lemma LowerCase(i: int)
    requires 0 <= i < 26
    ensures ALPHABET[26 + i] as int == 'a' as int + i
  {
    assert "abcdefghijklmnopqrstuvwxyz"[i] as int == 'a' as int + i;
  }

  lemma Decimals(i: int)
    requires 0 <= i < 10
    ensures ALPHABET[52 + i] as int == '0' as int + i
  {
    assert "0123456789"[i] as int == '0' as int + i;
  }

  /** Four digits of a block spell, in base 64, the number that its three bytes spell in base 256. */
  lemma BlockSpellsItsBytes(a: int, b: int, c: int)
    requires 0 <= a < 256 && 0 <= b < 256 && 0 <= c < 256
    ensures var e := EncodeBlock(a, b, c);
            exists p, q, r, t | 0 <= p < 64 && 0 <= q < 64 && 0 <= r < 64 && 0 <= t < 64 ::
              && e == [ALPHABET[p], ALPHABET[q], ALPHABET[r], ALPHABET[t]]
              && ((p * 64 + q) * 64 + r) * 64 + t == (a * 256 + b) * 256 + c
  {
    var p, q, r, t := a / 4, a % 4 * 16 + b / 16, b % 16 * 4 + c / 64, c % 64;
    DigitsAreTheAlphabet(p);
    DigitsAreTheAlphabet(q);
    DigitsAreTheAlphabet(r);
    DigitsAreTheAlphabet(t);
    SameNumber(a, b, c);
    assert EncodeBlock(a, b, c) == [ALPHABET[p], ALPHABET[q], ALPHABET[r], ALPHABET[t]];
  }

  lemma SameNumber(a: int, b: int, c: int)
    requires 0 <= a < 256 && 0 <= b < 256 && 0 <= c < 256
    ensures ((a / 4 * 64 + (a % 4 * 16 + b / 16)) * 64 + (b % 16 * 4 + c / 64)) * 64 + c % 64
         == (a * 256 + b) * 256 + c
  {
    assert a == a / 4 * 4 + a % 4 && b == b / 16 * 16 + b % 16 && c == c / 64 * 64 + c % 64;
  }

  // ---------------------------------------------------------------- one block

  lemma BlockArithmetic(a: int, b: int, c: int)
    requires 0 <= a < 256 && 0 <= b < 256 && 0 <= c < 256
    ensures Block(a / 4, a % 4 * 16 + b / 16, b % 16 * 4 + c / 64, c % 64) == [a, b, c]
  {
  }

  lemma BlockOfEncoded(a: int, b: int, c: int)
    requires 0 <= a < 256 && 0 <= b < 256 && 0 <= c < 256
    ensures var e := EncodeBlock(a, b, c);
            && AllInAlphabet(e)
            && Block(Value(e[0]), Value(e[1]), Value(e[2]), Value(e[3])) == [a, b, c]
            && Value(e[2]) == b % 16 * 4 + c / 64
            && (c == 0 ==> Value(e[3]) == 0)
  {
    hide Digit, Value, InAlphabet, Block;
    DigitValue(a / 4);
    DigitValue(a % 4 * 16 + b / 16);
    DigitValue(b % 16 * 4 + c / 64);
    DigitValue(c % 64);
    BlockArithmetic(a, b, c);
  }

  lemma EncodedOfBlock(p: int, q: int, r: int, s: int)
    requires 0 <= p < 64 && 0 <= q < 64 && 0 <= r < 64 && 0 <= s < 64
    ensures var b := Block(p, q, r, s);
            EncodeBlock(b[0], b[1], b[2]) == [Digit(p), Digit(q), Digit(r), Digit(s)]
  {
    var b := Block(p, q, r, s);
    assert b[0] / 4 == p && b[0] % 4 == q / 16;
    assert b[1] / 16 == q % 16 && b[1] % 16 == r / 4;
    assert b[2] / 64 == r % 4 && b[2] % 64 == s;
  }

  // ---------------------------------------------------------------- whole strings

  lemma DecodeBlockFirst(e: string, tail: string)
    requires |e| == 4 && AllInAlphabet(e) && tail != [] && Decode(tail).Some?
    ensures Decode(e + tail) ==
            Some(Block(Value(e[0]), Value(e[1]), Value(e[2]), Value(e[3])) + Decode(tail).value)
  {
    hide InAlphabet, Value, Block;
    var s := e + tail;
    assert s[4..] == tail;
    assert s[0] == e[0] && s[1] == e[1] && s[2] == e[2] && s[3] == e[3];
  }

  lemma DecodeLastBlock(e: string)
    requires |e| == 3 && AllInAlphabet(e)
    ensures Decode(e + "=") == Some(Block(Value(e[0]), Value(e[1]), Value(e[2]), 0)[..2])
  {
    hide Value, Block;
    var s := e + "=";
    assert s[0] == e[0] && s[1] == e[1] && s[2] == e[2] && s[3] == '=';
    assert InAlphabet(s[2]) && s[2..][0] == s[2];
  }

  lemma EncodedShapeOfTwo(b: Bytes)
    requires |b| == 2
    ensures var s := Encode(b);
            && |s| == 4
            && s[3] == '=' && AllInAlphabet(s[..3])
            && Value(s[2]) % 4 == 0
            && Decode(s) == Some(b)
  {
    hide Digit, Value, InAlphabet, Block, EncodeBlock;
    var e := EncodeBlock(b[0], b[1], 0);
    BlockOfEncoded(b[0], b[1], 0);
    assert e[..3][0] == e[0] && e[..3][1] == e[1] && e[..3][2] == e[2];
    DecodeLastBlock(e[..3]);
    assert Encode(b)[..3] == e[..3];
    assert [b[0] as int, b[1] as int, 0][..2] == b;
  }

  /** Encoding two bytes more than a whole number of blocks: digits, the last with two zero bits, and one pad. */
  lemma {:induction false} EncodedShape(b: Bytes)
    requires |b| % 3 == 2
    ensures var s := Encode(b);
            && |s| == (|b| + 1) / 3 * 4
            && s[|s| - 1] == '=' && AllInAlphabet(s[..|s| - 1])
            && Value(s[|s| - 2]) % 4 == 0
            && Decode(s) == Some(b)
    decreases |b|
  {
    hide Digit, Value, InAlphabet, Block, EncodeBlock, Decode;
    if |b| == 2 {
      EncodedShapeOfTwo(b);
    } else {
      EncodedShape(b[3..]);
      BlockOfEncoded(b[0], b[1], b[2]);
      var e, tail := EncodeBlock(b[0], b[1], b[2]), Encode(b[3..]);
      var s := Encode(b);
      assert s == e + tail;
      DecodeBlockFirst(e, tail);
      assert forall i :: 4 <= i < |s| - 1 ==> s[i] == tail[..|tail| - 1][i - 4];
      assert b == [b[0], b[1], b[2]] + b[3..];
    }
  }

  lemma StrayBits(p: int, q: int, r: int)
    requires 0 <= p < 64 && 0 <= q < 64 && 0 <= r < 64
    ensures Block(p, q, r, 0)[..2] == Block(p, q, r / 4 * 4, 0)[..2]
    ensures Block(p, q, r / 4 * 4, 0)[2] == 0
  {
    assert r / 4 * 4 / 4 == r / 4 && r / 4 * 4 % 4 == 0;
  }

  lemma ReencodeLastBlock(e: string)
    requires |e| == 3 && AllInAlphabet(e)
    ensures var d := Decode(e + "=");
            && d.Some? && |d.value| == 2
            && Encode(d.value) == e[..2] + [Digit(Value(e[2]) / 4 * 4)] + "="
  {
    hide Digit, Value, InAlphabet, Block, EncodeBlock, Decode;
    var p, q, r := Value(e[0]), Value(e[1]), Value(e[2]);
    DecodeLastBlock(e);
    StrayBits(p, q, r);
    EncodedOfBlock(p, q, r / 4 * 4, 0);
    ValueDigit(e[0]);
    ValueDigit(e[1]);
    assert [Digit(p), Digit(q), Digit(r / 4 * 4), Digit(0)][..3] == e[..2] + [Digit(r / 4 * 4)];
  }

  lemma EncodeBlockFirst(b: Bytes, tail: Bytes)
    requires |b| == 3
    ensures Encode(b + tail) == EncodeBlock(b[0], b[1], b[2]) + Encode(tail)
  {
    hide EncodeBlock;
    assert (b + tail)[3..] == tail;
  }

  /** Decoding digits and one pad, then encoding again, clears the two stray bits and changes nothing else. */
  lemma {:induction false} ReencodeClearsStrayBits(e: string)
    requires |e| % 4 == 3 && AllInAlphabet(e)
    ensures var d := Decode(e + "=");
            && d.Some? && |d.value| == (|e| + 1) / 4 * 3 - 1
            && Encode(d.value) == e[..|e| - 1] + [Digit(Value(e[|e| - 1]) / 4 * 4)] + "="
    decreases |e|
  {
    hide Digit, Value, InAlphabet, Block, EncodeBlock, Decode, Encode;
    if |e| == 3 {
      ReencodeLastBlock(e);
    } else {
      var first, tail := e[..4], e[4..];
      ReencodeClearsStrayBits(tail);
      DecodeBlockFirst(first, tail + "=");
      assert e + "=" == first + (tail + "=");
      EncodedOfBlock(Value(e[0]), Value(e[1]), Value(e[2]), Value(e[3]));
      EncodeBlockFirst(Block(Value(e[0]), Value(e[1]), Value(e[2]), Value(e[3])), Decode(tail + "=").value);
      ValueDigit(e[0]);
      ValueDigit(e[1]);
      ValueDigit(e[2]);
      ValueDigit(e[3]);
      assert first == [e[0], e[1], e[2], e[3]];
      assert e[..|e| - 1] == first + tail[..|tail| - 1];
    }
  }

  lemma {:induction false} DecodeNeedsAlphabet(e: string)
    requires |e| % 4 == 3 && '=' !in e && Decode(e + "=").Some?
    ensures AllInAlphabet(e)
    decreases |e|
  {
    var s := e + "=";
    assert forall i :: 0 <= i < |e| ==> s[i] == e[i];
    if |e| == 3 {
      assert s[2..] != "==" by { assert s[2..][0] == e[2]; }
    } else {
      assert s[4..] == e[4..] + "=";
      DecodeNeedsAlphabet(e[4..]);
      assert forall i :: 4 <= i < |e| ==> e[i] == e[4..][i - 4];
    }
  }

  lemma StripOnePad(s: string)
    requires |s| >= 2 && s[|s| - 1] == '=' && s[|s| - 2] != '='
    ensures StripPadding(s) == s[..|s| - 1]
  {
    assert s[..|s| - 1][|s| - 2] == s[|s| - 2];
  }
}
