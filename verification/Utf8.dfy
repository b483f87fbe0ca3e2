/**
  * UTF-8 as section 3 of RFC 3629 defines it. A `char` is a Unicode scalar value, so every
  * string can be encoded; the decoder is strict (no overlong forms, no surrogates).
  */
module Utf8 {
  import opened Basics

  function EncodeChar(c: char): (b: Bytes)
    ensures 1 <= |b| <= 4
  {
    var v := c as int;
    if v < 0x80 then [v]
    else if v < 0x800 then [0xC0 + v / 64, 0x80 + v % 64]
    else if v < 0x10000 then [0xE0 + v / 4096, 0x80 + v / 64 % 64, 0x80 + v % 64]
    else [0xF0 + v / 262144, 0x80 + v / 4096 % 64, 0x80 + v / 64 % 64, 0x80 + v % 64]
  }

  function Encode(s: string): Bytes {
    if s == [] then [] else EncodeChar(s[0]) + Encode(s[1..])
  }

  predicate Continuation(b: byte) {
    0x80 <= b < 0xC0
  }

  // The scalar value carried by a lead byte and its continuation bytes, six bits each.
  function Payload2(a: int, b: int): int {
    (a - 0xC0) * 64 + (b - 0x80)
  }

  function Payload3(a: int, b: int, c: int): int {
    (a - 0xE0) * 4096 + (b - 0x80) * 64 + (c - 0x80)
  }

  function Payload4(a: int, b: int, c: int, d: int): int {
    (a - 0xF0) * 262144 + (b - 0x80) * 4096 + (c - 0x80) * 64 + (d - 0x80)
  }

  /** The first character of `b` and the number of bytes it takes, if `b` starts with a well-formed one. */
  function DecodeChar(b: Bytes): (r: Option<(char, nat)>)
    ensures r.Some? ==> 1 <= r.value.1 <= |b|
  {
    if b == [] then None
    else if b[0] < 0x80 then Some((b[0] as char, 1))
    else if 0xC2 <= b[0] < 0xE0 && |b| >= 2 && Continuation(b[1]) then
      Some((Payload2(b[0], b[1]) as char, 2))
    else if 0xE0 <= b[0] < 0xF0 && |b| >= 3 && Continuation(b[1]) && Continuation(b[2]) then
      var v := Payload3(b[0], b[1], b[2]);
      if 0x800 <= v && !(0xD800 <= v < 0xE000) then Some((v as char, 3)) else None
    else if 0xF0 <= b[0] < 0xF5 && |b| >= 4 && Continuation(b[1]) && Continuation(b[2]) && Continuation(b[3]) then
      var v := Payload4(b[0], b[1], b[2], b[3]);
      if 0x10000 <= v < 0x110000 then Some((v as char, 4)) else None
    else None
  }

  function Decode(b: Bytes): Option<string>
    decreases |b|
  {
    if b == [] then Some([])
    else
      var (c, n) :- DecodeChar(b);
      var rest :- Decode(b[n..]);
      Some([c] + rest)
  }

  lemma Recompose(v: int)
    requires 0 <= v
    ensures v == v / 64 * 64 + v % 64
    ensures v / 64 == v / 4096 * 64 + v / 64 % 64
    ensures v / 4096 == v / 262144 * 64 + v / 4096 % 64
  {
  }

  lemma DecodeCharInvertsEncodeChar(c: char, rest: Bytes)
    ensures DecodeChar(EncodeChar(c) + rest) == Some((c, |EncodeChar(c)|))
  {
    var v, e := c as int, EncodeChar(c);
    Recompose(v);
    if v < 0x80 {
    } else if v < 0x800 {
      assert Payload2(e[0], e[1]) == v;
    } else if v < 0x10000 {
      assert Payload3(e[0], e[1], e[2]) == v;
    } else {
      assert Payload4(e[0], e[1], e[2], e[3]) == v;
    }
  }

  /** The byte sequences of section 3 of RFC 3629: the length by range, the lead byte's mark, six bits a byte. */
  lemma EncodeCharLayout(c: char)
    ensures var v, e: seq<int> := c as int, EncodeChar(c);
            && (forall i :: 0 < i < |e| ==> 0x80 <= e[i] <= 0xBF)
            && (v <= 0x7F ==> e == [v])
            && (0x80 <= v <= 0x7FF ==>
                  |e| == 2 && 0xC2 <= e[0] <= 0xDF && v == (e[0] - 0xC0) * 64 + (e[1] - 0x80))
            && (0x800 <= v <= 0xFFFF ==>
                  |e| == 3 && 0xE0 <= e[0] <= 0xEF
                  && v == ((e[0] - 0xE0) * 64 + (e[1] - 0x80)) * 64 + (e[2] - 0x80))
            && (0x10000 <= v ==>
                  |e| == 4 && 0xF0 <= e[0] <= 0xF4
                  && v == (((e[0] - 0xF0) * 64 + (e[1] - 0x80)) * 64 + (e[2] - 0x80)) * 64 + (e[3] - 0x80))
  {
    Recompose(c as int);
  }

  // Reading the digits back: the base-64 digits of a payload are the ones it was built from.
  lemma Digits2(a: int, b: int)
    requires 0xC0 <= a && 0x80 <= b < 0xC0
    ensures var v := Payload2(a, b); v / 64 == a - 0xC0 && v % 64 == b - 0x80
  {
  }

  lemma Digits3(a: int, b: int, c: int)
    requires 0xE0 <= a && 0x80 <= b < 0xC0 && 0x80 <= c < 0xC0
    ensures var v := Payload3(a, b, c);
            v / 4096 == a - 0xE0 && v / 64 % 64 == b - 0x80 && v % 64 == c - 0x80
  {
    assert Payload3(a, b, c) / 64 == (a - 0xE0) * 64 + (b - 0x80);
  }

  lemma Digits4(a: int, b: int, c: int, d: int)
    requires 0xF0 <= a && 0x80 <= b < 0xC0 && 0x80 <= c < 0xC0 && 0x80 <= d < 0xC0
    ensures var v := Payload4(a, b, c, d);
            && v / 262144 == a - 0xF0 && v / 4096 % 64 == b - 0x80
            && v / 64 % 64 == c - 0x80 && v % 64 == d - 0x80
  {
    assert Payload4(a, b, c, d) / 64 == (a - 0xF0) * 4096 + (b - 0x80) * 64 + (c - 0x80);
    assert Payload4(a, b, c, d) / 4096 == (a - 0xF0) * 64 + (b - 0x80);
  }

  lemma EncodeCharInvertsDecodeChar(b: Bytes)
    requires DecodeChar(b).Some?
    ensures var (c, n) := DecodeChar(b).value; EncodeChar(c) == b[..n]
  {
    if b[0] < 0x80 {
    } else if b[0] < 0xE0 {
      Digits2(b[0], b[1]);
    } else if b[0] < 0xF0 {
      Digits3(b[0], b[1], b[2]);
    } else {
      Digits4(b[0], b[1], b[2], b[3]);
    }
  }

  /** Strictness makes decoding the exact inverse: a byte string has at most one reading. */
  lemma {:induction false} DecodeIffEncode(b: Bytes, s: string)
    ensures Decode(b) == Some(s) <==> b == Encode(s)
    decreases |b| + |s|
  {
    if s != [] {
      DecodeCharInvertsEncodeChar(s[0], Encode(s[1..]));
      assert Encode(s)[|EncodeChar(s[0])|..] == Encode(s[1..]);
    }
    if b != [] && DecodeChar(b).Some? {
      var (c, n) := DecodeChar(b).value;
      EncodeCharInvertsDecodeChar(b);
      assert b == b[..n] + b[n..];
      if s != [] {
        DecodeIffEncode(b[n..], s[1..]);
        assert s == [s[0]] + s[1..];
      }
      if Decode(b[n..]).Some? {
        var t := Decode(b[n..]).value;
        assert ([c] + t)[0] == c && ([c] + t)[1..] == t;
      }
    }
  }
}
