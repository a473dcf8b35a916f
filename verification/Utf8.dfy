/** UTF-8 (section 3 of RFC 3629): `str::as_bytes`, and the check of `str::from_utf8`. */
module Utf8 {
  import opened Wrappers
  import opened Text

  /** The bytes of one scalar value. */
  function EncodeChar(c: char): (b: seq<byte>)
    ensures 1 <= |b| <= 4
  {
    var n := c as int;
    if n < 0x80 then [n]
    else if n < 0x800 then [0xC0 + n / 64, 0x80 + n % 64]
    else if n < 0x10000 then [0xE0 + n / 4096, 0x80 + n / 64 % 64, 0x80 + n % 64]
    else [0xF0 + n / 262144, 0x80 + n / 4096 % 64, 0x80 + n / 64 % 64, 0x80 + n % 64]
  }

  /** `str::as_bytes` */
  function Encode(s: string): (b: seq<byte>)
    ensures |s| <= |b|
  {
    if s == "" then [] else EncodeChar(s[0]) + Encode(s[1..])
  }

  predicate Tail(b: byte) {
    0x80 <= b < 0xC0
  }

  predicate IsScalar(n: int) {
    0 <= n < 0xD800 || 0xE000 <= n < 0x110000
  }

  function Code2(a: int, b: int): int {
    (a - 0xC0) * 64 + (b - 0x80)
  }

  function Code3(a: int, b: int, c: int): int {
    (a - 0xE0) * 4096 + (b - 0x80) * 64 + (c - 0x80)
  }

  function Code4(a: int, b: int, c: int, d: int): int {
    (a - 0xF0) * 262144 + (b - 0x80) * 4096 + (c - 0x80) * 64 + (d - 0x80)
  }

  /** The scalar value at the front of the bytes and its length: no overlong form, no surrogate. */
  function DecodeFirst(b: seq<byte>): (r: Option<(char, nat)>)
    ensures r.Some? ==> 1 <= r.value.1 <= |b|
  {
    if b == [] then None
    else if b[0] < 0x80 then Some((b[0] as char, 1))
    else if 0xC2 <= b[0] < 0xE0 then
      if |b| >= 2 && Tail(b[1]) then Some((Code2(b[0], b[1]) as char, 2)) else None
    else if 0xE0 <= b[0] < 0xF0 then
      if |b| >= 3 && Tail(b[1]) && Tail(b[2]) then
        var n := Code3(b[0], b[1], b[2]);
        if n >= 0x800 && IsScalar(n) then Some((n as char, 3)) else None
      else None
    else if 0xF0 <= b[0] < 0xF5 then
      if |b| >= 4 && Tail(b[1]) && Tail(b[2]) && Tail(b[3]) then
        var n := Code4(b[0], b[1], b[2], b[3]);
        if n >= 0x10000 && IsScalar(n) then Some((n as char, 4)) else None
      else None
    else None
  }

  /** `str::from_utf8` */
  function Decode(b: seq<byte>): Option<string>
    decreases |b|
  {
    if b == [] then Some("")
    else match DecodeFirst(b)
      case None => None
      case Some((c, n)) =>
        match Decode(b[n..])
        case None => None
        case Some(rest) => Some([c] + rest)
  }

  lemma Base64Digits(n: nat)
    ensures n / 64 / 64 == n / 4096 && n / 4096 / 64 == n / 262144
    ensures n == n / 4096 * 4096 + n / 64 % 64 * 64 + n % 64
    ensures n == n / 262144 * 262144 + n / 4096 % 64 * 4096 + n / 64 % 64 * 64 + n % 64
  {
  }

  lemma DigitsUnique(n: nat, q: nat, r: nat)
    requires n == q * 64 + r && r < 64
    ensures n / 64 == q && n % 64 == r
  {
  }

  lemma DecodeFirstEncode(c: char, rest: seq<byte>)
    ensures DecodeFirst(EncodeChar(c) + rest) == Some((c, |EncodeChar(c)|))
  {
    hide Code2, Code3, Code4;
    CodesOfEncoded(c);
    var (e, b) := (EncodeChar(c), EncodeChar(c) + rest);
    assert forall i | 0 <= i < |e| :: b[i] == e[i];
  }

  /** The arithmetic of the encoding, undone. */
  lemma CodesOfEncoded(c: char)
    ensures var e := EncodeChar(c);
      && (|e| == 2 ==> Code2(e[0], e[1]) == c as int)
      && (|e| == 3 ==> Code3(e[0], e[1], e[2]) == c as int)
      && (|e| == 4 ==> Code4(e[0], e[1], e[2], e[3]) == c as int)
  {
    Base64Digits(c as int);
  }

  /** The digits to base 64 of a three-byte code are those of its bytes. */
  lemma DigitsOfCode3(a: int, b: int, c: int)
    requires 0xE0 <= a && 0x80 <= b < 0xC0 && 0x80 <= c < 0xC0
    ensures var n := Code3(a, b, c); n / 4096 == a - 0xE0 && n / 64 % 64 == b - 0x80 && n % 64 == c - 0x80
  {
    var n := Code3(a, b, c);
    Base64Digits(n);
    DigitsUnique(n, (a - 0xE0) * 64 + (b - 0x80), c - 0x80);
    DigitsUnique(n / 64, a - 0xE0, b - 0x80);
  }

  lemma DigitsOfCode4(a: int, b: int, c: int, d: int)
    requires 0xF0 <= a && 0x80 <= b < 0xC0 && 0x80 <= c < 0xC0 && 0x80 <= d < 0xC0
    ensures var n := Code4(a, b, c, d);
      n / 262144 == a - 0xF0 && n / 4096 % 64 == b - 0x80 && n / 64 % 64 == c - 0x80 && n % 64 == d - 0x80
  {
    var n := Code4(a, b, c, d);
    Base64Digits(n);
    DigitsUnique(n, ((a - 0xF0) * 64 + (b - 0x80)) * 64 + (c - 0x80), d - 0x80);
    DigitsUnique(n / 64, (a - 0xF0) * 64 + (b - 0x80), c - 0x80);
    DigitsUnique(n / 4096, a - 0xF0, b - 0x80);
  }

  lemma EncodeDecodeFirst(b: seq<byte>)
    requires DecodeFirst(b).Some?
    ensures EncodeChar(DecodeFirst(b).value.0) == b[..DecodeFirst(b).value.1]
  {
    var (c, k) := DecodeFirst(b).value;
    if k == 2 {
      DigitsUnique(c as int, b[0] - 0xC0, b[1] - 0x80);
    } else if k == 3 {
      DigitsOfCode3(b[0], b[1], b[2]);
    } else if k == 4 {
      DigitsOfCode4(b[0], b[1], b[2], b[3]);
    }
    LengthOfFirst(b);
    assert forall i | 0 <= i < k :: EncodeChar(c)[i] == b[i];
  }

  lemma LengthOfFirst(b: seq<byte>)
    requires DecodeFirst(b).Some?
    ensures |EncodeChar(DecodeFirst(b).value.0)| == DecodeFirst(b).value.1
  {
  }

  lemma DecodeStep(c: char, rest: seq<byte>)
    ensures Decode(EncodeChar(c) + rest)
         == match Decode(rest) case None => None case Some(s) => Some([c] + s)
  {
    DecodeFirstEncode(c, rest);
    assert (EncodeChar(c) + rest)[|EncodeChar(c)|..] == rest;
  }

  /** Decoding undoes encoding, and keeps what follows. */
  lemma {:induction false} DecodeEncodeThen(s: string, rest: seq<byte>)
    ensures Decode(Encode(s) + rest)
         == match Decode(rest) case None => None case Some(t) => Some(s + t)
  {
    hide Decode, EncodeChar;
    if s == "" {
      assert Encode(s) + rest == rest;
      if Decode(rest).Some? {
        assert s + Decode(rest).value == Decode(rest).value;
      }
    } else {
      assert Encode(s) + rest == EncodeChar(s[0]) + (Encode(s[1..]) + rest);
      DecodeStep(s[0], Encode(s[1..]) + rest);
      DecodeEncodeThen(s[1..], rest);
      if Decode(rest).Some? {
        assert [s[0]] + (s[1..] + Decode(rest).value) == s + Decode(rest).value;
      }
    }
  }

  lemma DecodeEncode(s: string)
    ensures Decode(Encode(s)) == Some(s)
  {
    DecodeEncodeThen(s, []);
    assert Encode(s) + [] == Encode(s) && s + "" == s;
  }

  lemma EncodeCons(c: char, rest: string)
    ensures Encode([c] + rest) == EncodeChar(c) + Encode(rest)
  {
  }

  /** Only the encoding of a text decodes to it. */
  lemma {:induction false} EncodeDecode(b: seq<byte>)
    requires Decode(b).Some?
    ensures Encode(Decode(b).value) == b
    decreases |b|
  {
    hide DecodeFirst, EncodeChar;
    if b != [] {
      var first := DecodeFirst(b);
      EncodeDecodeFirst(b);
      var tail := b[first.value.1..];
      EncodeDecode(tail);
      EncodeCons(first.value.0, Decode(tail).value);
      assert b == b[..first.value.1] + tail;
    }
  }

  lemma {:induction false} EncodeAppend(s: string, t: string)
    ensures Encode(s + t) == Encode(s) + Encode(t)
  {
    if s == "" {
      assert s + t == t;
    } else {
      assert (s + t)[1..] == s[1..] + t;
      EncodeAppend(s[1..], t);
    }
  }

  /** Known codes of two, three and four bytes. */
  lemma KnownCodes()
    ensures EncodeChar('\U{e9}') == [0xC3, 0xA9]
    ensures EncodeChar('\U{30c4}') == [0xE3, 0x83, 0x84]
    ensures EncodeChar('\U{1f600}') == [0xF0, 0x9F, 0x98, 0x80]
  {
  }

  // ------ ASCII ----------------------------

  predicate IsAscii(b: seq<byte>) {
    forall x <- b :: x < 0x80
  }

  /** The text whose characters are these ASCII bytes. */
  function AsciiText(b: seq<byte>): (s: string)
    requires IsAscii(b)
    ensures |s| == |b| && forall i :: 0 <= i < |b| ==> s[i] == b[i] as char
  {
    seq(|b|, i requires 0 <= i < |b| => b[i] as char)
  }

  lemma {:induction false} EncodeAsciiText(b: seq<byte>)
    requires IsAscii(b)
    ensures Encode(AsciiText(b)) == b
  {
    hide AsciiText;
    if b != [] {
      assert forall x <- b[1..] :: x in b;
      EncodeAsciiText(b[1..]);
      assert AsciiText(b)[1..] == AsciiText(b[1..]);
      assert b[0] in b;
      assert b == [b[0]] + b[1..];
    }
  }

  lemma {:induction false} AsciiEncode(s: string)
    requires forall c <- s :: c as int < 0x80
    ensures |Encode(s)| == |s| && forall i :: 0 <= i < |s| ==> Encode(s)[i] == s[i] as int
  {
    if s != "" {
      assert s[0] in s;
      assert forall c <- s[1..] :: c in s;
      AsciiEncode(s[1..]);
    }
  }

  lemma {:induction false} AsciiChars(s: string)
    requires IsAscii(Encode(s))
    ensures forall c <- s :: c as int < 0x80
  {
    if s != "" {
      var b := EncodeChar(s[0]);
      assert b[0] in Encode(s);
      assert forall x <- Encode(s[1..]) :: x in Encode(s);
      AsciiChars(s[1..]);
      assert s == [s[0]] + s[1..];
    }
  }

  /** A text is ASCII just when its bytes are, and then they correspond one to one. */
  lemma AsciiBytes(s: string)
    ensures IsAscii(Encode(s)) <==> forall c <- s :: c as int < 0x80
    ensures IsAscii(Encode(s)) ==> |Encode(s)| == |s| && forall i :: 0 <= i < |s| ==> Encode(s)[i] == s[i] as int
  {
    if IsAscii(Encode(s)) {
      AsciiChars(s);
    }
    if forall c <- s :: c as int < 0x80 {
      AsciiEncode(s);
      assert forall i :: 0 <= i < |s| ==> s[i] in s;
    }
  }
}
