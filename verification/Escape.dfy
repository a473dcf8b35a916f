/** The escape decoder `unprintf` and the encoder it undoes, wpa_supplicant's `printf_encode`. */
module Escape {
  import opened Wrappers
  import opened Text
  import Utf8

  /** What a configuration text can be refused for; a serde message is kept as its reason only. */
  datatype ConfigError =
    | MissingDelimiterEqual
    | InvalidEscape
    | IncompleteEscape
    | NonUtf8Escape
    | SerdeError(reason: Reason)

  datatype Reason = DidNotExpectSeq | InvalidKey | BadIndex | DuplicateKey

  type Decoded = Result<seq<byte>, ConfigError>

  // ------ Hexadecimal ----------------------------

  function HexValue(b: byte): (v: Option<nat>)
    ensures v.Some? ==> v.value < 16
  {
    if 48 <= b <= 57 then Some(b - 48)
    else if 97 <= b <= 102 then Some(b - 87)
    else if 65 <= b <= 70 then Some(b - 55)
    else None
  }

  function LowerHex(n: nat): (b: byte)
    requires n < 16
    ensures HexValue(b) == Some(n)
    ensures 48 <= b <= 57 || 97 <= b <= 102
  {
    if n < 10 then 48 + n else 87 + n
  }

  /** `u8::from_str_radix(_, 16)` on two bytes: it accepts a plus sign before a single digit. */
  function HexByte(a: byte, b: byte): Option<byte> {
    match (HexValue(a), HexValue(b))
    case (Some(hi), Some(lo)) => Some(hi * 16 + lo)
    case (None, Some(lo)) => if a == 43 then Some(lo) else None
    case _ => None
  }

  // ------ Decoding ----------------------------

  /** What one turn of the decoding loop does at the front of the remaining bytes. */
  datatype Turn = Done | Emit(b: byte, used: nat) | Broken(error: ConfigError)

  function TurnAt(b: seq<byte>): (t: Turn)
    ensures t.Emit? ==> 1 <= t.used <= |b| && t.used <= 4
    ensures t.Done? <==> b == []
  {
    if b == [] then Done
    else if b[0] != 92 then Emit(b[0], 1)
    else if |b| == 1 then Broken(IncompleteEscape)
    else if b[1] == 110 then Emit(10, 2)
    else if b[1] == 114 then Emit(13, 2)
    else if b[1] == 116 then Emit(9, 2)
    else if b[1] == 101 then Emit(27, 2)
    else if b[1] == 120 then
      if |b| < 4 then Broken(IncompleteEscape)
      else match HexByte(b[2], b[3])
        case Some(x) => Emit(x, 4)
        case None => Broken(InvalidEscape)
    else Emit(b[1], 2)
  }

  function Prepend(a: seq<byte>, d: Decoded): Decoded {
    match d
    case Ok(b) => Ok(a + b)
    case Err(e) => Err(e)
  }

  /** The decoded bytes, before they are checked to be UTF-8. */
  function Unescape(b: seq<byte>): Decoded
    decreases |b|
  {
    match TurnAt(b)
    case Done => Ok([])
    case Broken(e) => Err(e)
    case Emit(x, n) => Prepend([x], Unescape(b[n..]))
  }

  function Utf8Checked(d: Decoded): Result<string, ConfigError> {
    match d
    case Err(e) => Err(e)
    case Ok(b) =>
      match Utf8.Decode(b)
      case Some(s) => Ok(s)
      case None => Err(NonUtf8Escape)
  }

  /** `unprintf` */
  function Unprintf(escaped: string): Result<string, ConfigError> {
    Utf8Checked(Unescape(Utf8.Encode(escaped)))
  }

  /** The byte-iterator loop; each turn consumes at least one byte, so it ends. */
  method DecodeLoop(escaped: string) returns (r: Result<string, ConfigError>)
    ensures r == Unprintf(escaped)
  {
    var bytes := Utf8.Encode(escaped);
    var i, unescaped := 0, [];
    assert bytes[0..] == bytes;
    PrependNothing(Unescape(bytes));
    while i < |bytes|
      invariant i <= |bytes|
      invariant Unescape(bytes) == Prepend(unescaped, Unescape(bytes[i..]))
    {
      ghost var front, before := bytes[i..], unescaped;
      var c := bytes[i];
      i := i + 1;
      if c == 92 {
        if i == |bytes| {
          return Err(IncompleteEscape);
        }
        c := bytes[i];
        i := i + 1;
        if c == 110 {
          c := 10;
        } else if c == 114 {
          c := 13;
        } else if c == 116 {
          c := 9;
        } else if c == 101 {
          c := 27;
        } else if c == 120 {
          if |bytes| < i + 2 {
            return Err(IncompleteEscape);
          }
          var hex := HexByte(bytes[i], bytes[i + 1]);
          if hex.None? {
            return Err(InvalidEscape);
          }
          c := hex.value;
          i := i + 2;
        }
      }
      unescaped := unescaped + [c];
      assert TurnAt(front) == Emit(c, |front| - |bytes[i..]|);
      assert front[|front| - |bytes[i..]|..] == bytes[i..];
      PrependTwice(before, [c], Unescape(bytes[i..]));
    }
    var decoded := Utf8.Decode(unescaped);
    assert unescaped + [] == unescaped;
    r := if decoded.Some? then Ok(decoded.value) else Err(NonUtf8Escape);
  }

  lemma PrependNothing(d: Decoded)
    ensures Prepend([], d) == d
  {
    if d.Ok? {
      assert [] + d.value == d.value;
    }
  }

  lemma PrependTwice(a: seq<byte>, b: seq<byte>, d: Decoded)
    ensures Prepend(a, Prepend(b, d)) == Prepend(a + b, d)
  {
    if d.Ok? {
      assert a + (b + d.value) == a + b + d.value;
    }
  }

  /** Decoding is compositional: a complete front decodes by itself. */
  lemma {:induction false} UnescapeAppend(a: seq<byte>, b: seq<byte>)
    requires Unescape(a).Ok?
    ensures Unescape(a + b) == Prepend(Unescape(a).value, Unescape(b))
    decreases |a|
  {
    if a == [] {
      assert a + b == b;
      PrependNothing(Unescape(b));
    } else {
      var t := TurnAt(a);
      assert TurnAt(a + b) == t;
      assert (a + b)[t.used..] == a[t.used..] + b;
      UnescapeAppend(a[t.used..], b);
      PrependTwice([t.b], Unescape(a[t.used..]).value, Unescape(b));
    }
  }

  /** A decoded byte comes from one to four escaped ones. */
  lemma {:induction false} UnescapeLength(b: seq<byte>)
    requires Unescape(b).Ok?
    ensures |Unescape(b).value| <= |b| <= 4 * |Unescape(b).value|
    ensures 92 in b ==> |Unescape(b).value| < |b|
    decreases |b|
  {
    if b != [] {
      var n := TurnAt(b).used;
      UnescapeLength(b[n..]);
      assert b == b[..n] + b[n..];
      if n == 1 {
        assert b[..1] == [b[0]];
      }
    }
  }

  /** Bytes without a backslash stand for themselves. */
  lemma {:induction false} UnescapePlain(p: seq<byte>, rest: seq<byte>)
    requires 92 !in p
    ensures Unescape(p + rest) == Prepend(p, Unescape(rest))
  {
    if p == [] {
      assert p + rest == rest;
      PrependNothing(Unescape(rest));
    } else {
      assert (p + rest)[1..] == p[1..] + rest;
      UnescapePlain(p[1..], rest);
      PrependTwice([p[0]], p[1..], Unescape(rest));
      assert p == [p[0]] + p[1..];
    }
  }

  // ------ The encoder ----------------------------

  function EscapeByte(x: byte): (e: seq<byte>)
    ensures e != [] && (x != 32 ==> e[|e| - 1] != 32)
    ensures forall b <- e :: 0x20 <= b <= 0x7e
  {
    if x == 34 || x == 92 then [92, x]
    else if x == 27 then [92, 101]
    else if x == 10 then [92, 110]
    else if x == 13 then [92, 114]
    else if x == 9 then [92, 116]
    else if 0x20 <= x <= 0x7e then [x]
    else [92, 120, LowerHex(x / 16), LowerHex(x % 16)]
  }

  /** `printf_encode`: printable ASCII whatever the bytes are. */
  function EscapeBytes(b: seq<byte>): (e: seq<byte>)
    ensures forall x <- e :: 0x20 <= x <= 0x7e
  {
    if b == [] then [] else EscapeByte(b[0]) + EscapeBytes(b[1..])
  }

  predicate Printable(s: string) {
    forall c <- s :: ' ' <= c <= '~'
  }

  /** `printf_encode` of a text: the result holds no control character, so no line break. */
  function PrintfEncode(s: string): (e: string)
    ensures Printable(e)
  {
    var b := EscapeBytes(Utf8.Encode(s));
    assert forall i :: 0 <= i < |b| ==> b[i] in b;
    Utf8.AsciiText(b)
  }

  lemma EscapeByteRoundTrip(x: byte)
    ensures Unescape(EscapeByte(x)) == Ok([x])
  {
    var e := EscapeByte(x);
    assert TurnAt(e) == Emit(x, |e|);
    assert e[|e|..] == [];
    assert Unescape([]) == Ok([]);
    assert [x] + [] == [x];
  }

  lemma {:induction false} EscapeBytesRoundTrip(b: seq<byte>)
    ensures Unescape(EscapeBytes(b)) == Ok(b)
  {
    if b != [] {
      EscapeByteRoundTrip(b[0]);
      UnescapeAppend(EscapeByte(b[0]), EscapeBytes(b[1..]));
      EscapeBytesRoundTrip(b[1..]);
      assert b == [b[0]] + b[1..];
    }
  }

  /** Every text survives encoding and decoding, whatever scalar values it holds. */
  lemma RoundTrip(s: string)
    ensures Unprintf(PrintfEncode(s)) == Ok(s)
  {
    Utf8.EncodeAsciiText(EscapeBytes(Utf8.Encode(s)));
    EscapeBytesRoundTrip(Utf8.Encode(s));
    Utf8.DecodeEncode(s);
  }

  lemma EncodeInjective(s: string, t: string)
    requires PrintfEncode(s) == PrintfEncode(t)
    ensures s == t
  {
    RoundTrip(s);
    RoundTrip(t);
  }

  // ------ Decoding as text ----------------------------

  /** No escape that the decoder meets is a hexadecimal one. */
  predicate HexFree(s: string) {
    if s == "" then true
    else if s[0] != '\\' then HexFree(s[1..])
    else |s| == 1 || (s[1] != 'x' && HexFree(s[2..]))
  }

  function SimpleEscape(c: char): char {
    match c
    case 'n' => '\n'
    case 'r' => '\r'
    case 't' => '\t'
    case 'e' => 27 as char
    case _ => c
  }

  /** Decoding character by character, with no notion of bytes. */
  function UnescapeText(s: string): Result<string, ConfigError> {
    if s == "" then Ok("")
    else if s == "\\" then Err(IncompleteEscape)
    else
      var (c, n) := if s[0] == '\\' then (SimpleEscape(s[1]), 2) else (s[0], 1);
      match UnescapeText(s[n..])
      case Ok(rest) => Ok([c] + rest)
      case Err(e) => Err(e)
  }

  function AsBytes(r: Result<string, ConfigError>): Decoded {
    match r
    case Ok(s) => Ok(Utf8.Encode(s))
    case Err(e) => Err(e)
  }

  lemma {:induction false} UnescapeTextBytes(s: string)
    requires HexFree(s)
    ensures Unescape(Utf8.Encode(s)) == AsBytes(UnescapeText(s))
    decreases |s|
  {
    hide Unescape, Utf8.EncodeChar, SimpleEscape;
    if s == "" || s == "\\" {
      EndsBytes(s);
    } else if s[0] != '\\' {
      UnescapeTextBytes(s[1..]);
      PlainBytes(s[0]);
      UnescapePlain(Utf8.EncodeChar(s[0]), Utf8.Encode(s[1..]));
      PrependText(s[0], UnescapeText(s[1..]));
    } else {
      UnescapeTextBytes(s[2..]);
      EscapedChar(s[1], Utf8.Encode(s[2..]));
      PairBytes(s);
      PrependText(SimpleEscape(s[1]), UnescapeText(s[2..]));
    }
  }

  lemma EndsBytes(s: string)
    requires s == "" || s == "\\"
    ensures Unescape(Utf8.Encode(s)) == AsBytes(UnescapeText(s))
  {
  }

  lemma PlainBytes(c: char)
    requires c != '\\'
    ensures 92 !in Utf8.EncodeChar(c)
  {
  }

  lemma PairBytes(s: string)
    requires |s| > 1 && s[0] == '\\'
    ensures Utf8.Encode(s) == [92] + Utf8.EncodeChar(s[1]) + Utf8.Encode(s[2..])
  {
  }

  lemma PrependText(c: char, r: Result<string, ConfigError>)
    ensures Prepend(Utf8.EncodeChar(c), AsBytes(r))
         == AsBytes(match r case Ok(rest) => Ok([c] + rest) case Err(e) => Err(e))
  {
  }

  /** A backslash before a character of several bytes swallows none of its later bytes. */
  lemma EscapedChar(c: char, rest: seq<byte>)
    requires c != 'x'
    ensures Unescape([92] + Utf8.EncodeChar(c) + rest) == Prepend(Utf8.EncodeChar(SimpleEscape(c)), Unescape(rest))
  {
    var e := Utf8.EncodeChar(c);
    var b := [92] + e + rest;
    var x := Utf8.EncodeChar(SimpleEscape(c))[0];
    assert TurnAt(b) == Emit(x, 2);
    assert b[2..] == e[1..] + rest;
    UnescapePlain(e[1..], rest);
    PrependTwice([x], e[1..], Unescape(rest));
    assert Utf8.EncodeChar(SimpleEscape(c)) == [x] + e[1..];
  }

  /** Without hexadecimal escapes, decoding the bytes is decoding the characters. */
  lemma HexFreeDecoding(s: string)
    requires HexFree(s)
    ensures Unprintf(s) == UnescapeText(s)
    ensures Unprintf(s) != Err(NonUtf8Escape)
  {
    UnescapeTextBytes(s);
    match UnescapeText(s)
    case Ok(t) => Utf8.DecodeEncode(t);
    case Err(e) => UnescapeTextError(s);
  }

  lemma {:induction false} UnescapeTextError(s: string)
    requires UnescapeText(s).Err?
    ensures UnescapeText(s) == Err(IncompleteEscape)
    decreases |s|
  {
    if s != "\\" {
      UnescapeTextError(s[if s[0] == '\\' then 2 else 1..]);
    }
  }

  /** A hexadecimal escape can break the text, and a plus sign passes for a digit. */
  lemma HexEscapes()
    ensures Unprintf("\\xff") == Err(NonUtf8Escape)
    ensures Unprintf("\\x+5") == Ok([5 as char])
  {
    hide Unescape, Utf8.Encode, Utf8.Decode;
    HexOnly("\\xff", 255);
    NoSuchLead();
    HexOnly("\\x+5", 5);
    FiveDecodes();
  }

  /** A text that is one hexadecimal escape. */
  lemma HexOnly(s: string, x: byte)
    requires |s| == 4 && s[0] == '\\' && s[1] == 'x' && s[2] as int < 0x80 && s[3] as int < 0x80
    requires HexByte(s[2] as int, s[3] as int) == Some(x)
    ensures Unescape(Utf8.Encode(s)) == Ok([x])
  {
    hide Utf8.Encode, HexByte;
    Utf8.AsciiEncode(s);
    var b := Utf8.Encode(s);
    assert TurnAt(b) == Emit(x, 4) && b[4..] == [];
    assert Unescape(b[4..]) == Ok([]) && [x] + [] == [x];
    assert Unescape(b) == Prepend([x], Unescape(b[4..]));
  }

  lemma NoSuchLead()
    ensures Utf8.Decode([255]).None?
  {
  }

  lemma FiveDecodes()
    ensures Utf8.Decode([5]) == Some([5 as char])
  {
    var b: seq<byte> := [5];
    assert b[1..] == [] && Utf8.Decode(b[1..]) == Some("");
    assert [5 as char] + "" == [5 as char];
  }

  // ------ Exactly what decodes ----------------------------

  /** The value of a hexadecimal digit of either case. */
  predicate DigitOf(c: byte, v: nat) {
    v < 16 && (c == "0123456789abcdef"[v] as int || c == "0123456789ABCDEF"[v] as int)
  }

  /** Two hexadecimal digits, or a plus sign and one. */
  ghost predicate HexPair(a: byte, b: byte, x: byte) {
    || (exists hi: nat, lo: nat :: DigitOf(a, hi) && DigitOf(b, lo) && x == 16 * hi + lo)
    || (a == '+' as int && DigitOf(b, x))
  }

  lemma DigitExactly(c: byte, v: nat)
    ensures HexValue(c) == Some(v) <==> DigitOf(c, v)
  {
  }

  lemma HexExactly(a: byte, b: byte, x: byte)
    ensures HexByte(a, b) == Some(x) <==> HexPair(a, b, x)
  {
    hide DigitOf;
    if HexValue(a).Some? {
      DigitExactly(a, HexValue(a).value);
    }
    if HexValue(b).Some? {
      DigitExactly(b, HexValue(b).value);
    }
    if hi: nat, lo: nat :| DigitOf(a, hi) && DigitOf(b, lo) && x == 16 * hi + lo {
      DigitExactly(a, hi);
      DigitExactly(b, lo);
    }
    if HexValue(a).Some? && a == '+' as int {
      NoSignDigit(a);
    }
    DigitExactly(b, x);
  }

  lemma NoSignDigit(a: byte)
    requires a == '+' as int
    ensures HexValue(a).None?
  {
  }

  /** A piece of escaped text and the byte that it stands for. */
  ghost predicate Piece(t: seq<byte>, x: byte) {
    || (|t| == 1 && t[0] != '\\' as int && x == t[0])
    || (|t| == 2 && t[0] == '\\' as int
        && if t[1] == 'n' as int then x == 10
           else if t[1] == 'r' as int then x == 13
           else if t[1] == 't' as int then x == 9
           else if t[1] == 'e' as int then x == 27
           else t[1] != 'x' as int && x == t[1])
    || (|t| == 4 && t[0] == '\\' as int && t[1] == 'x' as int && HexPair(t[2], t[3], x))
  }

  /** The text is made of such pieces, and these are their bytes. */
  ghost predicate InPieces(b: seq<byte>, out: seq<byte>)
    decreases |b|
  {
    if b == [] then out == []
    else out != [] && exists n :: 1 <= n <= |b| && Piece(b[..n], out[0]) && InPieces(b[n..], out[1..])
  }

  lemma TurnExactly(b: seq<byte>, x: byte, n: nat)
    requires 1 <= n <= |b|
    ensures TurnAt(b) == Emit(x, n) <==> Piece(b[..n], x)
  {
    hide HexByte, HexPair;
    if n == 4 {
      HexExactly(b[2], b[3], x);
    }
  }

  /** The decoder accepts exactly the texts made of pieces: plain bytes, a backslash and one byte, or `\\x` and two
      hexadecimal digits. */
  lemma {:induction false} DecodedExactly(b: seq<byte>, out: seq<byte>)
    ensures Unescape(b) == Ok(out) <==> InPieces(b, out)
    decreases |b|
  {
    hide Piece, TurnAt;
    if b == [] {
      NothingLeft();
    } else {
      if n :| out != [] && 1 <= n <= |b| && Piece(b[..n], out[0]) && InPieces(b[n..], out[1..]) {
        TurnExactly(b, out[0], n);
        DecodedExactly(b[n..], out[1..]);
        assert out == [out[0]] + out[1..];
      }
      if TurnAt(b).Emit? && Unescape(b) == Ok(out) {
        var (x, n) := (TurnAt(b).b, TurnAt(b).used);
        TurnExactly(b, x, n);
        DecodedExactly(b[n..], out[1..]);
        assert out == [x] + out[1..];
      }
    }
  }

  lemma NothingLeft()
    ensures TurnAt([]) == Done && Unescape([]) == Ok([])
  {
  }

  /** After any good front, a lone backslash, or a `\\x` without two more bytes, is incomplete, and a `\\x` with two
      bytes that are no hexadecimal pair is invalid. */
  lemma BadEscapes(front: seq<byte>, out: seq<byte>, tail: seq<byte>)
    requires InPieces(front, out)
    ensures Unescape(front + ['\\' as int]) == Err(IncompleteEscape)
    ensures |tail| < 2 ==> Unescape(front + (['\\' as int, 'x' as int] + tail)) == Err(IncompleteEscape)
    ensures |tail| >= 2 && (forall x :: !HexPair(tail[0], tail[1], x)) ==>
      Unescape(front + (['\\' as int, 'x' as int] + tail)) == Err(InvalidEscape)
  {
    hide HexByte, HexPair, InPieces;
    DecodedExactly(front, out);
    UnescapeAppend(front, ['\\' as int]);
    UnescapeAppend(front, ['\\' as int, 'x' as int] + tail);
    if |tail| >= 2 && (forall x :: !HexPair(tail[0], tail[1], x)) && HexByte(tail[0], tail[1]).Some? {
      HexExactly(tail[0], tail[1], HexByte(tail[0], tail[1]).value);
    }
  }
}
