/** `Bssid` and `Psk`: their parsers and printers. */
module Credentials {
  import opened Wrappers
  import opened Text
  import Utf8

  // ------ Hexadecimal text ----------------------------

  function HexDigit(c: char): (v: Option<nat>)
    ensures v.Some? ==> v.value < 16
  {
    if '0' <= c <= '9' then Some(c as nat - '0' as nat)
    else if 'a' <= c <= 'f' then Some(c as nat - 'a' as nat + 10)
    else if 'A' <= c <= 'F' then Some(c as nat - 'A' as nat + 10)
    else None
  }

  predicate IsHex(c: char) {
    HexDigit(c).Some?
  }

  predicate AllHex(s: string) {
    forall c <- s :: IsHex(c)
  }

  function HexChar(n: nat): (c: char)
    requires n < 16
    ensures HexDigit(c) == Some(n)
    ensures ToLower(c) == c && ' ' < c <= '~' && c != '"' && c != '\\' && c != ':'
  {
    if n < 10 then (n + '0' as nat) as char else (n - 10 + 'a' as nat) as char
  }

  /** `char::to_ascii_lowercase` */
  function ToLower(c: char): char {
    if 'A' <= c <= 'Z' then (c as nat + 32) as char else c
  }

  function Lowercase(s: string): (t: string)
    ensures |t| == |s| && forall i | 0 <= i < |s| :: t[i] == ToLower(s[i])
  {
    seq(|s|, i requires 0 <= i < |s| => ToLower(s[i]))
  }

  /** Two lowercase digits, as `{:02x}` and `hex::encode` write a byte. */
  function HexOctet(b: byte): (s: string)
    ensures |s| == 2 && AllHex(s)
  {
    [HexChar(b / 16), HexChar(b % 16)]
  }

  function OctetValue(s: string): Option<byte> {
    if |s| == 2 && IsHex(s[0]) && IsHex(s[1]) then Some(HexDigit(s[0]).value * 16 + HexDigit(s[1]).value) else None
  }

  lemma OctetRoundTrip(b: byte)
    ensures OctetValue(HexOctet(b)) == Some(b)
  {
  }

  lemma HexCharOfDigit(c: char)
    requires IsHex(c)
    ensures HexChar(HexDigit(c).value) == ToLower(c)
  {
  }

  lemma OctetPrints(s: string)
    requires OctetValue(s).Some?
    ensures HexOctet(OctetValue(s).value) == Lowercase(s)
  {
    var (hi, lo) := (HexDigit(s[0]).value, HexDigit(s[1]).value);
    var b := OctetValue(s).value;
    assert b / 16 == hi && b % 16 == lo;
    HexCharOfDigit(s[0]);
    HexCharOfDigit(s[1]);
  }

  /** `hex::encode` */
  function HexEncode(b: seq<byte>): (s: string)
    ensures |s| == 2 * |b|
  {
    if b == [] then "" else HexOctet(b[0]) + HexEncode(b[1..])
  }

  /** `hex::decode` */
  function HexDecode(s: string): Option<seq<byte>> {
    if s == "" then Some([])
    else if |s| == 1 then None
    else match (OctetValue(s[..2]), HexDecode(s[2..]))
      case (Some(b), Some(rest)) => Some([b] + rest)
      case _ => None
  }

  lemma {:induction false} HexRoundTrip(b: seq<byte>)
    ensures HexDecode(HexEncode(b)) == Some(b)
  {
    if b != [] {
      var s := HexOctet(b[0]) + HexEncode(b[1..]);
      assert s[..2] == HexOctet(b[0]) && s[2..] == HexEncode(b[1..]);
      OctetRoundTrip(b[0]);
      HexRoundTrip(b[1..]);
      assert b == [b[0]] + b[1..];
    }
  }

  lemma {:induction false} HexDecodes(s: string)
    requires AllHex(s) && |s| % 2 == 0
    ensures HexDecode(s).Some?
    ensures 2 * |HexDecode(s).value| == |s| && HexEncode(HexDecode(s).value) == Lowercase(s)
  {
    if s != "" {
      assert s[0] in s && s[1] in s && forall c <- s[2..] :: c in s;
      HexDecodes(s[2..]);
      OctetPrints(s[..2]);
      var d := HexDecode(s).value;
      assert d[1..] == HexDecode(s[2..]).value;
      assert Lowercase(s) == Lowercase(s[..2]) + Lowercase(s[2..]);
    }
  }

  /** Hexadecimal text is lowercase letters and digits only. */
  predicate HexClean(s: string) {
    forall c <- s :: IsHex(c) && ' ' < c <= '~' && c != '"' && c != '\\' && c != ':'
  }

  lemma {:induction false} HexEncodeClean(b: seq<byte>)
    ensures HexClean(HexEncode(b))
  {
    if b != [] {
      HexEncodeClean(b[1..]);
    }
  }

  const DIGITS := "0123456789abcdef"

  lemma OctetDigits(b: byte)
    ensures HexOctet(b) == [DIGITS[b / 16], DIGITS[b % 16]]
  {
  }

  /** The digits of an encoded byte, high one first. */
  lemma {:induction false} EncodedAt(b: seq<byte>, i: nat)
    requires i < |b|
    ensures HexEncode(b)[2 * i] == DIGITS[b[i] / 16] && HexEncode(b)[2 * i + 1] == DIGITS[b[i] % 16]
  {
    OctetDigits(b[0]);
    if i > 0 {
      EncodedAt(b[1..], i - 1);
      var rest := HexEncode(b[1..]);
      assert HexEncode(b)[2 * i] == rest[2 * (i - 1)] && HexEncode(b)[2 * i + 1] == rest[2 * (i - 1) + 1];
    }
  }

  /** A character whose lowercase is a printed digit is a digit. */
  lemma LowerDigit(c: char, n: nat)
    requires n < 16 && ToLower(c) == DIGITS[n]
    ensures IsHex(c)
  {
  }

  // ------ Bssid ----------------------------

  datatype Bssid = Bssid(mac: seq<byte>)

  predicate ValidBssid(b: Bssid) {
    |b.mac| == 6
  }

  predicate AllOctets(octets: seq<string>) {
    forall o <- octets :: OctetValue(o).Some?
  }

  function OctetValues(octets: seq<string>): (b: seq<byte>)
    requires AllOctets(octets)
    ensures |b| == |octets|
  {
    seq(|octets|, i requires 0 <= i < |octets| => assert octets[i] in octets; OctetValue(octets[i]).value)
  }

  /** `Bssid::from_str`; its only error is `InvalidBssid`. */
  function ParseBssid(s: string): Option<Bssid> {
    var octets := Split(s, ':');
    if |octets| == 6 && AllOctets(octets) then Some(Bssid(OctetValues(octets))) else None
  }

  /** The loop that fills the six bytes from the octet iterator. */
  method FillBssid(s: string) returns (r: Option<Bssid>)
    ensures r == ParseBssid(s)
  {
    var mac := new byte[6](_ => 0);
    var octets := Split(s, ':');
    for n := 0 to 6
      invariant n <= |octets|
      invariant AllOctets(octets[..n])
      invariant mac[..n] == OctetValues(octets[..n])
    {
      if n == |octets| {
        return None;
      }
      var octet := octets[n];
      assert octet in octets;
      if |octet| != 2 || !IsHex(octet[0]) || !IsHex(octet[1]) {
        return None;
      }
      mac[n] := OctetValue(octet).value;
      assert octets[..n + 1] == octets[..n] + [octet];
      assert mac[..n + 1] == mac[..n] + [mac[n]];
      assert OctetValues(octets[..n + 1]) == OctetValues(octets[..n]) + [mac[n]];
    }
    if |octets| > 6 {
      return None;
    }
    assert octets[..6] == octets && mac[..6] == mac[..];
    r := Some(Bssid(mac[..]));
  }

  function PrintOctets(mac: seq<byte>): string {
    Join(Map(HexOctet, mac), ':')
  }

  /** `Display` of a Bssid. */
  function PrintBssid(b: Bssid): string {
    PrintOctets(b.mac)
  }

  /** `n` pairs of hexadecimal digits with colons between them, position by position. */
  predicate Shape(s: string, n: nat) {
    |s| == 3 * n - 1 && forall i | 0 <= i < |s| :: if i % 3 == 2 then s[i] == ':' else IsHex(s[i])
  }

  lemma NoColonInOctet(o: string)
    requires OctetValue(o).Some?
    ensures ':' !in o
  {
  }

  lemma ShapeStep(s: string, n: nat)
    requires n > 1
    ensures Shape(s, n) <==> |s| >= 3 && OctetValue(s[..2]).Some? && s[2] == ':' && Shape(s[3..], n - 1)
  {
  }

  lemma OctetsCons(o: string, rest: seq<string>)
    ensures AllOctets([o] + rest) <==> OctetValue(o).Some? && AllOctets(rest)
  {
  }

  lemma {:induction false} ShapeSplits(s: string, n: nat)
    requires n >= 1 && Shape(s, n)
    ensures |Split(s, ':')| == n && AllOctets(Split(s, ':'))
  {
    var head := s[..2];
    assert IsHex(s[0]) && IsHex(s[1]);
    NoColonInOctet(head);
    if n == 1 {
      assert head == s;
      FindNone(s, ':');
    } else {
      ShapeStep(s, n);
      var rest := s[3..];
      assert s == head + ":" + rest;
      SplitStep(head, ':', rest);
      ShapeSplits(rest, n - 1);
      OctetsCons(head, Split(rest, ':'));
    }
  }

  lemma HeadOctet(head: string, rest: string)
    requires OctetValue(head).Some?
    ensures var s := head + ":" + rest; |head| == 2 && s[..2] == head && s[2] == ':' && s[3..] == rest
  {
  }

  lemma OneOctet(s: string)
    requires OctetValue(s).Some?
    ensures Shape(s, 1)
  {
  }

  lemma {:induction false} SplitShape(s: string, n: nat)
    requires n >= 1 && |Split(s, ':')| == n && AllOctets(Split(s, ':'))
    ensures Shape(s, n)
  {
    hide Shape, OctetValue;
    var f := Find(s, ':');
    if n == 1 {
      assert s[..|s|] == s;
      assert s in Split(s, ':');
      OneOctet(s);
    } else {
      var (head, rest) := (s[..f], s[f + 1..]);
      assert s == head + ":" + rest;
      OctetsCons(head, Split(rest, ':'));
      SplitShape(rest, n - 1);
      HeadOctet(head, rest);
      ShapeStep(s, n);
    }
  }

  lemma {:induction false} PrintSplit(octets: seq<string>)
    requires octets != [] && AllOctets(octets)
    ensures PrintOctets(OctetValues(octets)) == Lowercase(Join(octets, ':'))
  {
    assert octets[0] in octets;
    OctetPrints(octets[0]);
    if |octets| == 1 {
      assert Map(HexOctet, OctetValues(octets)) == [HexOctet(OctetValue(octets[0]).value)];
    } else {
      var rest := octets[1..];
      assert forall o <- rest :: o in octets;
      PrintSplit(rest);
      assert Map(HexOctet, OctetValues(octets))
          == [HexOctet(OctetValue(octets[0]).value)] + Map(HexOctet, OctetValues(rest));
      JoinStep(HexOctet(OctetValue(octets[0]).value), ':', Map(HexOctet, OctetValues(rest)));
      LowercaseConcat(octets[0], Join(rest, ':'));
    }
  }

  lemma LowercaseConcat(a: string, b: string)
    ensures Lowercase(a + ":" + b) == Lowercase(a) + ":" + Lowercase(b)
  {
  }

  /** Accepted are exactly six two-digit octets joined by colons, and printing gives the lowercase back. */
  lemma BssidAccepted(s: string)
    ensures ParseBssid(s).Some? <==> Shape(s, 6)
    ensures ParseBssid(s).Some? ==> ValidBssid(ParseBssid(s).value) && PrintBssid(ParseBssid(s).value) == Lowercase(s)
  {
    if Shape(s, 6) {
      ShapeSplits(s, 6);
    }
    JoinSplit(s, ':');
    if ParseBssid(s).Some? {
      SplitShape(s, 6);
      PrintSplit(Split(s, ':'));
    }
  }

  /** A printed address parses back to itself. */
  lemma BssidRoundTrip(b: Bssid)
    requires ValidBssid(b)
    ensures ParseBssid(PrintBssid(b)) == Some(b)
  {
    var octets := Map(HexOctet, b.mac);
    forall i | 0 <= i < 6 ensures OctetValue(octets[i]) == Some(b.mac[i]) && ':' !in octets[i] {
      OctetRoundTrip(b.mac[i]);
      NoColonInOctet(octets[i]);
    }
    SplitJoin(octets, ':');
    assert OctetValues(octets) == b.mac;
  }

  lemma {:induction false} PrintedAt(mac: seq<byte>, i: nat)
    requires i < |mac|
    ensures var s := PrintOctets(mac);
      && |s| == 3 * |mac| - 1
      && s[3 * i] == HexOctet(mac[i])[0] && s[3 * i + 1] == HexOctet(mac[i])[1]
      && (i < |mac| - 1 ==> s[3 * i + 2] == ':')
  {
    hide HexOctet, PrintOctets;
    PrintStep(mac);
    if |mac| > 1 {
      var (tail, k) := (mac[1..], if i > 0 then i - 1 else 0);
      PrintedAt(tail, k);
      if i > 0 {
        Shifted(HexOctet(mac[0]), PrintOctets(tail), 3 * k);
        Shifted(HexOctet(mac[0]), PrintOctets(tail), 3 * k + 1);
        Shifted(HexOctet(mac[0]), PrintOctets(tail), 3 * k + 2);
        assert tail[k] == mac[i] && 3 * k + 3 == 3 * i;
      }
    }
  }

  lemma Shifted(octet: string, rest: string, j: nat)
    requires |octet| == 2
    ensures j < |rest| ==> (octet + ":" + rest)[j + 3] == rest[j]
  {
  }

  lemma PrintStep(mac: seq<byte>)
    requires mac != []
    ensures PrintOctets(mac)
         == if |mac| == 1 then HexOctet(mac[0]) else HexOctet(mac[0]) + ":" + PrintOctets(mac[1..])
  {
    hide HexOctet;
    assert Map(HexOctet, mac)[1..] == Map(HexOctet, mac[1..]);
  }

  /** An address is printed as its six bytes in order, two lowercase digits each, with colons between. */
  lemma PrintedAddress(b: Bssid)
    requires ValidBssid(b)
    ensures var s := PrintBssid(b);
      && |s| == 17
      && (forall i | 0 <= i < 6 :: s[3 * i] == DIGITS[b.mac[i] / 16] && s[3 * i + 1] == DIGITS[b.mac[i] % 16])
      && (forall i | 0 <= i < 5 :: s[3 * i + 2] == ':')
  {
    hide PrintOctets;
    forall i | 0 <= i < 6
      ensures var s := PrintBssid(b);
        && |s| == 17 && s[3 * i] == DIGITS[b.mac[i] / 16] && s[3 * i + 1] == DIGITS[b.mac[i] % 16]
    {
      PrintedAt(b.mac, i);
      OctetDigits(b.mac[i]);
    }
    forall i | 0 <= i < 5 ensures |PrintBssid(b)| == 17 && PrintBssid(b)[3 * i + 2] == ':' {
      PrintedAt(b.mac, i);
    }
    assert |PrintBssid(b)| == 17 by {
      PrintedAt(b.mac, 0);
    }
  }

  /** A text is read as an address exactly when its lowercase is that address printed. */
  lemma BssidExactly(s: string, b: Bssid)
    ensures ParseBssid(s) == Some(b) <==> ValidBssid(b) && Lowercase(s) == PrintBssid(b)
  {
    hide ParseBssid, PrintBssid, Shape;
    BssidAccepted(s);
    if ValidBssid(b) && Lowercase(s) == PrintBssid(b) {
      PrintedShape(s, b);
      BssidRoundTrip(b);
      BssidRoundTrip(ParseBssid(s).value);
    }
  }

  lemma PrintedShape(s: string, b: Bssid)
    requires ValidBssid(b) && Lowercase(s) == PrintBssid(b)
    ensures Shape(s, 6)
  {
    hide PrintBssid, Lowercase;
    PrintedAddress(b);
    forall j | 0 <= j < 17 ensures if j % 3 == 2 then s[j] == ':' else IsHex(s[j]) {
      var i := j / 3;
      assert Lowercase(s)[j] == ToLower(s[j]);
      assert j == 3 * i || j == 3 * i + 1 || j == 3 * i + 2;
      if j % 3 == 0 {
        LowerDigit(s[j], b.mac[i] / 16);
      } else if j % 3 == 1 {
        LowerDigit(s[j], b.mac[i] % 16);
      } else {
        assert PrintBssid(b)[3 * i + 2] == ':';
      }
    }
  }

  // ------ Psk ----------------------------

  datatype Psk = Passphrase(text: string) | Raw(key: seq<byte>)

  predicate Quotable(b: seq<byte>) {
    forall x <- b :: 0x20 <= x <= 0x7e && x != 34
  }

  predicate HexBytes(b: seq<byte>) {
    forall x <- b :: 48 <= x <= 57 || 97 <= x <= 102 || 65 <= x <= 70
  }

  predicate ValidPsk(p: Psk) {
    match p
    case Passphrase(text) => Quotable(Utf8.Encode(text)) && 8 <= |Utf8.Encode(text)| <= 63
    case Raw(key) => |key| == 32
  }

  /** `Psk::passphrase`; its only error is `InvalidPsk`. */
  function NewPassphrase(s: string): (p: Option<Psk>)
    ensures p.Some? ==> ValidPsk(p.value) && p.value == Passphrase(s)
  {
    if !Quotable(Utf8.Encode(s)) || !(8 <= |Utf8.Encode(s)| <= 63) then None else Some(Passphrase(s))
  }

  /** `Psk::from_str` */
  function ParsePsk(s: string): Option<Psk> {
    if |Utf8.Encode(s)| == 64 && HexBytes(Utf8.Encode(s)) then
      match HexDecode(s)
      case Some(key) => Some(Raw(key))
      case None => None
    else NewPassphrase(s)
  }

  /** `Psk::to_field` */
  function ToField(p: Psk): string {
    match p
    case Passphrase(text) => "\"" + text + "\""
    case Raw(key) => HexEncode(key)
  }

  /** The inside of a quoted text. */
  function Unquoted(s: string): Option<string> {
    if |s| >= 2 && s[0] == '"' && s[|s| - 1] == '"' then Some(s[1..|s| - 1]) else None
  }

  function WithoutQuotes(s: string): string {
    match Unquoted(s)
    case Some(inner) => inner
    case None => s
  }

  lemma UnquoteQuoted(s: string)
    ensures Unquoted("\"" + s + "\"") == Some(s)
  {
  }

  lemma HexBytesChars(s: string)
    ensures HexBytes(Utf8.Encode(s)) <==> AllHex(s)
    ensures HexBytes(Utf8.Encode(s)) ==> |Utf8.Encode(s)| == |s|
  {
    var b := Utf8.Encode(s);
    Utf8.AsciiBytes(s);
    if HexBytes(b) {
      forall c <- s ensures IsHex(c) {
        var i :| 0 <= i < |s| && s[i] == c;
        assert b[i] in b;
      }
    }
    if AllHex(s) {
      forall x <- b ensures 48 <= x <= 57 || 97 <= x <= 102 || 65 <= x <= 70 {
        var i :| 0 <= i < |b| && b[i] == x;
        assert s[i] in s && IsHex(s[i]);
      }
    }
  }

  /** Every valid key parses back from its field text without the quotes, as the same variant. */
  lemma PskRoundTrip(p: Psk)
    requires ValidPsk(p)
    ensures ParsePsk(WithoutQuotes(ToField(p))) == Some(p)
  {
    match p
    case Passphrase(text) =>
      UnquoteQuoted(text);
    case Raw(key) =>
      var s := HexEncode(key);
      HexEncodeClean(key);
      HexBytesChars(s);
      HexRoundTrip(key);
      assert s[0] in s;
  }

  /** 64 hexadecimal digits are a raw key that prints as their lowercase; anything else accepted is a
      passphrase of 8 to 63 printable characters, kept as it is. */
  lemma PskAccepted(s: string)
    ensures AllHex(s) && |s| == 64 ==>
              ParsePsk(s).Some? && ParsePsk(s).value.Raw? && ToField(ParsePsk(s).value) == Lowercase(s)
    ensures !(AllHex(s) && |s| == 64) ==>
              ParsePsk(s) == (if ValidPsk(Passphrase(s)) then Some(Passphrase(s)) else None)
    ensures ParsePsk(s).Some? ==> ValidPsk(ParsePsk(s).value)
  {
    HexBytesChars(s);
    if AllHex(s) && |s| == 64 {
      HexDecodes(s);
    }
  }

  /** 8 to 63 printable characters other than the quote. */
  predicate PlainPassphrase(s: string) {
    8 <= |s| <= 63 && forall c <- s :: ' ' <= c <= '~' && c != '"'
  }

  lemma PassphraseExactly(s: string)
    ensures ValidPsk(Passphrase(s)) <==> PlainPassphrase(s)
  {
    var b := Utf8.Encode(s);
    Utf8.AsciiBytes(s);
    if Quotable(b) {
      forall c <- s ensures ' ' <= c <= '~' && c != '"' {
        var i :| 0 <= i < |s| && s[i] == c;
        assert b[i] in b;
      }
    }
    if PlainPassphrase(s) {
      forall x <- b ensures 0x20 <= x <= 0x7e && x != 34 {
        var i :| 0 <= i < |b| && b[i] == x;
        assert s[i] in s;
      }
    }
  }

  /** A text is read as a raw key exactly when its lowercase is the hexadecimal form of its 32 bytes, and as a
      passphrase exactly when it is 8 to 63 printable characters other than the quote, which are kept. */
  lemma PskExactly(s: string, p: Psk)
    ensures ParsePsk(s) == Some(p)
       <==> match p
            case Raw(key) => |key| == 32 && Lowercase(s) == HexEncode(key)
            case Passphrase(text) => text == s && PlainPassphrase(s)
  {
    hide ParsePsk, HexEncode, AllHex;
    PskAccepted(s);
    PassphraseExactly(s);
    match p
    case Raw(key) =>
      if |key| == 32 && Lowercase(s) == HexEncode(key) {
        EncodedHex(s, key);
        HexRoundTrip(key);
        HexRoundTrip(ParsePsk(s).value.key);
      }
    case Passphrase(text) =>
  }

  lemma EncodedHex(s: string, key: seq<byte>)
    requires Lowercase(s) == HexEncode(key)
    ensures AllHex(s)
  {
    hide HexEncode, Lowercase;
    forall c <- s ensures IsHex(c) {
      var j :| 0 <= j < |s| && s[j] == c;
      var i := j / 2;
      EncodedAt(key, i);
      assert Lowercase(s)[j] == ToLower(c) && (j == 2 * i || j == 2 * i + 1);
      if j == 2 * i {
        LowerDigit(c, key[i] / 16);
      } else {
        LowerDigit(c, key[i] % 16);
      }
    }
  }
}
