/** The SET_NETWORK command and the SSID encoding. */
module SetNetwork {
  import opened Wrappers
  import opened Text
  import opened Credentials
  import Escape
  import Utf8

  datatype KeyMgmt = NoKey | WpaPsk | WpaEap | IEEE8021X

  datatype Param = SetSsid(ssid: string) | SetBssid(bssid: Bssid) | SetPsk(psk: Psk) | SetKeyMgmt(mgmt: KeyMgmt)

  predicate ValidParam(p: Param) {
    match p
    case SetSsid(_) => true
    case SetBssid(b) => ValidBssid(b)
    case SetPsk(k) => ValidPsk(k)
    case SetKeyMgmt(_) => true
  }

  // ------ Writing ----------------------------

  /** `is_ascii_graphic`, and not a quote. */
  predicate Bare(b: seq<byte>) {
    forall x <- b :: 0x21 <= x <= 0x7e && x != 34
  }

  /** `conf_escape` */
  function ConfEscape(raw: string): string {
    if Bare(Utf8.Encode(raw)) then "\"" + raw + "\"" else HexEncode(Utf8.Encode(raw))
  }

  function KeyMgmtText(m: KeyMgmt): string {
    match m
    case NoKey => "NONE"
    case WpaPsk => "WPA-PSK"
    case WpaEap => "WPA-EAP"
    case IEEE8021X => "IEEE8021X"
  }

  function FieldName(p: Param): string {
    match p
    case SetSsid(_) => "ssid"
    case SetBssid(_) => "bssid"
    case SetPsk(_) => "psk"
    case SetKeyMgmt(_) => "key_mgmt"
  }

  function FieldValue(p: Param): string {
    match p
    case SetSsid(s) => ConfEscape(s)
    case SetBssid(b) => PrintBssid(b)
    case SetPsk(k) => ToField(k)
    case SetKeyMgmt(m) => KeyMgmtText(m)
  }

  function Command(id: nat, p: Param): string {
    "SET_NETWORK" + " " + (Decimal(id) + " " + (FieldName(p) + " " + FieldValue(p)))
  }

  // ------ Reading ----------------------------

  /** An SSID value: quoted text, or else hexadecimal UTF-8. */
  function ReadSsid(v: string): Option<string> {
    if v != "" && v[0] == '"' then Unquoted(v)
    else match HexDecode(v)
      case None => None
      case Some(b) => Utf8.Decode(b)
  }

  /** A PSK value: a quoted passphrase, or else a raw key. */
  function ReadPsk(v: string): Option<Psk> {
    if v != "" && v[0] == '"' then
      match Unquoted(v)
      case None => None
      case Some(s) => Some(Passphrase(s))
    else match HexDecode(v)
      case None => None
      case Some(b) => Some(Raw(b))
  }

  function ReadKeyMgmt(v: string): Option<KeyMgmt> {
    if v == "NONE" then Some(NoKey)
    else if v == "WPA-PSK" then Some(WpaPsk)
    else if v == "WPA-EAP" then Some(WpaEap)
    else if v == "IEEE8021X" then Some(IEEE8021X)
    else None
  }

  function ReadParam(name: string, v: string): Option<Param> {
    if name == "ssid" then
      match ReadSsid(v) case None => None case Some(s) => Some(SetSsid(s))
    else if name == "bssid" then
      match ParseBssid(v) case None => None case Some(b) => Some(SetBssid(b))
    else if name == "psk" then
      match ReadPsk(v) case None => None case Some(k) => Some(SetPsk(k))
    else if name == "key_mgmt" then
      match ReadKeyMgmt(v) case None => None case Some(m) => Some(SetKeyMgmt(m))
    else None
  }

  /** A reader of the command, which knows nothing of how it was written. */
  function ReadCommand(cmd: string): Option<(nat, Param)> {
    match SplitOnce(cmd, ' ')
    case None => None
    case Some((verb, rest)) =>
      match SplitOnce(rest, ' ')
      case None => None
      case Some((id, field)) =>
        match SplitOnce(field, ' ')
        case None => None
        case Some((name, value)) =>
          match (ParseUnsigned(id, USIZE_MAX), ReadParam(name, value))
          case (Some(n), Some(p)) => if verb == "SET_NETWORK" then Some((n, p)) else None
          case _ => None
  }

  // ------ The command is uniquely readable ----------------------------

  lemma SsidReadable(s: string)
    ensures ReadSsid(ConfEscape(s)) == Some(s)
  {
    var b := Utf8.Encode(s);
    if Bare(b) {
      UnquoteQuoted(s);
    } else {
      HexEncodeClean(b);
      HexRoundTrip(b);
      Utf8.DecodeEncode(s);
      assert HexEncode(b)[0] in HexEncode(b);
    }
  }

  lemma PskReadable(k: Psk)
    requires ValidPsk(k)
    ensures ReadPsk(ToField(k)) == Some(k)
  {
    match k
    case Passphrase(s) =>
      UnquoteQuoted(s);
    case Raw(key) =>
      HexEncodeClean(key);
      HexRoundTrip(key);
      assert HexEncode(key)[0] in HexEncode(key);
  }

  lemma ParamReadable(p: Param)
    requires ValidParam(p)
    ensures ReadParam(FieldName(p), FieldValue(p)) == Some(p)
  {
    match p
    case SetSsid(s) => SsidReadable(s);
    case SetBssid(b) => BssidRoundTrip(b);
    case SetPsk(k) => PskReadable(k);
    case SetKeyMgmt(_) =>
  }

  /** The reader recovers network and parameter from every command. */
  lemma CommandReadable(id: nat, p: Param)
    requires id <= USIZE_MAX && ValidParam(p)
    ensures ReadCommand(Command(id, p)) == Some((id, p))
  {
    hide SplitOnce, ParseUnsigned, ReadParam, FieldValue, Decimal, ValidParam;
    var field := FieldName(p) + " " + FieldValue(p);
    SplitOnceAt("SET_NETWORK", ' ', Decimal(id) + " " + field);
    SplitOnceAt(Decimal(id), ' ', field);
    SplitOnceAt(FieldName(p), ' ', FieldValue(p));
    ParseDecimal(id, USIZE_MAX);
    ParamReadable(p);
  }

  lemma CommandInjective(id: nat, p: Param, id': nat, p': Param)
    requires id <= USIZE_MAX && ValidParam(p) && id' <= USIZE_MAX && ValidParam(p')
    requires Command(id, p) == Command(id', p')
    ensures id == id' && p == p'
  {
    CommandReadable(id, p);
    CommandReadable(id', p');
  }

  lemma {:induction false} JoinPrintable(octets: seq<string>)
    requires forall o <- octets :: Escape.Printable(o)
    ensures Escape.Printable(Join(octets, ':'))
  {
    if |octets| > 1 {
      assert forall o <- octets[1..] :: o in octets;
      JoinPrintable(octets[1..]);
      assert octets[0] in octets;
    }
  }

  lemma AsciiPrintable(s: string, lo: nat)
    requires 0x20 <= lo && forall x <- Utf8.Encode(s) :: lo <= x <= 0x7e
    ensures Escape.Printable(s)
  {
    Utf8.AsciiBytes(s);
    var b := Utf8.Encode(s);
    forall c <- s ensures ' ' <= c <= '~' {
      var i :| 0 <= i < |s| && s[i] == c;
      assert b[i] in b;
    }
  }

  lemma ValuePrintable(p: Param)
    requires ValidParam(p)
    ensures Escape.Printable(FieldValue(p))
  {
    hide Utf8.Encode, HexEncode, HexOctet, Join;
    match p
    case SetSsid(s) =>
      if Bare(Utf8.Encode(s)) {
        AsciiPrintable(s, 0x21);
      } else {
        HexEncodeClean(Utf8.Encode(s));
      }
    case SetBssid(b) =>
      JoinPrintable(Map(HexOctet, b.mac));
    case SetPsk(Passphrase(s)) => AsciiPrintable(s, 0x20);
    case SetPsk(Raw(key)) => HexEncodeClean(key);
    case SetKeyMgmt(_) =>
  }

  /** No command holds a control character, whatever the SSID is. */
  lemma CommandPrintable(id: nat, p: Param)
    requires ValidParam(p)
    ensures Escape.Printable(Command(id, p))
  {
    ValuePrintable(p);
    assert Escape.Printable(Decimal(id)) by {
      assert forall c <- Decimal(id) :: IsDigit(c);
    }
    PrintableConcat(FieldName(p), FieldValue(p));
    PrintableConcat(Decimal(id), FieldName(p) + " " + FieldValue(p));
    PrintableConcat("SET_NETWORK", Decimal(id) + " " + (FieldName(p) + " " + FieldValue(p)));
  }

  lemma PrintableConcat(a: string, b: string)
    requires Escape.Printable(a) && Escape.Printable(b)
    ensures Escape.Printable(a + " " + b)
  {
  }

  /** The characters that an SSID may have to be written as it is. */
  predicate Graphic(s: string) {
    forall c <- s :: '!' <= c <= '~' && c != '"'
  }

  lemma BareGraphic(s: string)
    ensures Bare(Utf8.Encode(s)) <==> Graphic(s)
  {
    var b := Utf8.Encode(s);
    Utf8.AsciiBytes(s);
    if Bare(b) {
      forall c <- s ensures '!' <= c <= '~' && c != '"' {
        var i :| 0 <= i < |s| && s[i] == c;
        assert b[i] in b;
      }
    }
    if Graphic(s) {
      forall x <- b ensures 0x21 <= x <= 0x7e && x != 34 {
        var i :| 0 <= i < |b| && b[i] == x;
        assert s[i] in s;
      }
    }
  }

  /** An SSID goes in quotes exactly when it is graphic ASCII without a quote; otherwise its bytes go in hexadecimal,
      which holds neither quotes nor spaces. */
  lemma EscapedExactly(s: string)
    ensures ConfEscape(s) == "\"" + s + "\"" <==> Graphic(s)
    ensures !Graphic(s) ==>
      && |ConfEscape(s)| == 2 * |Utf8.Encode(s)|
      && forall i | 0 <= i < |Utf8.Encode(s)| ::
           && ConfEscape(s)[2 * i] == DIGITS[Utf8.Encode(s)[i] / 16]
           && ConfEscape(s)[2 * i + 1] == DIGITS[Utf8.Encode(s)[i] % 16]
  {
    hide HexEncode, Utf8.Encode, Graphic, Bare;
    BareGraphic(s);
    var b := Utf8.Encode(s);
    if !Graphic(s) {
      forall i | 0 <= i < |b|
        ensures HexEncode(b)[2 * i] == DIGITS[b[i] / 16] && HexEncode(b)[2 * i + 1] == DIGITS[b[i] % 16]
      {
        EncodedAt(b, i);
      }
      if b == [] {
        NoBytesBare(s);
      }
      EncodedAt(b, 0);
    }
  }

  lemma NoBytesBare(s: string)
    requires Utf8.Encode(s) == []
    ensures Bare(Utf8.Encode(s))
  {
  }

  // ------ Reading an SSID back ----------------------------

  /** `parse_get_network` */
  function ParseGetNetwork(resp: string): Result<string, Escape.ConfigError> {
    Escape.Unprintf(TrimQuotes(resp))
  }

  lemma {:induction false} TrimNoQuotes(s: string)
    requires '"' !in s
    ensures TrimStartQuotes(s) == s && TrimEndQuotes(s) == s && TrimEndQuotes(s + "\"") == s
  {
  }

  lemma TrimQuoted(s: string)
    requires '"' !in s
    ensures TrimQuotes("\"" + s + "\"") == s
  {
    var q := "\"" + s + "\"";
    assert q[1..] == s + "\"";
    TrimNoQuotes(s);
    if s == "" {
      assert q[1..] == "\"" && "\""[1..] == "";
      assert TrimStartQuotes("\"") == TrimStartQuotes("");
    } else {
      assert TrimStartQuotes(q[1..]) == q[1..];
    }
    assert TrimStartQuotes(q) == TrimStartQuotes(q[1..]);
  }

  lemma PlainText(s: string)
    requires forall c <- s :: ' ' <= c <= '~' && c != '\\'
    ensures Escape.Unprintf(s) == Ok(s)
  {
    var b := Utf8.Encode(s);
    Utf8.AsciiBytes(s);
    assert 92 !in b by {
      forall x <- b ensures x != 92 {
        var i :| 0 <= i < |b| && b[i] == x;
        assert s[i] in s;
      }
    }
    Escape.UnescapePlain(b, []);
    assert b + [] == b;
    assert Escape.Unescape([]) == Ok([]);
    Utf8.DecodeEncode(s);
  }

  lemma BackslashLost(s: string)
    requires '\\' in s
    ensures Escape.Unprintf(s) != Ok(s)
  {
    var b := Utf8.Encode(s);
    BackslashByte(s);
    if Escape.Unprintf(s) == Ok(s) {
      Escape.UnescapeLength(b);
      Utf8.EncodeDecode(Escape.Unescape(b).value);
    }
  }

  lemma {:induction false} BackslashByte(s: string)
    requires '\\' in s
    ensures 92 in Utf8.Encode(s)
  {
    if s[0] != '\\' {
      BackslashByte(s[1..]);
    }
  }

  /** GET_NETWORK's parser undoes the SSID encoding just for graphic ASCII without quote and backslash. */
  lemma GetNetworkUndoesExactly(s: string)
    ensures ParseGetNetwork(ConfEscape(s)) == Ok(s) <==> forall c <- s :: '!' <= c <= '~' && c != '"' && c != '\\'
  {
    BareGraphic(s);
    var b := Utf8.Encode(s);
    if Bare(b) {
      AsciiPrintable(s, 0x21);
      Utf8.AsciiBytes(s);
      assert '"' !in s by {
        forall c <- s ensures c != '"' {
          var i :| 0 <= i < |s| && s[i] == c;
          assert b[i] in b;
        }
      }
      TrimQuoted(s);
      if '\\' in s {
        BackslashLost(s);
      } else {
        PlainText(s);
      }
    } else {
      var h := HexEncode(b);
      HexEncodeClean(b);
      TrimNoQuotes(h);
      PlainText(h);
      assert |h| == 2 * |b| && b != [];
    }
  }
}
