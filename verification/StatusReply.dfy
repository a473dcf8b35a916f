/** `parse_status`: the typed view of a STATUS reply and its round trip. */
module StatusReply {
  import opened Wrappers
  import opened Text
  import opened Escape
  import opened Config
  import Utf8

  type Raw = map<string, string>

  datatype Status = Status(
    wpaState: Option<string>, ssid: Option<string>, bssid: Option<string>, id: Option<nat>, freq: Option<nat>,
    address: Option<string>, ipAddress: Option<string>, keyMgmt: Option<string>, mode: Option<string>, raw: Raw)

  // ------ The parser ----------------------------

  /** `Deserializer::only` */
  function Only(values: seq<string>): Result<string, ConfigError> {
    if |values| == 1 then Ok(values[0]) else Err(SerdeError(DidNotExpectSeq))
  }

  /** `deserialize_string` */
  function FieldOf(values: seq<string>): Result<string, ConfigError> {
    match Only(values)
    case Err(e) => Err(e)
    case Ok(v) => Unprintf(v)
  }

  predicate Decodes(t: Table) {
    forall k <- t :: FieldOf(t[k]).Ok?
  }

  function Fields(t: Table): Raw
    requires Decodes(t)
  {
    map k | k in t :: FieldOf(t[k]).value
  }

  function Lookup(raw: Raw, k: string): Option<string> {
    if k in raw then Some(raw[k]) else None
  }

  function Number(raw: Raw, k: string, max: nat): Option<nat> {
    match Lookup(raw, k)
    case Some(v) => ParseUnsigned(v, max)
    case None => None
  }

  /** The typed fields read off the raw ones; a number that does not parse is left out. */
  function Typed(raw: Raw): Status {
    Status(Lookup(raw, "wpa_state"), Lookup(raw, "ssid"), Lookup(raw, "bssid"),
           Number(raw, "id", USIZE_MAX), Number(raw, "freq", U32_MAX),
           Lookup(raw, "address"), Lookup(raw, "ip_address"), Lookup(raw, "key_mgmt"), Lookup(raw, "mode"), raw)
  }

  /** `parse_status`, without saying which error a bad reply gives. */
  function ParseStatus(response: string): Option<Status> {
    match ParseText(response)
    case Err(_) => None
    case Ok(t) => if Decodes(t) then Some(Typed(Fields(t))) else None
  }

  // ------ What a status holds ----------------------------

  predicate ShowsText(f: Option<string>, m: Raw, key: string) {
    f == if key in m then Some(m[key]) else None
  }

  ghost predicate ShowsNumber(f: Option<nat>, m: Raw, key: string, max: nat) {
    forall n: nat :: f == Some(n) <==> key in m && n <= max && Spells(m[key], n)
  }

  /** Each field is the value of its own key, if there is one; a number is one that the value spells. */
  ghost predicate Shows(st: Status, m: Raw) {
    && st.raw == m
    && ShowsText(st.wpaState, m, "wpa_state") && ShowsText(st.ssid, m, "ssid") && ShowsText(st.bssid, m, "bssid")
    && ShowsText(st.address, m, "address") && ShowsText(st.ipAddress, m, "ip_address")
    && ShowsText(st.keyMgmt, m, "key_mgmt") && ShowsText(st.mode, m, "mode")
    && ShowsNumber(st.id, m, "id", 0xFFFF_FFFF_FFFF_FFFF) && ShowsNumber(st.freq, m, "freq", 0xFFFF_FFFF)
  }

  lemma NumberShows(m: Raw, key: string, max: nat)
    ensures ShowsNumber(Number(m, key, max), m, key, max)
  {
    hide ParseUnsigned, Spells;
    if key in m {
      forall n: nat ensures ParseUnsigned(m[key], max) == Some(n) <==> n <= max && Spells(m[key], n) {
        UnsignedExactly(m[key], max, n);
      }
    }
  }

  lemma TypedShows(m: Raw)
    ensures Shows(Typed(m), m)
  {
    hide Number, ShowsNumber;
    NumberShows(m, "id", USIZE_MAX);
    NumberShows(m, "freq", U32_MAX);
  }

  lemma ShownOnce(f: Option<nat>, g: Option<nat>, m: Raw, key: string, max: nat)
    requires ShowsNumber(f, m, key, max) && ShowsNumber(g, m, key, max)
    ensures f == g
  {
    hide Spells;
    if f.Some? {
      assert f == Some(f.value);
    }
    if g.Some? {
      assert g == Some(g.value);
    }
  }

  lemma ShowsOnce(st: Status, m: Raw)
    requires Shows(st, m)
    ensures st == Typed(m)
  {
    hide Number, ShowsNumber;
    TypedShows(m);
    ShownOnce(st.id, Typed(m).id, m, "id", USIZE_MAX);
    ShownOnce(st.freq, Typed(m).freq, m, "freq", U32_MAX);
  }

  /** The status that a table gives: every key has one value, it decodes, and the fields show the decoded map. */
  ghost predicate Reads(t: Table, st: Status) {
    && st.raw.Keys == t.Keys && Shows(st, st.raw)
    && forall k <- t :: |t[k]| == 1 && Unprintf(t[k][0]) == Ok(st.raw[k])
  }

  /** A reply is a status exactly when its lines make a table that reads as this status; a key with several values, or
      one that does not decode, spoils it. */
  lemma StatusExactly(response: string, st: Status)
    ensures ParseStatus(response) == Some(st)
       <==> ParseText(response).Ok? && Reads(ParseText(response).value, st)
  {
    hide ParseText, Unprintf, Typed, Shows;
    if ParseText(response).Ok? {
      var t := ParseText(response).value;
      if Reads(t, st) {
        assert Decodes(t);
        assert Fields(t) == st.raw;
        ShowsOnce(st, st.raw);
      }
      if Decodes(t) {
        TypedShows(Fields(t));
        assert Typed(Fields(t)).raw == Fields(t) by {
          TypedRaw(Fields(t));
        }
      }
    }
  }

  lemma TypedRaw(m: Raw)
    ensures Typed(m).raw == m
  {
  }

  /** The errors a bad table can give, since a hash map is visited in any order. */
  ghost predicate Faulty(t: Table, e: ConfigError) {
    exists k :: k in t && FieldOf(t[k]) == Err(e)
  }

  /** The visit of the hash map, key by key in no particular order. */
  method Deserialize(response: string) returns (r: Result<Status, ConfigError>)
    ensures r.Ok? <==> ParseStatus(response).Some?
    ensures r.Ok? ==> r.value == ParseStatus(response).value && Shows(r.value, r.value.raw)
    ensures r.Err? ==>
              match ParseText(response)
              case Err(e) => r.error == e
              case Ok(t) => Faulty(t, r.error)
  {
    var parsed := FillTable(response);
    if parsed.Err? {
      return Err(parsed.error);
    }
    var t := parsed.value;
    var raw: Raw := map[];
    var keys := t.Keys;
    while keys != {}
      invariant keys <= t.Keys
      invariant raw.Keys == t.Keys - keys
      invariant forall k <- raw :: FieldOf(t[k]) == Ok(raw[k])
      decreases keys
    {
      var k :| k in keys;
      var field := FieldOf(t[k]);
      if field.Err? {
        assert k in t && FieldOf(t[k]) == Err(field.error);
        return Err(field.error);
      }
      raw := raw[k := field.value];
      keys := keys - {k};
    }
    assert raw == Fields(t);
    TypedShows(raw);
    TypedRaw(raw);
    r := Ok(Typed(raw));
  }

  // ------ Writing a reply ----------------------------

  predicate NoDuplicates(order: seq<string>) {
    forall i, j | 0 <= i < j < |order| :: order[i] != order[j]
  }

  predicate Lists(order: seq<string>, m: Raw) {
    NoDuplicates(order) && |order| <= USIZE_MAX
    && (forall k <- order :: k in m && CleanKey(k)) && (forall k <- m :: k in order)
  }

  /** One `key=value` line each, values escaped, keys in the given order. */
  function StatusLines(m: Raw, order: seq<string>): seq<string>
    requires forall k <- order :: k in m
  {
    seq(|order|, i requires 0 <= i < |order| => order[i] + "=" + PrintfEncode(m[order[i]]))
  }

  function TrimSpaces(v: string): string {
    if v != "" && v[|v| - 1] == ' ' then TrimSpaces(v[..|v| - 1]) else v
  }

  /** The map that a reader gets: the value on the last line has lost the spaces at its end. */
  function Received(m: Raw, order: seq<string>): Raw
    requires forall k <- order :: k in m
  {
    if order == [] then m
    else
      var last := order[|order| - 1];
      m[last := TrimSpaces(m[last])]
  }

  // ------ Encoded values at the end of a text ----------------------------

  lemma {:induction false} EscapeBytesAppend(a: seq<byte>, b: seq<byte>)
    ensures EscapeBytes(a + b) == EscapeBytes(a) + EscapeBytes(b)
  {
    if a == [] {
      assert a + b == b;
    } else {
      assert (a + b)[1..] == a[1..] + b;
      EscapeBytesAppend(a[1..], b);
    }
  }

  lemma PrintfEncodeAppend(s: string, t: string)
    ensures PrintfEncode(s + t) == PrintfEncode(s) + PrintfEncode(t)
  {
    Utf8.EncodeAppend(s, t);
    EscapeBytesAppend(Utf8.Encode(s), Utf8.Encode(t));
  }

  lemma PrintfEncodeSpace()
    ensures PrintfEncode(" ") == " "
  {
  }

  lemma {:induction false} EscapedTail(b: seq<byte>)
    requires b != [] && b[|b| - 1] != 32
    ensures EscapeBytes(b) != [] && EscapeBytes(b)[|EscapeBytes(b)| - 1] != 32
  {
    if |b| == 1 {
      assert b[1..] == [];
      assert EscapeByte(b[0]) + [] == EscapeByte(b[0]);
      var e := EscapeByte(b[0]);
      assert e[|e| - 1] != 32;
    } else {
      EscapedTail(b[1..]);
    }
  }

  /** Only a space is written as whitespace. */
  lemma EncodedCharVisible(c: char)
    requires c != ' '
    ensures var e := PrintfEncode([c]); e != "" && !IsWhitespace(e[|e| - 1])
  {
    Utf8.EncodeCons(c, "");
    var b := Utf8.EncodeChar(c);
    assert Utf8.Encode([c]) == b by {
      assert [c] + "" == [c];
      assert b + [] == b;
    }
    EscapedTail(b);
    var e := PrintfEncode([c]);
    assert e[|e| - 1] in e;
  }

  lemma NothingEncoded()
    ensures PrintfEncode("") == ""
  {
  }

  lemma SpaceIsWhite()
    ensures IsWhitespace(' ')
  {
  }

  lemma {:induction false} EncodedTrim(v: string)
    ensures TrimEnd(PrintfEncode(v)) == PrintfEncode(TrimSpaces(v))
  {
    hide PrintfEncode, IsWhitespace;
    if v == "" {
      NothingEncoded();
    } else {
      var n := |v| - 1;
      assert v == v[..n] + [v[n]];
      PrintfEncodeAppend(v[..n], [v[n]]);
      if v[n] == ' ' {
        PrintfEncodeSpace();
        assert IsWhitespace(' ') by {
          SpaceIsWhite();
        }
        assert (PrintfEncode(v[..n]) + " ")[..|PrintfEncode(v[..n])|] == PrintfEncode(v[..n]);
        EncodedTrim(v[..n]);
      } else {
        EncodedCharVisible(v[n]);
      }
    }
  }

  lemma {:induction false} TrimSpacesFixed(v: string)
    ensures |TrimSpaces(v)| <= |v|
    ensures TrimSpaces(v) == v <==> v == "" || v[|v| - 1] != ' '
  {
    if v != "" && v[|v| - 1] == ' ' {
      TrimSpacesFixed(v[..|v| - 1]);
    }
  }

  // ------ The round trip ----------------------------

  function PairsOf(m: Raw, order: seq<string>): (pairs: seq<Pair>)
    requires forall k <- order :: k in m
    ensures |pairs| == |order|
  {
    seq(|order|, i requires 0 <= i < |order| => Pair(order[i], PrintfEncode(m[order[i]]), true))
  }

  lemma PairsPrefix(m: Raw, order: seq<string>, n: nat)
    requires (forall k <- order :: k in m) && n <= |order|
    ensures forall k <- order[..n] :: k in m
    ensures PairsOf(m, order)[..n] == PairsOf(m, order[..n])
  {
  }

  lemma StatusSnoc(m: Raw, order: seq<string>)
    requires (forall k <- order :: k in m) && order != []
    ensures forall k <- order[..|order| - 1] :: k in m
    ensures var (init, k) := (order[..|order| - 1], order[|order| - 1]);
            && PairsOf(m, order) == PairsOf(m, init) + [Pair(k, PrintfEncode(m[k]), true)]
            && StatusLines(m, order) == StatusLines(m, init) + [k + "=" + PrintfEncode(m[k])]
  {
    hide PrintfEncode;
    PairsPrefix(m, order, |order| - 1);
  }

  lemma NoValues(pairs: seq<Pair>, k: string)
    requires pairs == []
    ensures PairValues(pairs, k) == []
  {
  }

  lemma {:induction false} OneValue(m: Raw, order: seq<string>, k: string)
    requires (forall k <- order :: k in m) && NoDuplicates(order)
    ensures PairValues(PairsOf(m, order), k) == if k in order then [PrintfEncode(m[k])] else []
  {
    hide PrintfEncode, PairValues, PairsOf;
    if order == [] {
      NoValues(PairsOf(m, order), k);
    } else {
      var (init, last) := (order[..|order| - 1], order[|order| - 1]);
      PairsPrefix(m, order, |init|);
      OneValue(m, init, k);
      StatusSnoc(m, order);
      NumberedSnoc(PairsOf(m, init), Pair(last, PrintfEncode(m[last]), true));
      assert order == init + [last];
    }
  }

  lemma {:induction false} RenderStatus(m: Raw, order: seq<string>)
    requires (forall k <- order :: k in m) && NoDuplicates(order)
    ensures Render(PairsOf(m, order)) == StatusLines(m, order)
  {
    if order != [] {
      hide PrintfEncode, PairValues, Render, PairsOf, StatusLines;
      var (init, k) := (order[..|order| - 1], order[|order| - 1]);
      PairsPrefix(m, order, |init|);
      RenderStatus(m, init);
      OneValue(m, init, k);
      StatusSnoc(m, order);
      RenderSnoc(PairsOf(m, init), Pair(k, PrintfEncode(m[k]), true));
    } else {
      assert Render(PairsOf(m, order)) == [];
    }
  }

  lemma PrintableClean(e: string)
    requires Printable(e)
    ensures CleanLine(e)
  {
    if e != "" {
      assert e[|e| - 1] in e;
    }
  }

  lemma CleanStatus(m: Raw, order: seq<string>)
    requires Lists(order, m)
    ensures CleanPairs(PairsOf(m, order))
  {
    forall i | 0 <= i < |order|
      ensures CleanKey(PairsOf(m, order)[i].key) && CleanLine(PairsOf(m, order)[i].value)
    {
      assert order[i] in order;
      PrintableClean(PrintfEncode(m[order[i]]));
    }
  }

  lemma PairKeys(m: Raw, order: seq<string>)
    requires Lists(order, m)
    ensures (set p <- PairsOf(m, order) :: p.key) == m.Keys
  {
    var pairs := PairsOf(m, order);
    forall k <- m ensures k in set p <- pairs :: p.key {
      var i :| 0 <= i < |order| && order[i] == k;
      assert pairs[i] in pairs;
    }
  }

  lemma FieldOfRendered(m: Raw, order: seq<string>, k: string)
    requires Lists(order, m) && k in m
    ensures FieldOf(PairValues(PairsOf(m, order), k)) == Ok(m[k])
  {
    OneValue(m, order, k);
    RoundTrip(m[k]);
  }

  lemma FieldsOfRendered(m: Raw, order: seq<string>)
    requires Lists(order, m)
    ensures Collect(Numbered(PairsOf(m, order))).Ok?
    ensures var t := Collect(Numbered(PairsOf(m, order))).value; Decodes(t) && Fields(t) == m
  {
    hide PairValues, Collect, Numbered, PairsOf, FieldOf;
    var pairs := PairsOf(m, order);
    CollectNumbered(pairs);
    PairKeys(m, order);
    var t := Collect(Numbered(pairs)).value;
    forall k <- t ensures FieldOf(t[k]) == Ok(m[k]) {
      FieldOfRendered(m, order, k);
      assert Get(t, k) == t[k];
    }
  }

  lemma ReceivedPairs(m: Raw, order: seq<string>)
    requires Lists(order, m) && order != []
    ensures var (pairs, n) := (PairsOf(m, order), |order| - 1);
            PairsOf(Received(m, order), order) == pairs[..n] + [pairs[n].(value := TrimEnd(pairs[n].value))]
  {
    hide PrintfEncode, TrimEnd, TrimSpaces;
    var (m', n) := (Received(m, order), |order| - 1);
    EncodedTrim(m[order[n]]);
    assert forall i | 0 <= i < n :: m'[order[i]] == m[order[i]];
  }

  /** What the reader's line splitting sees of the written text. */
  lemma ReceivedLines(m: Raw, order: seq<string>, pad: string)
    requires Lists(order, m) && AllWhitespace(pad)
    ensures Lines(Trim(Terminated(StatusLines(m, order)) + pad)) == Render(PairsOf(Received(m, order), order))
  {
    hide Lines, Trim, Terminated, Render, PairsOf, Received, StatusLines, AllWhitespace;
    RenderStatus(m, order);
    CleanStatus(m, order);
    if order == [] {
      ReceivedNothing(m, order, pad);
    } else {
      ReceivedTail(m, order, pad);
    }
  }

  lemma ReceivedNothing(m: Raw, order: seq<string>, pad: string)
    requires Lists(order, m) && AllWhitespace(pad) && order == [] && CleanPairs(PairsOf(m, order))
    ensures Lines(Trim(Terminated(Render(PairsOf(m, order))) + pad)) == Render(PairsOf(Received(m, order), order))
  {
    hide Lines, Trim, Terminated, Render, AllWhitespace, CleanPairs;
    RenderedLines(PairsOf(m, order), pad);
  }

  lemma ReceivedTail(m: Raw, order: seq<string>, pad: string)
    requires Lists(order, m) && AllWhitespace(pad) && order != [] && CleanPairs(PairsOf(m, order))
    ensures Lines(Trim(Terminated(Render(PairsOf(m, order))) + pad)) == Render(PairsOf(Received(m, order), order))
  {
    hide Lines, Trim, TrimEnd, Terminated, Render, PairsOf, Received, AllWhitespace, CleanPairs;
    RenderedTail(PairsOf(m, order), pad);
    ReceivedPairs(m, order);
  }

  /** Any reply, in any line order and with any padding after it, parses to the map that was written,
      except that spaces at the end of the last value are lost; without such spaces nothing is. */
  lemma StatusRoundTrip(m: Raw, order: seq<string>, pad: string)
    requires Lists(order, m) && AllWhitespace(pad)
    ensures ParseStatus(Terminated(StatusLines(m, order)) + pad) == Some(Typed(Received(m, order)))
    ensures Received(m, order) == m
       <==> order == [] || m[order[|order| - 1]] == "" || m[order[|order| - 1]][|m[order[|order| - 1]]| - 1] != ' '
  {
    hide Lines, Trim, Terminated, Render, Collect, Numbered, ParseAll, PairsOf, Received;
    hide Fields, Decodes, Typed, AllWhitespace;
    ReceivedSame(m, order);
    var m' := Received(m, order);
    ReceivedLines(m, order, pad);
    CleanStatus(m', order);
    RenderedParses(PairsOf(m', order));
    FieldsOfRendered(m', order);
  }

  lemma ReceivedSame(m: Raw, order: seq<string>)
    requires Lists(order, m)
    ensures Lists(order, Received(m, order))
    ensures Received(m, order) == m
       <==> order == [] || m[order[|order| - 1]] == "" || m[order[|order| - 1]][|m[order[|order| - 1]]| - 1] != ' '
  {
    hide TrimSpaces, CleanKey;
    if order != [] {
      var last := order[|order| - 1];
      TrimSpacesFixed(m[last]);
      assert Received(m, order)[last] == TrimSpaces(m[last]);
    }
  }
}
