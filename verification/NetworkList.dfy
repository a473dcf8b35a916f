/** The network list: what an orderly peer lists, and answers for each network, is what the client gets. */
module NetworkList {
  import opened Wrappers
  import opened Text
  import opened Exchanges
  import opened Station
  import opened Invariant
  import opened Alignment
  import opened Delivery
  import SetNetwork
  import Utf8

  // ------ What the peer writes ----------------------------

  /** A configured network, as LIST_NETWORKS shows it. */
  datatype Network = Network(id: nat, ssid: string, bssid: string, flags: string)

  /** A line of the list: a network, or a line that does not begin with a number. */
  datatype Line = Listing(network: Network) | Other(text: string)

  predicate Token(s: string) {
    s != "" && forall c <- s :: !IsWhitespace(c)
  }

  /** Printable text without a quote and a backslash, which the control interface shows as it is. */
  predicate PlainSsid(s: string) {
    forall c <- s :: ' ' <= c <= '~' && c != '"' && c != '\\'
  }

  ghost predicate Numbered(s: string) {
    exists n: nat :: n <= USIZE_MAX && Spells(s, n)
  }

  ghost predicate ValidLine(l: Line) {
    match l
    case Listing(n) => n.id <= USIZE_MAX && PlainSsid(n.ssid) && Token(n.bssid) && (n.flags == "" || Token(n.flags))
    case Other(t) => '\n' !in t && (Words(t) == [] || !Numbered(Words(t)[0]))
  }

  /** Number, SSID, BSSID and flags, separated by tabs; the flags may be empty. */
  function LineText(l: Line): string {
    match l
    case Listing(n) => Decimal(n.id) + "\t" + (n.ssid + "\t" + (n.bssid + "\t" + n.flags))
    case Other(t) => t
  }

  function ListText(header: string, lines: seq<Line>, newlines: string): string {
    Text.Join([header] + Map(LineText, lines), '\n') + newlines
  }

  function NetworksOf(lines: seq<Line>): seq<Network> {
    if lines == [] then []
    else (match lines[0] case Listing(n) => [n] case Other(_) => []) + NetworksOf(lines[1..])
  }

  /** What the client should see of a network. An empty flags column is overlooked, and the BSSID taken for it. */
  function Seen(n: Network): NetworkResult {
    NetworkResult(n.id, n.ssid, if n.flags == "" then n.bssid else n.flags)
  }

  // ------ Words ----------------------------

  lemma {:induction false} WordsOfToken(s: string)
    requires Token(s)
    ensures Words(s) == [s]
  {
    var n := WordLength(s);
    assert forall i | 0 <= i < |s| :: s[i] in s;
    assert s[..n] == s && s[n..] == "";
  }

  /** Words are counted the same before and after a break. */
  lemma {:induction false} WordsBreak(a: string, c: char, b: string)
    requires IsWhitespace(c)
    ensures Words(a + [c] + b) == Words(a) + Words(b)
    decreases |a|
  {
    var s := a + [c] + b;
    if a == "" {
      assert s[0] == c && s[1..] == b;
    } else if IsWhitespace(a[0]) {
      assert s[1..] == a[1..] + [c] + b;
      WordsBreak(a[1..], c, b);
    } else {
      var n := WordLength(a);
      WordLengthBreak(a, c, b);
      assert s[..n] == a[..n] && s[n..] == a[n..] + [c] + b;
      WordsBreak(a[n..], c, b);
    }
  }

  lemma {:induction false} WordLengthBreak(a: string, c: char, b: string)
    requires IsWhitespace(c)
    ensures WordLength(a + [c] + b) == WordLength(a)
  {
    if a != "" {
      assert (a + [c] + b)[1..] == a[1..] + [c] + b;
      WordLengthBreak(a[1..], c, b);
    }
  }

  lemma TabBreaks()
    ensures IsWhitespace('\t')
  {
  }

  lemma DecimalToken(n: nat)
    ensures Token(Decimal(n))
  {
  }

  // ------ Rows ----------------------------

  /** A listed network is one row, with its number and with its flags, or else its BSSID. */
  lemma ListingRow(n: Network)
    requires ValidLine(Listing(n))
    ensures RowOf(LineText(Listing(n))) == Some(Row(n.id, Some(Seen(n).flags)))
  {
    hide Words, Decimal, ParseUnsigned, Token;
    TabBreaks();
    DecimalToken(n.id);
    var rest2 := n.bssid + "\t" + n.flags;
    var rest1 := n.ssid + "\t" + rest2;
    WordsOfToken(Decimal(n.id));
    WordsBreak(Decimal(n.id), '\t', rest1);
    WordsBreak(n.ssid, '\t', rest2);
    WordsOfToken(n.bssid);
    WordsBreak(n.bssid, '\t', n.flags);
    if n.flags == "" {
      NoWords();
    } else {
      WordsOfToken(n.flags);
    }
    ParseDecimal(n.id, USIZE_MAX);
  }

  lemma NoWords()
    ensures Words("") == []
  {
  }

  /** A line without a number is no row. */
  lemma OtherRow(t: string)
    requires ValidLine(Other(t))
    ensures RowOf(t) == None
  {
    hide Words, ParseUnsigned;
    if Words(t) != [] && AcceptNumber(Words(t)[0]).Some? {
      var n := AcceptNumber(Words(t)[0]).value;
      UnsignedExactly(Words(t)[0], USIZE_MAX, n);
      assert Numbered(Words(t)[0]);
    }
  }

  function RowFor(n: Network): Row {
    Row(n.id, Some(Seen(n).flags))
  }

  lemma {:induction false} RowsListed(lines: seq<Line>)
    requires forall l <- lines :: ValidLine(l)
    ensures RowsIn(Map(LineText, lines)) == Map(RowFor, NetworksOf(lines))
  {
    hide RowOf, LineText, ValidLine;
    if lines != [] {
      assert Map(LineText, lines)[1..] == Map(LineText, lines[1..]);
      assert lines[0] in lines && forall l <- lines[1..] :: l in lines;
      RowsListed(lines[1..]);
      LineRow(lines[0]);
      assert Map(RowFor, NetworksOf(lines))
          == (match lines[0] case Listing(n) => [RowFor(n)] case Other(_) => []) + Map(RowFor, NetworksOf(lines[1..]));
    }
  }

  lemma LineRow(l: Line)
    requires ValidLine(l)
    ensures RowOf(LineText(l)) == (match l case Listing(n) => Some(RowFor(n)) case Other(_) => None)
    ensures '\n' !in LineText(l)
  {
    hide RowOf, Words, Decimal;
    match l
    case Listing(n) =>
      ListingRow(n);
      assert '\n' !in Decimal(n.id) && IsWhitespace('\n');
    case Other(t) => OtherRow(t);
  }

  /** Newlines at the end of a reply list nothing. */
  lemma {:induction false} RowsAfterNewlines(s: string)
    ensures Rows(TrimEndNewlines(s)) == Rows(s)
  {
    hide RowOf;
    if s != "" && s[|s| - 1] == '\n' {
      var init := s[..|s| - 1];
      RowsAfterNewlines(init);
      assert s == init + ['\n'];
      SplitNewline(init);
      BlankRow(Split(init, '\n')[1..]);
      assert (Split(init, '\n') + [""])[1..] == Split(init, '\n')[1..] + [""];
    }
  }

  lemma {:induction false} SplitNewline(s: string)
    ensures Split(s + ['\n'], '\n') == Split(s, '\n') + [""]
    decreases |s|
  {
    JoinSplit(s, '\n');
    var pieces := Split(s, '\n') + [""];
    JoinLast(Split(s, '\n'), '\n');
    SplitJoin(pieces, '\n');
  }

  lemma {:induction false} JoinLast(pieces: seq<string>, c: char)
    requires pieces != []
    ensures Text.Join(pieces + [""], c) == Text.Join(pieces, c) + [c]
  {
    if |pieces| > 1 {
      JoinLast(pieces[1..], c);
      assert (pieces + [""])[1..] == pieces[1..] + [""];
    }
  }

  lemma {:induction false} BlankRow(lines: seq<string>)
    ensures RowsIn(lines + [""]) == RowsIn(lines)
  {
    hide RowOf;
    if lines == [] {
      BlankIsNoRow();
      assert [""][1..] == [];
    } else {
      assert (lines + [""])[1..] == lines[1..] + [""];
      BlankRow(lines[1..]);
    }
  }

  lemma BlankIsNoRow()
    ensures RowOf("") == None
  {
  }

  lemma {:induction false} RowsBeforeNewlines(s: string, newlines: string)
    requires forall c <- newlines :: c == '\n'
    ensures Rows(s + newlines) == Rows(s)
  {
    hide Rows;
    if newlines == "" {
      assert s + newlines == s;
    } else {
      var init := newlines[..|newlines| - 1];
      assert newlines[|newlines| - 1] in newlines && forall c <- init :: c in newlines;
      RowsBeforeNewlines(s, init);
      assert s + newlines == s + init + ['\n'];
      RowsAfterNewlines(s + newlines);
      RowsAfterNewlines(s + init);
      assert (s + newlines)[..|s + newlines| - 1] == s + init;
    }
  }

  /** The rows of a written list are its networks, in order. */
  lemma ListRows(header: string, lines: seq<Line>, newlines: string)
    requires '\n' !in header && (forall l <- lines :: ValidLine(l)) && forall c <- newlines :: c == '\n'
    ensures Rows(ListText(header, lines, newlines)) == Map(RowFor, NetworksOf(lines))
  {
    hide LineText, ValidLine, RowsIn;
    var pieces := [header] + Map(LineText, lines);
    forall p <- pieces ensures '\n' !in p {
      if p != header {
        var i :| 0 <= i < |lines| && p == LineText(lines[i]);
        assert lines[i] in lines;
        LineRow(lines[i]);
      }
    }
    SplitJoin(pieces, '\n');
    RowsBeforeNewlines(Text.Join(pieces, '\n'), newlines);
    assert pieces[1..] == Map(LineText, lines);
    RowsListed(lines);
  }

  // ------ The conversation ----------------------------

  /** What the peer answers to GET_NETWORK for an SSID. */
  function Quoted(ssid: string): string {
    "\"" + ssid + "\""
  }

  lemma SsidReplied(ssid: string)
    requires PlainSsid(ssid)
    ensures ParseResp(Utf8.Encode(Quoted(ssid)), AcceptSsid) == Ok(ssid)
  {
    hide Utf8.Encode, TrimQuotes, ParseResp;
    assert '"' !in ssid;
    SetNetwork.TrimQuoted(ssid);
    SetNetwork.PlainText(ssid);
    assert TrimEndNewlines(Quoted(ssid)) == Quoted(ssid);
    Parsed(Quoted(ssid), AcceptSsid, ssid);
  }

  /** Asked for these networks one by one, the peer tells their SSIDs. */
  predicate Answers(nets: seq<Network>, ys: seq<Exchange>) {
    forall j | 0 <= j < |ys| && j < |nets| ::
      ys[j].cmd == "GET_NETWORK " + Decimal(nets[j].id) + " ssid" ==> Conclude(ys[j], AcceptSsid) == Ok(nets[j].ssid)
  }

  lemma {:induction false} FetchedAll(nets: seq<Network>, ys: seq<Exchange>)
    requires Fetched(Map(RowFor, nets), ys) && Answers(nets, ys)
    ensures FetchedNetworks(Map(RowFor, nets), ys) == Map(Seen, nets[..|ys|])
  {
    hide Conclude, Decimal;
    if ys == [] {
      assert nets[..0] == [];
    } else {
      var n := |ys| - 1;
      FetchedAll(nets, ys[..n]);
      assert ys[n].cmd == GetCommand(nets[n].id);
      assert nets[..n + 1] == nets[..n] + [nets[n]];
      MapAppend(Seen, nets[..n], [nets[n]]);
      assert Map(Seen, [nets[n]]) == [Seen(nets[n])];
    }
  }

  /** A conversation over such a list has one exchange for each network after the first, and gives all of them. */
  lemma ListedAll(nets: seq<Network>, xs: seq<Exchange>, a: Answer)
    requires NetworksConversation(xs, a) && Conclude(xs[0], AcceptText).Ok?
    requires Rows(Conclude(xs[0], AcceptText).value) == Map(RowFor, nets) && Answers(nets, xs[1..])
    ensures a == NetworksAnswer(Ok(Map(Seen, nets))) && |xs| == 1 + |nets|
  {
    hide Conclude, Rows, Decimal, Fetched, FetchedNetworks;
    var (rows, ys) := (Map(RowFor, nets), xs[1..]);
    if Fetched(rows, ys) && |ys| == |rows| {
      FetchedAll(nets, ys);
      assert nets[..|ys|] == nets;
    }
  }

  /** In any run, the list that an orderly peer writes, with the SSIDs that it tells when asked, reaches the client as
      exactly these networks in this order, if nothing was given up; a line without a number adds nothing, and no
      datagram is sent for it. */
  lemma NetworksDelivered(f: Peer, cfg: Station.Config, inputs: seq<Input>, e: Entry, header: string, lines: seq<Line>,
                          newlines: string)
    requires Orderly(f, cfg, inputs) && e in Exec(Init(cfg), inputs).log && e.Answered? && e.request.kind.Networks?
    requires '\n' !in header && (forall l <- lines :: ValidLine(l)) && forall c <- newlines :: c == '\n'
    ensures e.cause.Direct? && ConvOk(Exec(Init(cfg), inputs), e.cause.conv)
    ensures var (s, c) := (Exec(Init(cfg), inputs), e.cause.conv);
      NothingGivenUp(s, c) && Tells(f, c, header, lines, newlines) ==>
        e.answer == NetworksAnswer(Ok(Map(Seen, NetworksOf(lines)))) && |Said(s, c)| == 1 + |NetworksOf(lines)|
  {
    hide Exec, Conclude, Tells, Concludes, Orderly, ValidLine;
    var s := Exec(Init(cfg), inputs);
    RunInv(cfg, inputs);
    LogEntryOk(s, e);
    AnswersFromOwnReplies(f, cfg, inputs, e);
    var c := e.cause.conv;
    if NothingGivenUp(s, c) && Tells(f, c, header, lines, newlines) {
      ConversationTold(f, c, Said(s, c), e.answer, header, lines, newlines);
    }
  }

  /** The peer's part: the list, and the SSID of each network when asked for it. */
  predicate Tells(f: Peer, c: Conv, header: string, lines: seq<Line>, newlines: string) {
    var nets := NetworksOf(lines);
    && f(c.sock, c.from, "LIST_NETWORKS") == Utf8.Encode(ListText(header, lines, newlines))
    && forall j | 0 <= j < |nets| ::
         f(c.sock, c.from + 1 + j, "GET_NETWORK " + Decimal(nets[j].id) + " ssid") == Utf8.Encode(Quoted(nets[j].ssid))
  }

  lemma ConversationTold(f: Peer, c: Conv, xs: seq<Exchange>, a: Answer, header: string, lines: seq<Line>,
                         newlines: string)
    requires Concludes(Networks, xs, a) && Tells(f, c, header, lines, newlines)
    requires forall m | 0 <= m < |xs| :: xs[m].outcome == Replied(c.from + m, f(c.sock, c.from + m, xs[m].cmd))
    requires '\n' !in header && (forall l <- lines :: ValidLine(l)) && forall c <- newlines :: c == '\n'
    ensures a == NetworksAnswer(Ok(Map(Seen, NetworksOf(lines)))) && |xs| == 1 + |NetworksOf(lines)|
  {
    hide RowsConversation, ListText, ParseResp, Rows, Decimal, ValidLine, TrimEndNewlines;
    var (nets, text, ys) := (NetworksOf(lines), ListText(header, lines, newlines), xs[1..]);
    ListRows(header, lines, newlines);
    RowsAfterNewlines(text);
    Parsed(text, AcceptText, TrimEndNewlines(text));
    Replies(xs[0], AcceptText);
    forall j | 0 <= j < |ys| && j < |nets| && ys[j].cmd == "GET_NETWORK " + Decimal(nets[j].id) + " ssid"
      ensures Conclude(ys[j], AcceptSsid) == Ok(nets[j].ssid)
    {
      assert xs[j + 1] == ys[j];
      NetworkPlain(lines, nets[j]);
      SsidReplied(nets[j].ssid);
      Replies(ys[j], AcceptSsid);
    }
    ListedAll(nets, xs, a);
  }

  lemma {:induction false} NetworkPlain(lines: seq<Line>, n: Network)
    requires (forall l <- lines :: ValidLine(l)) && n in NetworksOf(lines)
    ensures PlainSsid(n.ssid)
  {
    if lines[0] != Listing(n) {
      assert forall l <- lines[1..] :: l in lines;
      NetworkPlain(lines[1..], n);
    } else {
      assert lines[0] in lines;
    }
  }
}
