/** Requests, their commands on the control socket, and how replies become answers. */
module Exchanges {
  import opened Wrappers
  import opened Text
  import opened ScanTable
  import opened StatusReply
  import SetNetwork
  import Utf8

  // ------ Requests and answers ----------------------------

  datatype Kind =
    | Custom(text: string)
    | Status
    | Networks
    | Scan
    | AddNetwork
    | SetNetwork(network: nat, param: SetNetwork.Param)
    | SaveConfig
    | ReloadConfig
    | RemoveNetwork(target: Option<nat>)
    | SelectNetwork(id: nat)

  datatype ClientError =
    | Failed
    | ParsingResponse(reply: seq<byte>)
    | Timeout
    | DidNotWriteAllBytes(written: nat, total: nat)
    | PendingSelect

  type Reply<+T> = Result<T, ClientError>

  datatype NetworkResult = NetworkResult(id: nat, ssid: string, flags: string)

  datatype SelectResult = Success | WrongPsk | NotFound | AlreadyConnected

  datatype Answer =
    | TextAnswer(text: Reply<string>)
    | StatusAnswer(status: Reply<StatusReply.Status>)
    | NetworksAnswer(networks: Reply<seq<NetworkResult>>)
    | ScanAnswer(results: Reply<seq<ScanResult>>)
    | IdAnswer(id: Reply<nat>)
    | UnitAnswer(unit: Reply<()>)
    | SelectAnswer(result: Reply<SelectResult>)

  // ------ One exchange ----------------------------

  /** How an exchange on the synchronous socket ended; a reply carries its number on the socket. */
  datatype Outcome =
    | Replied(index: nat, bytes: seq<byte>)
    | TimedOut(sent: nat, ended: nat)
    | Short(written: nat)

  datatype Exchange = Exchange(cmd: string, outcome: Outcome)

  /** `parse_resp`: only newlines are trimmed, and `FAIL` matters only once the parser refused it. */
  function ParseResp<T>(bytes: seq<byte>, parse: string -> Option<T>): Reply<T> {
    match Utf8.Decode(bytes)
    case None => Err(ParsingResponse(bytes))
    case Some(s) =>
      var text := TrimEndNewlines(s);
      match parse(text)
      case Some(v) => Ok(v)
      case None => if text == "FAIL" then Err(Failed) else Err(ParsingResponse(bytes))
  }

  /** `request` and `command_matching`, given how the exchange ended. */
  function Conclude<T>(x: Exchange, parse: string -> Option<T>): Reply<T> {
    match x.outcome
    case Short(n) => Err(DidNotWriteAllBytes(n, |Utf8.Encode(x.cmd)|))
    case TimedOut(_, _) => Err(Timeout)
    case Replied(_, bytes) => ParseResp(bytes, parse)
  }

  /** `Failed` reports exactly a FAIL reply that the request's own parser does not accept. */
  lemma FailedExactly<T>(x: Exchange, parse: string -> Option<T>)
    ensures Conclude(x, parse) == Err(Failed)
       <==> x.outcome.Replied? && Utf8.Decode(x.outcome.bytes).Some?
            && TrimEndNewlines(Utf8.Decode(x.outcome.bytes).value) == "FAIL" && parse("FAIL").None?
  {
  }

  // ------ Parsers ----------------------------

  function AcceptOk(s: string): Option<()> {
    if s == "OK" then Some(()) else None
  }

  function AcceptScan(s: string): Option<()> {
    if s == "OK" || s == "FAIL-BUSY" then Some(()) else None
  }

  function AcceptText(s: string): Option<string> {
    Some(s)
  }

  function AcceptNumber(s: string): Option<nat> {
    ParseUnsigned(s, USIZE_MAX)
  }

  function AcceptStatus(s: string): Option<StatusReply.Status> {
    ParseStatus(s)
  }

  function AcceptTable(s: string): Option<seq<ScanResult>> {
    Some(VecFromStr(s))
  }

  function AcceptSsid(s: string): Option<string> {
    match SetNetwork.ParseGetNetwork(s)
    case Ok(ssid) => Some(ssid)
    case Err(_) => None
  }

  lemma OkAccepted()
    ensures ParseResp(Utf8.Encode("OK"), AcceptOk) == Ok(())
  {
    hide Utf8.Encode, Utf8.Decode;
    Utf8.DecodeEncode("OK");
    assert TrimEndNewlines("OK") == "OK";
  }

  // ------ Network lists ----------------------------

  /** A line of LIST_NETWORKS with a network number; the flags are its last further word. */
  datatype Row = Row(id: nat, flags: Option<string>)

  function RowOf(line: string): Option<Row> {
    var words := Words(line);
    if words == [] then None
    else match AcceptNumber(words[0])
      case None => None
      case Some(id) => Some(Row(id, if |words| > 1 then Some(words[|words| - 1]) else None))
  }

  function RowsIn(lines: seq<string>): seq<Row> {
    if lines == [] then []
    else (match RowOf(lines[0]) case None => [] case Some(row) => [row]) + RowsIn(lines[1..])
  }

  function Rows(response: string): seq<Row> {
    RowsIn(Split(response, '\n')[1..])
  }

  /** What a row adds to the list once its SSID is known; a row without flags adds nothing. */
  function Listed(row: Row, ssid: string): seq<NetworkResult> {
    match row.flags
    case Some(flags) => [NetworkResult(row.id, ssid, flags)]
    case None => []
  }

  // ------ Commands ----------------------------

  function GetCommand(id: nat): string {
    "GET_NETWORK " + Decimal(id) + " ssid"
  }

  /** The command of a request's first exchange. */
  function FirstCommand(k: Kind): string {
    match k
    case Custom(text) => text
    case Status => "STATUS"
    case Networks => "LIST_NETWORKS"
    case Scan => "SCAN"
    case AddNetwork => "ADD_NETWORK"
    case SetNetwork(id, p) => SetNetwork.Command(id, p)
    case SaveConfig => "SAVE_CONFIG"
    case ReloadConfig => "RECONFIGURE"
    case RemoveNetwork(None) => "REMOVE_NETWORK all"
    case RemoveNetwork(Some(id)) => "REMOVE_NETWORK " + Decimal(id)
    case SelectNetwork(id) => "SELECT_NETWORK " + Decimal(id)
  }

  /** The answer to a request that takes one exchange whatever its outcome. */
  function SimpleAnswer(k: Kind, x: Exchange): Answer
    requires !k.Networks? && !k.Scan? && !k.SelectNetwork?
  {
    match k
    case Custom(_) => TextAnswer(Conclude(x, AcceptText))
    case Status => StatusAnswer(Conclude(x, AcceptStatus))
    case AddNetwork => IdAnswer(Conclude(x, AcceptNumber))
    case _ => UnitAnswer(Conclude(x, AcceptOk))
  }

  // ------ Whole conversations ----------------------------

  /** The GET_NETWORK exchanges for the first rows, all answered. */
  predicate Fetched(rows: seq<Row>, xs: seq<Exchange>) {
    |xs| <= |rows|
    && forall j | 0 <= j < |xs| :: xs[j].cmd == GetCommand(rows[j].id) && Conclude(xs[j], AcceptSsid).Ok?
  }

  function FetchedNetworks(rows: seq<Row>, xs: seq<Exchange>): seq<NetworkResult>
    requires Fetched(rows, xs)
  {
    if xs == [] then []
    else
      var n := |xs| - 1;
      FetchedNetworks(rows, xs[..n]) + Listed(rows[n], Conclude(xs[n], AcceptSsid).value)
  }

  /** One GET_NETWORK per row in turn, up to the first that fails. */
  predicate RowsConversation(rows: seq<Row>, xs: seq<Exchange>, a: Answer) {
    || (Fetched(rows, xs) && |xs| == |rows| && a == NetworksAnswer(Ok(FetchedNetworks(rows, xs))))
    || (0 < |xs| <= |rows| && Fetched(rows, xs[..|xs| - 1])
        && xs[|xs| - 1].cmd == GetCommand(rows[|xs| - 1].id)
        && match Conclude(xs[|xs| - 1], AcceptSsid)
           case Err(e) => a == NetworksAnswer(Err(e))
           case Ok(_) => false)
  }

  /** LIST_NETWORKS, and for each of its rows the SSID. */
  predicate NetworksConversation(xs: seq<Exchange>, a: Answer) {
    && xs != [] && xs[0].cmd == "LIST_NETWORKS"
    && match Conclude(xs[0], AcceptText)
       case Err(e) => |xs| == 1 && a == NetworksAnswer(Err(e))
       case Ok(text) => RowsConversation(Rows(text), xs[1..], a)
  }

  /** A scan that wpa_supplicant started or already had under way. */
  predicate ScanAccepted(xs: seq<Exchange>) {
    |xs| == 1 && xs[0].cmd == "SCAN" && Conclude(xs[0], AcceptScan).Ok?
  }

  /** SELECT_NETWORK was accepted, and STATUS then showed some other network. */
  predicate SelectAccepted(id: nat, xs: seq<Exchange>) {
    && |xs| == 2 && xs[0].cmd == "SELECT_NETWORK " + Decimal(id) && xs[1].cmd == "STATUS"
    && Conclude(xs[0], AcceptOk).Ok?
    && Conclude(xs[1], AcceptStatus).Ok? && Conclude(xs[1], AcceptStatus).value.id != Some(id)
  }

  /** A select that its own exchanges answer. */
  predicate SelectConversation(id: nat, xs: seq<Exchange>, a: Answer) {
    && xs != [] && xs[0].cmd == "SELECT_NETWORK " + Decimal(id)
    && match Conclude(xs[0], AcceptOk)
       case Err(e) => |xs| == 1 && a == SelectAnswer(Err(e))
       case Ok(_) =>
         && |xs| == 2 && xs[1].cmd == "STATUS"
         && match Conclude(xs[1], AcceptStatus)
            case Err(e) => a == SelectAnswer(Err(e))
            case Ok(st) => st.id == Some(id) && a == SelectAnswer(Ok(AlreadyConnected))
  }

  /** These exchanges are all that the request made, and this is the answer they give. */
  predicate Concludes(k: Kind, xs: seq<Exchange>, a: Answer) {
    match k
    case Networks => NetworksConversation(xs, a)
    case SelectNetwork(id) => SelectConversation(id, xs, a)
    case Scan =>
      |xs| == 1 && xs[0].cmd == "SCAN" && Conclude(xs[0], AcceptScan).Err?
      && a == ScanAnswer(Err(Conclude(xs[0], AcceptScan).error))
    case _ => |xs| == 1 && xs[0].cmd == FirstCommand(k) && a == SimpleAnswer(k, xs[0])
  }

  /** A conversation has only one answer. */
  lemma ConcludesUnique(k: Kind, xs: seq<Exchange>, a: Answer, b: Answer)
    requires Concludes(k, xs, a) && Concludes(k, xs, b)
    ensures a == b
  {
    hide Rows, AcceptSsid, ParseResp, FetchedNetworks;
  }

  /** The text of the reply that was read, without its newlines. */
  function ReplyText(x: Exchange): Option<string> {
    match x.outcome
    case Replied(_, bytes) =>
      (match Utf8.Decode(bytes) case None => None case Some(s) => Some(TrimEndNewlines(s)))
    case _ => None
  }

  /** A command without a result is answered by exactly one of: done, for an OK; failed, for a FAIL; unparseable, with
      the bytes, for any other reply; a timeout; or a short write. */
  lemma CommandOutcome(k: Kind, xs: seq<Exchange>, a: Answer)
    requires Concludes(k, xs, a)
    requires k.SetNetwork? || k.SaveConfig? || k.ReloadConfig? || k.RemoveNetwork?
    ensures |xs| == 1 && a.UnitAnswer?
    ensures a == UnitAnswer(Ok(())) <==> ReplyText(xs[0]) == Some("OK")
    ensures a == UnitAnswer(Err(Failed)) <==> ReplyText(xs[0]) == Some("FAIL")
    ensures a == UnitAnswer(Err(Timeout)) <==> xs[0].outcome.TimedOut?
    ensures a.unit.Err? && a.unit.error.DidNotWriteAllBytes? <==> xs[0].outcome.Short?
    ensures xs[0].outcome.Short? ==>
      a == UnitAnswer(Err(DidNotWriteAllBytes(xs[0].outcome.written, |Utf8.Encode(xs[0].cmd)|)))
    ensures xs[0].outcome.Replied? && ReplyText(xs[0]) != Some("OK") && ReplyText(xs[0]) != Some("FAIL") ==>
      a == UnitAnswer(Err(ParsingResponse(xs[0].outcome.bytes)))
  {
  }

  /** ADD_NETWORK's answer is a number exactly when the reply spells that number. */
  lemma AddedNumber(xs: seq<Exchange>, a: Answer, id: nat)
    requires Concludes(AddNetwork, xs, a)
    ensures a == IdAnswer(Ok(id))
       <==> ReplyText(xs[0]).Some? && id <= 0xFFFF_FFFF_FFFF_FFFF && Spells(ReplyText(xs[0]).value, id)
  {
    hide Utf8.Decode, TrimEndNewlines, ParseUnsigned, Spells;
    if ReplyText(xs[0]).Some? {
      UnsignedExactly(ReplyText(xs[0]).value, USIZE_MAX, id);
    }
  }

  /** A custom request is answered with the text of its reply, whatever it is; without a readable text it fails. */
  lemma CustomOutcome(k: Kind, xs: seq<Exchange>, a: Answer, text: string)
    requires k.Custom? && Concludes(k, xs, a)
    ensures |xs| == 1 && a.TextAnswer? && (a == TextAnswer(Ok(text)) <==> ReplyText(xs[0]) == Some(text))
    ensures a == TextAnswer(Err(Timeout)) <==> xs[0].outcome.TimedOut?
    ensures a != TextAnswer(Err(Failed))
  {
    hide Utf8.Decode, TrimEndNewlines;
  }

  /** The reply to SCAN was one of the two that accept it. */
  lemma ScanAcceptedExactly(xs: seq<Exchange>)
    ensures ScanAccepted(xs)
       <==> |xs| == 1 && xs[0].cmd == "SCAN"
            && (ReplyText(xs[0]) == Some("OK") || ReplyText(xs[0]) == Some("FAIL-BUSY"))
  {
    hide Utf8.Decode, TrimEndNewlines;
  }

  /** SELECT_NETWORK was answered OK, and the STATUS after it shows another network, or none. */
  lemma SelectAcceptedExactly(id: nat, xs: seq<Exchange>)
    ensures SelectAccepted(id, xs)
       <==> && |xs| == 2 && xs[0].cmd == "SELECT_NETWORK " + Decimal(id) && xs[1].cmd == "STATUS"
            && ReplyText(xs[0]) == Some("OK")
            && ReplyText(xs[1]).Some?
            && var st := ParseStatus(ReplyText(xs[1]).value); st.Some? && st.value.id != Some(id)
  {
    hide Utf8.Decode, TrimEndNewlines, ParseStatus;
  }
}
