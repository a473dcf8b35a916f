/** From the peer to the client: what an orderly peer writes into its replies is what the answers hold. */
module Delivery {
  import opened Wrappers
  import opened Text
  import KeyValues = Config
  import opened StatusReply
  import opened ScanTable
  import opened Exchanges
  import opened Station
  import opened Invariant
  import opened Alignment
  import Commands
  import Utf8

  // ------ Through the reply ----------------------------

  /** A reply whose text parses is answered with what it parses to. */
  lemma Parsed<T>(text: string, parse: string -> Option<T>, v: T)
    requires parse(TrimEndNewlines(text)) == Some(v)
    ensures ParseResp(Utf8.Encode(text), parse) == Ok(v)
  {
    hide Utf8.Encode, Utf8.Decode, TrimEndNewlines;
    Utf8.DecodeEncode(text);
  }

  /** The text of a STATUS reply: one escaped line for each key, in any order, with any blank padding after it. */
  function StatusText(m: Raw, order: seq<string>, pad: string): string
    requires forall k <- order :: k in m
  {
    Terminated(StatusLines(m, order)) + pad
  }

  /** Through the reply's newline trim, a written status is read as the map that was written, except for the spaces at
      the end of the last value; without such spaces it is exactly that map. */
  lemma StatusReplied(m: Raw, order: seq<string>, pad: string) returns (st: StatusReply.Status)
    requires Lists(order, m) && KeyValues.AllWhitespace(pad)
    ensures ParseResp(Utf8.Encode(StatusText(m, order, pad)), AcceptStatus) == Ok(st)
    ensures Shows(st, Received(m, order))
    ensures Received(m, order) == m
       <==> order == [] || m[order[|order| - 1]] == "" || m[order[|order| - 1]][|m[order[|order| - 1]]| - 1] != ' '
  {
    hide Trim, TrimEndNewlines, Terminated, StatusLines, Received, Typed, Shows, Lines, Decodes, Fields;
    hide KeyValues.Collect, KeyValues.ParseAll;
    var text := StatusText(m, order, pad);
    StatusRoundTrip(m, order, pad);
    TrimAfterNewlines(text);
    assert ParseStatus(TrimEndNewlines(text)) == ParseStatus(text);
    st := Typed(Received(m, order));
    Parsed(text, AcceptStatus, st);
    TypedShows(Received(m, order));
  }

  function TableText(header: string, rs: seq<ScanResult>, newlines: string): string {
    Terminated([header] + ScanLines(rs)) + newlines
  }

  /** A written scan table is read back, sorted by signal. */
  lemma TableReplied(header: string, rs: seq<ScanResult>, newlines: string)
    requires CleanLine(header) && (forall r <- rs :: Writable(r)) && forall c <- newlines :: c == '\n'
    ensures ParseResp(Utf8.Encode(TableText(header, rs, newlines)), AcceptTable) == Ok(SortBySignal(rs))
  {
    hide TrimEndNewlines, Terminated, ScanLines, VecFromStr, SortBySignal, Writable, CleanLine;
    TableRoundTrip(header, rs, newlines);
    Parsed(TableText(header, rs, newlines), AcceptTable, SortBySignal(rs));
  }

  // ------ To the client ----------------------------

  /** No exchange of this conversation, nor any before it on its socket, was given up. */
  predicate NothingGivenUp(s: State, c: Conv)
    requires ConvOk(s, c)
  {
    Skips(s.socks[c.sock].trace[..c.to]) == 0
  }

  /** In any run, a status request is answered by its own exchange; and if nothing was given up before it and an orderly
      peer wrote this map into its reply to that very STATUS, the client gets this map. */
  lemma StatusDelivered(f: Peer, cfg: Station.Config, inputs: seq<Input>, e: Entry, m: Raw,
                        order: seq<string>, pad: string)
    requires Orderly(f, cfg, inputs) && e in Exec(Init(cfg), inputs).log && e.Answered? && e.request.kind.Status?
    requires Lists(order, m) && KeyValues.AllWhitespace(pad)
    ensures e.cause.Direct? && ConvOk(Exec(Init(cfg), inputs), e.cause.conv)
    ensures var (s, c) := (Exec(Init(cfg), inputs), e.cause.conv);
      NothingGivenUp(s, c) && f(c.sock, c.from, "STATUS") == Utf8.Encode(StatusText(m, order, pad)) ==>
        e.answer.StatusAnswer? && e.answer.status.Ok? && Shows(e.answer.status.value, Received(m, order))
  {
    hide Exec, Conclude, StatusText, Received, Shows, Lists, Orderly;
    var s := Exec(Init(cfg), inputs);
    RunInv(cfg, inputs);
    LogEntryOk(s, e);
    AnswersFromOwnReplies(f, cfg, inputs, e);
    var xs := Said(s, e.cause.conv);
    if NothingGivenUp(s, e.cause.conv) {
      var st := StatusReplied(m, order, pad);
      Replies(xs[0], AcceptStatus);
    }
  }

  lemma Replies<T>(x: Exchange, parse: string -> Option<T>)
    requires x.outcome.Replied?
    ensures Conclude(x, parse) == ParseResp(x.outcome.bytes, parse)
  {
  }

  /** In any run, a scan answered at a ScanComplete whose results an orderly peer wrote into its reply to that very
      SCAN_RESULTS, with nothing given up before, gets these results, sorted. */
  lemma ScanDelivered(f: Peer, cfg: Station.Config, inputs: seq<Input>, e: Entry, header: string, rs: seq<ScanResult>,
                      newlines: string)
    requires Orderly(f, cfg, inputs) && e in Exec(Init(cfg), inputs).log && e.Answered? && e.cause.ByScan?
    requires Source(Exec(Init(cfg), inputs), e).Some?
    requires CleanLine(header) && (forall r <- rs :: Writable(r)) && forall c <- newlines :: c == '\n'
    ensures ConvOk(Exec(Init(cfg), inputs), Source(Exec(Init(cfg), inputs), e).value)
    ensures var s := Exec(Init(cfg), inputs);
      var c := Source(s, e).value;
      NothingGivenUp(s, c) && f(c.sock, c.from, "SCAN_RESULTS") == Utf8.Encode(TableText(header, rs, newlines)) ==>
        e.answer == ScanAnswer(Ok(SortBySignal(rs)))
  {
    hide Exec, Conclude, TableText, SortBySignal, Writable, Orderly, Source;
    var s := Exec(Init(cfg), inputs);
    AnswersFromOwnReplies(f, cfg, inputs, e);
    var xs := Said(s, Source(s, e).value);
    if NothingGivenUp(s, Source(s, e).value) {
      TableReplied(header, rs, newlines);
      Replies(xs[0], AcceptTable);
    }
  }

  // ------ From the client ----------------------------

  /** The exchanges that a request itself began; a refused one began none. */
  function OwnConv(e: Entry): Option<Conv> {
    match e
    case Answered(_, _, Direct(c)) => Some(c)
    case Answered(_, _, ByScan(w)) => Some(w.conv)
    case Answered(_, _, ByEvent(p)) => Some(p.conv)
    case Answered(_, _, ByTimer(p, _, _)) => Some(p.conv)
    case _ => None
  }

  /** The command asks for this request: a custom one is sent as it is, and any other reads back, with its arguments. */
  predicate AsksFor(cmd: string, k: Kind) {
    if k.Custom? then cmd == k.text else Commands.Read(cmd) == Some(k)
  }

  /** In any run, an answered request made exchanges of its own, unless it was refused, and the first datagram said
      exactly what was asked. */
  lemma RequestSent(cfg: Station.Config, inputs: seq<Input>, e: Entry)
    requires e in Exec(Init(cfg), inputs).log && e.Answered? && Commands.ValidKind(e.request.kind)
    ensures OwnConv(e).None? <==> e.cause.Refused?
    ensures var s := Exec(Init(cfg), inputs);
      OwnConv(e).Some? ==>
        && ConvOk(s, OwnConv(e).value) && Said(s, OwnConv(e).value) != []
        && AsksFor(Said(s, OwnConv(e).value)[0].cmd, e.request.kind)
  {
    hide Exec, Inv, EntryOk, FirstCommand, Commands.Read, Commands.ValidKind;
    var s := Exec(Init(cfg), inputs);
    RunInv(cfg, inputs);
    LogEntryOk(s, e);
    Commands.FirstCommandReadable(e.request.kind);
    OwnBegins(s, e);
  }

  lemma OwnBegins(s: State, e: Entry)
    requires EntryOk(s, e) && e.Answered?
    ensures OwnConv(e).None? <==> e.cause.Refused?
    ensures OwnConv(e).Some? ==>
      && ConvOk(s, OwnConv(e).value) && Said(s, OwnConv(e).value) != []
      && Said(s, OwnConv(e).value)[0].cmd == FirstCommand(e.request.kind)
  {
    hide Concludes, WaiterOk, PendingOk, Said, FirstCommand;
    match e.cause
    case Direct(c) => Commands.ConcludesFirst(e.request.kind, Said(s, c), e.answer);
    case ByScan(w) => WaiterBegins(s, w);
    case ByEvent(p) => PendingBegins(s, p);
    case ByTimer(p, _, _) => PendingBegins(s, p);
    case Refused(_) =>
  }

  lemma WaiterBegins(s: State, w: Waiter)
    requires WaiterOk(s, w)
    ensures ConvOk(s, w.conv) && Said(s, w.conv) != [] && Said(s, w.conv)[0].cmd == FirstCommand(w.request.kind)
  {
    hide Conclude, Said;
  }

  lemma PendingBegins(s: State, p: Pending)
    requires PendingOk(s, p)
    ensures ConvOk(s, p.conv) && Said(s, p.conv) != [] && Said(s, p.conv)[0].cmd == FirstCommand(p.request.kind)
  {
    hide Conclude, Said, ParseStatus;
  }

  /** So does the datagram of a request whose first exchange is under way, whether or not an answer comes of it. */
  lemma RequestUnderWay(cfg: Station.Config, inputs: seq<Input>)
    requires var p := Exec(Init(cfg), inputs).phase;
      p.Busy? && p.task.First? && Commands.ValidKind(p.task.request.kind)
    ensures var p := Exec(Init(cfg), inputs).phase; AsksFor(p.cmd, p.task.request.kind)
  {
    hide Exec, Inv, FirstCommand, Commands.Read, Commands.ValidKind;
    var s := Exec(Init(cfg), inputs);
    RunInv(cfg, inputs);
    TaskStart(s);
    Commands.FirstCommandReadable(s.phase.task.request.kind);
  }

  /** What a request that takes one exchange is told, by how that exchange ended. */
  ghost predicate ToldOutcome(k: Kind, x: Exchange, a: Answer) {
    match k
    case Custom(_) =>
      && (forall text :: a == TextAnswer(Ok(text)) <==> ReplyText(x) == Some(text))
      && (a == TextAnswer(Err(Timeout)) <==> x.outcome.TimedOut?) && a != TextAnswer(Err(Failed))
    case AddNetwork =>
      forall id :: a == IdAnswer(Ok(id))
        <==> ReplyText(x).Some? && id <= 0xFFFF_FFFF_FFFF_FFFF && Spells(ReplyText(x).value, id)
    case _ =>
      && (a == UnitAnswer(Ok(())) <==> ReplyText(x) == Some("OK"))
      && (a == UnitAnswer(Err(Failed)) <==> ReplyText(x) == Some("FAIL"))
      && (a == UnitAnswer(Err(Timeout)) <==> x.outcome.TimedOut?)
  }

  predicate OneExchange(k: Kind) {
    k.Custom? || k.AddNetwork? || k.SetNetwork? || k.SaveConfig? || k.ReloadConfig? || k.RemoveNetwork?
  }

  /** In any run, such a request is told done exactly on OK, failed exactly on FAIL, timed out exactly when its own
      exchange was, and a custom one its reply's text. */
  lemma OutcomeTold(cfg: Station.Config, inputs: seq<Input>, e: Entry)
    requires e in Exec(Init(cfg), inputs).log && e.Answered? && OneExchange(e.request.kind)
    ensures e.cause.Direct? && ConvOk(Exec(Init(cfg), inputs), e.cause.conv)
    ensures var xs := Said(Exec(Init(cfg), inputs), e.cause.conv);
      |xs| == 1 && ToldOutcome(e.request.kind, xs[0], e.answer)
  {
    hide Exec, Conclude, ReplyText, Spells;
    var s := Exec(Init(cfg), inputs);
    RunInv(cfg, inputs);
    LogEntryOk(s, e);
    var (k, xs) := (e.request.kind, Said(s, e.cause.conv));
    if k.Custom? {
      forall text: string ensures e.answer == TextAnswer(Ok(text)) <==> ReplyText(xs[0]) == Some(text) {
        CustomOutcome(k, xs, e.answer, text);
      }
      CustomOutcome(k, xs, e.answer, "");
    } else if k.AddNetwork? {
      forall id: nat
        ensures e.answer == IdAnswer(Ok(id))
           <==> ReplyText(xs[0]).Some? && id <= 0xFFFF_FFFF_FFFF_FFFF && Spells(ReplyText(xs[0]).value, id)
      {
        AddedNumber(xs, e.answer, id);
      }
    } else {
      CommandOutcome(k, xs, e.answer);
    }
  }
}
