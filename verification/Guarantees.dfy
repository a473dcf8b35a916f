/** What the runner promises its clients over every run. */
module Guarantees {
  import opened Wrappers
  import opened Text
  import opened ScanTable
  import opened Exchanges
  import opened Station
  import opened Conservation
  import opened Invariant
  import opened Alignment
  import SelectSlot
  import Utf8

  // ------ Tickets ----------------------------

  /** At every moment of every run, restarts included, each request sent is in exactly one place, once:
      channel, set aside, in hand, waiting for a scan, pending select, answered or dropped. */
  lemma TicketConservation(cfg: Config, inputs: seq<Input>)
    ensures var s := Exec(Init(cfg), inputs);
            && (forall i, j | 0 <= i < j < |Places(s)| :: Places(s)[i].ticket != Places(s)[j].ticket)
            && (forall t | 0 <= t < |s.issued| :: Request(t, s.issued[t]) in Places(s))
            && (forall r <- Places(s) :: r.ticket < |s.issued| && s.issued[r.ticket] == r.kind)
  {
    hide Exec, Inv, Places;
    RunInv(cfg, inputs);
    EachTicketOnce(Exec(Init(cfg), inputs));
  }

  /** No request is resolved twice, be it answered or dropped. */
  lemma ResolvedOnce(cfg: Config, inputs: seq<Input>, i: nat, j: nat)
    requires i < j < |Exec(Init(cfg), inputs).log|
    ensures var log := Exec(Init(cfg), inputs).log; log[i].request.ticket != log[j].request.ticket
  {
    hide Exec, Places;
    var s := Exec(Init(cfg), inputs);
    TicketConservation(cfg, inputs);
    var n := ResolvedPlaces(s);
    assert Places(s)[n + i] == s.log[i].request && Places(s)[n + j] == s.log[j].request;
  }

  /** Resolved requests come last among the places. */
  lemma ResolvedPlaces(s: State) returns (n: nat)
    ensures |Places(s)| == n + |s.log| && forall i | 0 <= i < |s.log| :: Places(s)[n + i] == s.log[i].request
  {
    hide Asked, Held;
    n := |Asked(s.queue) + Held(s)|;
  }

  /** What is resolved stays so: the record only grows. */
  lemma {:induction false} ResolvedForGood(cfg: Config, inputs: seq<Input>, more: seq<Input>)
    ensures Exec(Init(cfg), inputs).log <= Exec(Init(cfg), inputs + more).log
  {
    hide Step, SelectSlot.SlotNext;
    if more == [] {
      assert inputs + more == inputs;
    } else {
      var (front, i) := (inputs + more[..|more| - 1], more[|more| - 1]);
      assert inputs + more == front + [i] && (front + [i])[..|front|] == front;
      ResolvedForGood(cfg, inputs, more[..|more| - 1]);
      SelectSlot.SlotRefinement(cfg, front, i);
    }
  }

  /** Whenever `run` has returned, every request is resolved or still in the channel. */
  lemma StoppedHoldsNothing(cfg: Config, inputs: seq<Input>, t: nat)
    requires Exec(Init(cfg), inputs).phase.Stopped? && t < |Exec(Init(cfg), inputs).issued|
    ensures var s := Exec(Init(cfg), inputs);
            Held(s) == [] && (Request(t, s.issued[t]) in Asked(s.queue) || Request(t, s.issued[t]) in Resolved(s.log))
  {
    hide Exec;
    var s := Exec(Init(cfg), inputs);
    RunInv(cfg, inputs);
    StoppedEmptyHanded(s);
    TicketConservation(cfg, inputs);
  }

  lemma StoppedEmptyHanded(s: State)
    requires Inv(s) && s.phase.Stopped?
    ensures Held(s) == []
  {
    hide HistoryOk;
  }

  // ------ Scans ----------------------------

  /** The reply took the scan on: OK, or FAIL-BUSY for one already under way. */
  predicate TakenOn(x: Exchange) {
    x.cmd == "SCAN" && (ReplyText(x) == Some("OK") || ReplyText(x) == Some("FAIL-BUSY"))
  }

  /** What the handled event is worth: a failed scan fails, with nothing sent; a completed one gives what its one
      SCAN_RESULTS exchange gave. */
  predicate EventWorth(s: State, end: ScanEnd) {
    || (end.event == ScanFailed && end.conv == None && end.answer == ScanAnswer(Err(Failed)))
    || (end.event == ScanComplete && end.conv.Some? && ConvOk(s, end.conv.value)
        && var xs := Said(s, end.conv.value);
           |xs| == 1 && xs[0].cmd == "SCAN_RESULTS" && end.answer == ScanAnswer(Conclude(xs[0], AcceptTable)))
  }

  /** A scan request is answered either by its own rejected SCAN, or at a scan event, and then it was the first to be
      handled after acceptance: as many had been handled before as when it was accepted. */
  lemma ScanAnswered(cfg: Config, inputs: seq<Input>, e: Entry)
    requires e in Exec(Init(cfg), inputs).log && e.Answered? && e.request.kind.Scan?
    ensures var s := Exec(Init(cfg), inputs);
            match e.cause
            case Direct(c) =>
              ConvOk(s, c) && |Said(s, c)| == 1 && Said(s, c)[0].cmd == "SCAN" && !TakenOn(Said(s, c)[0])
              && e.answer.ScanAnswer? && e.answer.results.Err?
            case ByScan(w) =>
              && w.request == e.request && ConvOk(s, w.conv) && |Said(s, w.conv)| == 1 && TakenOn(Said(s, w.conv)[0])
              && w.scans < |s.scans| && e.answer == s.scans[w.scans].answer && EventWorth(s, s.scans[w.scans])
            case _ => false
  {
    hide Exec, Conclude, ReplyText, EndOk, EventWorth;
    var s := Exec(Init(cfg), inputs);
    RunInv(cfg, inputs);
    LogEntryOk(s, e);
    match e.cause
    case Direct(c) => ScanAcceptedExactly(Said(s, c));
    case ByScan(w) =>
      ScanAcceptedExactly(Said(s, w.conv));
      EndEntryOk(s, s.scans[w.scans]);
      EndWorth(s, s.scans[w.scans]);
    case _ =>
  }

  lemma EndWorth(s: State, end: ScanEnd)
    requires EndOk(s, end)
    ensures EventWorth(s, end)
  {
    hide Conclude;
  }

  /** Whoever still waits was accepted after the last scan event handled. */
  lemma WaitersAreFresh(cfg: Config, inputs: seq<Input>, w: Waiter)
    requires w in Exec(Init(cfg), inputs).waiters
    ensures var s := Exec(Init(cfg), inputs);
            w.scans == |s.scans| && w.request.kind.Scan? && ConvOk(s, w.conv) && ScanAccepted(Said(s, w.conv))
  {
    hide Exec, ScanAccepted, SocksOk, SlotOk, LogOk, EndsOk, PhaseOk;
    RunInv(cfg, inputs);
  }

  /** All scans answered at one event get the same value. */
  lemma SameEventSameValue(cfg: Config, inputs: seq<Input>, e: Entry, e': Entry)
    requires e in Exec(Init(cfg), inputs).log && e' in Exec(Init(cfg), inputs).log
    requires e.Answered? && e'.Answered? && e.cause.ByScan? && e'.cause.ByScan?
    requires e.cause.waiter.scans == e'.cause.waiter.scans
    ensures e.answer == e'.answer
  {
    hide Exec, WaiterOk;
    var s := Exec(Init(cfg), inputs);
    RunInv(cfg, inputs);
    LogEntryOk(s, e);
    LogEntryOk(s, e');
  }

  /** Everybody who waits is answered, once and alike, the last accepted first. */
  lemma {:induction false} EveryWaiterAnswered(ws: seq<Waiter>, a: Answer, i: nat)
    requires i < |ws|
    ensures ScanAnswers(ws, a)[|ws| - 1 - i] == Answered(ws[i].request, a, ByScan(ws[i]))
  {
    if i < |ws| - 1 {
      EveryWaiterAnswered(ws[..|ws| - 1], a, i);
    }
  }

  /** A ScanComplete event makes one exchange, whose outcome answers everybody who waits, however many. */
  lemma ScanCompleteFetchesOnce(cfg: Config, inputs: seq<Input>, outcome: Outcome)
    requires var s := Exec(Init(cfg), inputs); s.phase.Busy? && s.phase.task.FetchScan?
    ensures var s := Exec(Init(cfg), inputs);
            s.socks != []
            && var s' := Conclusion(s, outcome);
               var x := Exchange("SCAN_RESULTS", outcome);
               && s.phase.from == |Trace(s)| && Trace(s') == Trace(s) + [x]
               && s'.phase == Selecting && s'.waiters == [] && |s'.scans| == |s.scans| + 1
               && s'.log == s.log + ScanAnswers(s.waiters, ScanAnswer(Conclude(x, AcceptTable)))
  {
    hide Exec, Conclusion, Conclude, ScanAnswers, Inv, Trace, TaskOk;
    var s := Exec(Init(cfg), inputs);
    RunInv(cfg, inputs);
    TaskStart(s);
    SockThere(s);
    FetchConcludes(s, outcome);
  }

  lemma FetchConcludes(s: State, outcome: Outcome)
    requires s.phase.Busy? && s.phase.task.FetchScan? && s.socks != []
    ensures var s' := Conclusion(s, outcome);
            var x := Exchange(s.phase.cmd, outcome);
            && Trace(s') == Trace(s) + [x]
            && s'.phase == Selecting && s'.waiters == [] && |s'.scans| == |s.scans| + 1
            && s'.log == s.log + ScanAnswers(s.waiters, ScanAnswer(Conclude(x, AcceptTable)))
  {
    hide Conclude, ScanAnswers, Here;
  }

  lemma SockThere(s: State)
    requires Inv(s) && s.phase.Busy?
    ensures s.socks != [] && s.phase.from <= |Trace(s)|
  {
    hide HistoryOk, TaskOk;
  }

  // ------ Selects ----------------------------

  /** SELECT_NETWORK was answered OK, and the STATUS asked for then is readable and shows another network, or none. */
  predicate TookOver(id: nat, xs: seq<Exchange>) {
    && |xs| == 2 && xs[0].cmd == "SELECT_NETWORK " + Decimal(id) && xs[1].cmd == "STATUS"
    && ReplyText(xs[0]) == Some("OK") && ReplyText(xs[1]).Some?
    && var st := AcceptStatus(ReplyText(xs[1]).value); st.Some? && st.value.id != Some(id)
  }

  /** SELECT_NETWORK was answered OK, and the STATUS asked for then shows this very network. */
  predicate ThereAlready(id: nat, xs: seq<Exchange>) {
    && |xs| == 2 && xs[0].cmd == "SELECT_NETWORK " + Decimal(id) && xs[1].cmd == "STATUS"
    && ReplyText(xs[0]) == Some("OK") && ReplyText(xs[1]).Some?
    && var st := AcceptStatus(ReplyText(xs[1]).value); st.Some? && st.value.id == Some(id)
  }

  lemma ThereExactly(id: nat, xs: seq<Exchange>, a: Answer)
    requires SelectConversation(id, xs, a)
    ensures a == SelectAnswer(Ok(AlreadyConnected)) <==> ThereAlready(id, xs)
  {
    hide Utf8.Decode, TrimEndNewlines, AcceptStatus;
  }

  lemma AcceptedTookOver(id: nat, xs: seq<Exchange>)
    requires SelectAccepted(id, xs)
    ensures TookOver(id, xs)
  {
    hide ReplyText, Conclude;
    SelectAcceptedExactly(id, xs);
  }

  /** How a select is answered: by its own exchanges; by the first resolving event handled after it was
      registered; by its own timer, no earlier than registration plus the timeout and with no resolving event
      between; or refused because another one is pending. */
  lemma SelectAnswered(cfg: Config, inputs: seq<Input>, e: Entry)
    requires e in Exec(Init(cfg), inputs).log && e.Answered? && e.request.kind.SelectNetwork?
    ensures var s := Exec(Init(cfg), inputs);
            var id := e.request.kind.id;
            match e.cause
            case Direct(c) =>
              && ConvOk(s, c) && SelectConversation(id, Said(s, c), e.answer)
              && (e.answer == SelectAnswer(Ok(AlreadyConnected)) <==> ThereAlready(id, Said(s, c)))
            case ByEvent(p) =>
              && p.request == e.request && ConvOk(s, p.conv) && TookOver(id, Said(s, p.conv))
              && p.resolvers < |s.resolvers| && Resolves(s.resolvers[p.resolvers])
              && (s.resolvers[p.resolvers].Connected? ==> e.answer == SelectAnswer(Ok(Success)))
              && (s.resolvers[p.resolvers].NetworkNotFound? ==> e.answer == SelectAnswer(Ok(NotFound)))
              && (s.resolvers[p.resolvers].WrongPsk? ==> e.answer == SelectAnswer(Ok(SelectResult.WrongPsk)))
            case ByTimer(p, at, n) =>
              && p.request == e.request && ConvOk(s, p.conv) && TookOver(id, Said(s, p.conv))
              && p.since + cfg.selectTimeout <= at <= s.now && n == p.resolvers
              && e.answer == SelectAnswer(Err(Timeout))
            case Refused(p) => p.request.kind.SelectNetwork? && e.answer == SelectAnswer(Err(PendingSelect))
            case ByScan(_) => false
  {
    hide Exec, SelectConversation, SelectAccepted, Said, TookOver, ThereAlready;
    var s := Exec(Init(cfg), inputs);
    RunInv(cfg, inputs);
    LogEntryOk(s, e);
    match e.cause
    case Direct(c) => ThereExactly(e.request.kind.id, Said(s, c), e.answer);
    case ByEvent(p) =>
      ResolversResolve(s, p.resolvers);
      AcceptedTookOver(e.request.kind.id, Said(s, p.conv));
    case ByTimer(p, _, _) => AcceptedTookOver(e.request.kind.id, Said(s, p.conv));
    case _ =>
  }

  lemma ResolversResolve(s: State, n: nat)
    requires Inv(s)
    ensures n < |s.resolvers| ==> Resolves(s.resolvers[n])
  {
    hide SocksOk, WaitingOk, SlotOk, LogOk, PhaseOk, Resolves, EndOk;
  }

  /** The pending select has seen no resolving event since it was registered. */
  lemma PendingIsFresh(cfg: Config, inputs: seq<Input>)
    requires Exec(Init(cfg), inputs).select.Some?
    ensures var s := Exec(Init(cfg), inputs);
            var p := s.select.value;
            p.resolvers == |s.resolvers| && p.since <= s.now && p.request.kind.SelectNetwork?
            && ConvOk(s, p.conv) && SelectAccepted(p.request.kind.id, Said(s, p.conv))
  {
    hide Exec, SelectAccepted, SocksOk, WaitingOk, LogOk, EndsOk, PhaseOk;
    RunInv(cfg, inputs);
  }

  /** A pending select stays one until an event, its timer or the end of the run resolves it: nothing else
      that the runner handles meanwhile can displace it. */
  lemma PendingStays(cfg: Config, inputs: seq<Input>, i: Input)
    requires Exec(Init(cfg), inputs).select.Some?
    requires !i.TakeEvent? && !i.SelectTimer? && !Step(Exec(Init(cfg), inputs), i).phase.Stopped?
    ensures Step(Exec(Init(cfg), inputs), i).select == Exec(Init(cfg), inputs).select
  {
    hide Exec, Inv, Step, SelectSlot.SlotLogs;
    var s := Exec(Init(cfg), inputs);
    SelectSlot.SlotRefinement(cfg, inputs, i);
  }

  // ------ Opening ----------------------------

  /** Whenever a connect attempt is made, the failures before it do not exceed the seconds since the open
      began, and the minutes left that are reported do not underflow. */
  lemma OpenArithmetic(cfg: Config, inputs: seq<Input>)
    requires CanTry(Exec(Init(cfg), inputs))
    ensures var s := Exec(Init(cfg), inputs);
            && 1000 * s.phase.loops <= s.now - s.phase.started
            && (s.phase.loops + 1) / 60 <= RETRY_MINUTES
  {
    hide Exec, HistoryOk, TaskOk;
    RunInv(cfg, inputs);
  }

  // ------ Timeouts ----------------------------

  /** An exchange times out no earlier than its timeout after it was sent. */
  lemma TimeoutsAreDue(cfg: Config, inputs: seq<Input>, j: nat, n: nat)
    requires var s := Exec(Init(cfg), inputs);
      j < |s.socks| && n < |s.socks[j].trace| && s.socks[j].trace[n].outcome.TimedOut?
    ensures var o := Exec(Init(cfg), inputs).socks[j].trace[n].outcome; o.sent + cfg.commandTimeout <= o.ended
  {
    hide Exec;
    var s := Exec(Init(cfg), inputs);
    RunInv(cfg, inputs);
    SockInvOf(s, j);
    assert ExchangeOk(cfg, s.socks[j], n);
  }
}
