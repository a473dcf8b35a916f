/** What happens when it is due: what each event, timer, reply and deadline does, and that nothing else ends a run. */
module Progress {
  import opened Wrappers
  import opened Text
  import opened Exchanges
  import opened Station
  import opened Conservation
  import opened Invariant
  import opened Alignment
  import Guarantees
  import Deferral
  import Utf8

  // ------ Events ----------------------------

  /** Only the phase differs. */
  predicate OnlyPhase(s: State, s': State) {
    s' == s.(phase := s'.phase)
  }

  /** The pending select, if any, is answered with this result, and the loop goes on. */
  predicate SelectResolved(s: State, s': State, result: SelectResult) {
    && s'.phase == Selecting && s'.select == None
    && s'.socks == s.socks && s'.waiters == s.waiters && s'.queue == s.queue
    && s'.log == s.log + (match s.select
                          case None => []
                          case Some(p) => [Answered(p.request, SelectAnswer(Ok(result)), ByEvent(p))])
  }

  /** Everybody who waits is answered with this value, the last accepted first. */
  predicate AllAnswered(s: State, s': State, a: Answer) {
    && s'.waiters == [] && |s'.log| == |s.log| + |s.waiters| && s.log <= s'.log
    && forall i | 0 <= i < |s.waiters| ::
         s'.log[|s'.log| - 1 - i] == Answered(s.waiters[i].request, a, ByScan(s.waiters[i]))
  }

  /** What an event does when the loop takes it. */
  lemma EventHandled(s: State, e: Event)
    requires s.phase == Selecting
    ensures var s' := Step(s, TakeEvent(e));
      match e
      case ScanComplete =>
        OnlyPhase(s, s') && s'.phase.Busy? && s'.phase.task == FetchScan && s'.phase.cmd == "SCAN_RESULTS"
        && s'.phase.wait == Sending && s'.phase.from == |Trace(s)|
      case ScanFailed =>
        AllAnswered(s, s', ScanAnswer(Err(Failed)))
        && s'.phase == Selecting && s'.socks == s.socks && s'.select == s.select && s'.queue == s.queue
      case Connected => SelectResolved(s, s', Success)
      case NetworkNotFound => SelectResolved(s, s', NotFound)
      case WrongPsk => SelectResolved(s, s', SelectResult.WrongPsk)
      case Disconnected => s' == s
      case Unknown => s' == s
  {
    hide ScanAnswers, Trace;
    if e.ScanFailed? {
      AnswersAll(s, ScanAnswer(Err(Failed)));
    }
  }

  lemma AnswersAll(s: State, a: Answer)
    ensures var log' := s.log + ScanAnswers(s.waiters, a);
      forall i | 0 <= i < |s.waiters| ::
        log'[|log'| - 1 - i] == Answered(s.waiters[i].request, a, ByScan(s.waiters[i]))
  {
    hide ScanAnswers;
    var log' := s.log + ScanAnswers(s.waiters, a);
    forall i | 0 <= i < |s.waiters|
      ensures log'[|log'| - 1 - i] == Answered(s.waiters[i].request, a, ByScan(s.waiters[i]))
    {
      Guarantees.EveryWaiterAnswered(s.waiters, a, i);
      assert log'[|log'| - 1 - i] == ScanAnswers(s.waiters, a)[|s.waiters| - 1 - i];
    }
  }

  // ------ The select's timer ----------------------------

  predicate TimerDue(s: State) {
    s.phase == Selecting && s.select.Some? && s.now >= s.select.value.since + s.cfg.selectTimeout
  }

  /** The timer of the pending select fires once its time has come, and then it answers Timeout; before, and with
      nothing pending or the loop elsewhere, it does nothing. */
  lemma TimerExactly(s: State)
    ensures var s' := Step(s, SelectTimer);
      if TimerDue(s) then
        var p := s.select.value;
        s' == s.(select := None,
                 log := s.log + [Answered(p.request, SelectAnswer(Err(Timeout)), ByTimer(p, s.now, |s.resolvers|))])
      else s' == s
  {
  }

  // ------ Exchanges ----------------------------

  /** The exchange under way ends like this, and its handler goes on. */
  predicate ExchangeEnds(s: State, s': State, outcome: Outcome)
    requires s.phase.Busy? && s.socks != []
  {
    var (k, x) := (LastSock(s), Exchange(s.phase.cmd, outcome));
    s'.socks == s.socks[|s.socks| - 1 :=
      k.(trace := k.trace + [x], read := if outcome.Replied? then k.read + 1 else k.read)]
    && !(s'.phase.Busy? && s'.phase.wait.Awaiting?) && !s'.phase.Stopped?
  }

  /** What ends an exchange, in any run: its reply is read when there is one, its timeout is due exactly after the
      command timeout, and a short write ends it at once; none of them does anything at another time. */
  lemma ExchangeExactly(cfg: Config, inputs: seq<Input>, i: Input)
    requires Exec(Init(cfg), inputs).phase.Busy?
    requires i.ReadReply? || i.CommandTimeout? || i.SendDone? || i.SendShort?
    ensures var s := Exec(Init(cfg), inputs);
      var (s', w) := (Step(s, i), s.phase.wait);
      && s.socks != []
      && var k := LastSock(s);
         match i
         case ReadReply =>
           if w.Awaiting? && k.read < |k.replies| then ExchangeEnds(s, s', Replied(k.read, k.replies[k.read]))
           else s' == s
         case CommandTimeout =>
           if w.Awaiting? && s.now >= w.since + cfg.commandTimeout then ExchangeEnds(s, s', TimedOut(w.since, s.now))
           else s' == s
         case SendDone =>
           if w.Sending? then s' == s.(phase := s.phase.(wait := Awaiting(s.now))) else s' == s
         case SendShort(n) =>
           if w.Sending? && n != |Utf8.Encode(s.phase.cmd)| then ExchangeEnds(s, s', Short(n)) else s' == s
         case _ => true
  {
    hide Exec, Conclusion, Inv;
    var s := Exec(Init(cfg), inputs);
    RunInv(cfg, inputs);
    Guarantees.SockThere(s);
    forall outcome: Outcome ensures ExchangeEnds(s, Conclusion(s, outcome), outcome) {
      ConclusionEnds(s, outcome);
    }
  }

  lemma ConclusionEnds(s: State, outcome: Outcome)
    requires Inv(s) && s.phase.Busy? && s.socks != []
    ensures ExchangeEnds(s, Conclusion(s, outcome), outcome)
  {
    hide Inv, Resume, TaskOk;
    Guarantees.SockThere(s);
    TaskStart(s);
    RowsThere(s.phase.task, s.phase.cmd, Trace(s)[s.phase.from..]);
    ResumeSocks(Pushed(s, outcome), s.phase.task, s.phase.from, Exchange(s.phase.cmd, outcome));
  }

  // ------ Opening a socket ----------------------------

  const FIVE_MINUTES: nat := 300000

  /** `run` begins an open, whose clock starts now. */
  lemma RunBegins(s: State)
    requires s.phase.Stopped?
    ensures Step(s, CallRun(true)) == s.(phase := Opening(None, [], s.now, s.now, 0, false))
    ensures Step(s, CallRun(false)).phase == Stopped(Some(IoError))
  {
    hide Drops;
  }

  /** An open is given up exactly from five minutes after it began; a failed connect is tried again exactly from a
      second later, unless the five minutes were over by then; a connect that succeeds ends it. */
  lemma OpenExactly(s: State, i: Input)
    requires s.phase.Opening?
    ensures var (s', p) := (Step(s, i), s.phase);
      var canTry := !p.expired && s.now >= p.nextTry;
      match i
      case OpenDeadline =>
        if s.now >= p.started + FIVE_MINUTES then s'.phase == Stopped(Some(TimeoutOpening)) else s' == s
      case ConnectDenied => if canTry then s'.phase == Stopped(Some(PermissionDenied)) else s' == s
      case ConnectFails =>
        if canTry then
          s' == s.(phase := Opening(p.first, p.deferred, p.started, s.now + 1000, p.loops + 1,
                                    s.now >= p.started + FIVE_MINUTES))
        else s' == s
      case ConnectOk(bound) =>
        if !canTry then s' == s
        else (match p.first
              case Some(first) => s' == s.(phase := Attaching(first + p.deferred))
              case None =>
                if !bound then s'.phase == Stopped(Some(IoError))
                else s' == s.(socks := s.socks + [Sock([], [], 0)],
                              phase := Opening(Some(p.deferred), [], s.now, s.now, 0, false)))
      case _ => true
  {
    hide Drops;
  }

  // ------ Clients ----------------------------

  /** A client's message enters at the end of the channel exactly when there is room; a request gets the next ticket. */
  lemma SentExactly(s: State, kind: Kind)
    ensures Step(s, ClientSend(kind))
         == if |s.queue| < s.cfg.capacity then
              s.(queue := s.queue + [Ask(Request(|s.issued|, kind))], issued := s.issued + [kind])
            else s
    ensures Step(s, ClientShutdown) == if |s.queue| < s.cfg.capacity then s.(queue := s.queue + [Shutdown]) else s
  {
    assert s.issued + [] == s.issued;
  }

  // ------ The end of a run ----------------------------

  /** The result with which an input ends the run, if it does. */
  function Ending(s: State, i: Input): Option<RunResult> {
    if i == TakeMessage && s.queue != [] && s.queue[0] == Shutdown && s.phase == Selecting then Some(Finished)
    else if i == TakeMessage && s.queue != [] && s.queue[0] == Shutdown && s.phase.Opening? then Some(StartupAborted)
    else if i == OpenDeadline && s.phase.Opening? && s.now >= s.phase.started + FIVE_MINUTES then Some(TimeoutOpening)
    else if i == ConnectDenied && s.phase.Opening? && CanTry(s) then Some(PermissionDenied)
    else if i == ConnectOk(false) && s.phase.Opening? && CanTry(s) && s.phase.first == None then Some(IoError)
    else if i == AttachFails && s.phase.Attaching? then Some(IoError)
    else if i == EventFails && s.phase == Selecting then Some(IoError)
    else if i == SendFails && s.phase.Busy? && s.phase.wait == Sending then Some(IoError)
    else if i == RecvFails && s.phase.Busy? && s.phase.wait.Awaiting? then Some(IoError)
    else None
  }

  /** In any run, `run` returns exactly for these reasons and with these results: a shutdown received, a deadline, a
      refused permission, a socket error. A failed request, a timeout or an unreadable reply ends nothing. */
  lemma EndsExactly(cfg: Config, inputs: seq<Input>, i: Input)
    requires !Exec(Init(cfg), inputs).phase.Stopped?
    ensures var s := Exec(Init(cfg), inputs);
      match Ending(s, i)
      case Some(result) => Step(s, i).phase == Stopped(Some(result))
      case None => !Step(s, i).phase.Stopped?
  {
    hide Exec, Inv, Step, Ending;
    var s := Exec(Init(cfg), inputs);
    RunInv(cfg, inputs);
    if s.phase.Busy? {
      Guarantees.SockThere(s);
      BusyEnds(s, i);
    } else {
      IdleEnds(s, i);
    }
  }

  /** The step ends the run just when, and as, it should. */
  predicate EndsRight(s: State, i: Input) {
    match Ending(s, i)
    case Some(result) => Step(s, i).phase == Stopped(Some(result))
    case None => !Step(s, i).phase.Stopped?
  }

  lemma BusyEnds(s: State, i: Input)
    requires Inv(s) && s.phase.Busy? && s.socks != []
    ensures EndsRight(s, i)
  {
    hide Inv, StepExchange, Stop, HandleEvent, Begin;
    ExchangeEndsRun(s, i);
  }

  lemma IdleEnds(s: State, i: Input)
    requires !s.phase.Stopped? && !s.phase.Busy?
    ensures EndsRight(s, i)
  {
    hide StepExchange, Drops, ScanAnswers, FirstCommand, Trace;
  }

  lemma ExchangeEndsRun(s: State, i: Input)
    requires Inv(s) && s.phase.Busy? && s.socks != []
    ensures var s' := StepExchange(s, i);
      if (i == SendFails && s.phase.wait == Sending) || (i == RecvFails && s.phase.wait.Awaiting?) then
        s'.phase == Stopped(Some(IoError))
      else !s'.phase.Stopped?
  {
    hide Inv, Conclusion, Drops;
    forall outcome: Outcome ensures ExchangeEnds(s, Conclusion(s, outcome), outcome) {
      ConclusionEnds(s, outcome);
    }
  }
}
