/** The histories that the machine keeps are those of its inputs, and its channel is first in, first out. */
module History {
  import opened Wrappers
  import opened Exchanges
  import opened Station
  import opened Conservation
  import opened Invariant
  import opened Alignment
  import Guarantees

  // ------ Events ----------------------------

  /** The resolving event that this input makes the loop handle. */
  function ResolvedBy(s: State, i: Input): seq<Event> {
    if s.phase == Selecting && i.TakeEvent?
       && (i.event == Connected || i.event == NetworkNotFound || i.event == Event.WrongPsk)
    then [i.event] else []
  }

  /** The scan-ending event whose handling this input ends: a failed scan at once, a completed one with its exchange. */
  function EndedBy(s: State, i: Input): seq<Event> {
    if s.phase == Selecting && i == TakeEvent(ScanFailed) then [ScanFailed]
    else if s.phase.Busy? && s.phase.task == FetchScan && Step(s, i).phase == Selecting then [ScanComplete]
    else []
  }

  function Resolving(cfg: Config, inputs: seq<Input>): seq<Event> {
    if inputs == [] then []
    else
      var front := inputs[..|inputs| - 1];
      Resolving(cfg, front) + ResolvedBy(Exec(Init(cfg), front), inputs[|inputs| - 1])
  }

  function Ending(cfg: Config, inputs: seq<Input>): seq<Event> {
    if inputs == [] then []
    else
      var front := inputs[..|inputs| - 1];
      Ending(cfg, front) + EndedBy(Exec(Init(cfg), front), inputs[|inputs| - 1])
  }

  function Events(ends: seq<ScanEnd>): (es: seq<Event>)
    ensures |es| == |ends|
  {
    seq(|ends|, i requires 0 <= i < |ends| => ends[i].event)
  }

  /** The histories by which answers are numbered list the events that the loop was given and handled, in order. */
  lemma {:induction false} EventHistory(cfg: Config, inputs: seq<Input>)
    ensures var s := Exec(Init(cfg), inputs);
      s.resolvers == Resolving(cfg, inputs) && Events(s.scans) == Ending(cfg, inputs)
  {
    hide Step, Inv, ResolvedBy, EndedBy;
    if inputs != [] {
      var front := inputs[..|inputs| - 1];
      EventHistory(cfg, front);
      RunInv(cfg, front);
      StepHistory(Exec(Init(cfg), front), inputs[|inputs| - 1]);
    }
  }

  lemma StepHistory(s: State, i: Input)
    requires Inv(s)
    ensures var s' := Step(s, i);
      s'.resolvers == s.resolvers + ResolvedBy(s, i) && Events(s'.scans) == Events(s.scans) + EndedBy(s, i)
  {
    hide Inv, StepExchange, ScanAnswers, Drops, FirstCommand, Trace, Events;
    NoMore(s.scans, s.resolvers);
    OneMore(s.scans, ScanEnd(ScanFailed, None, ScanAnswer(Err(Failed))));
    if s.phase.Busy? {
      Guarantees.SockThere(s);
      ExchangeHistory(s, i);
    }
  }

  lemma NoMore(ends: seq<ScanEnd>, resolvers: seq<Event>)
    ensures Events(ends) + [] == Events(ends) && resolvers + [] == resolvers
  {
  }

  lemma OneMore(ends: seq<ScanEnd>, end: ScanEnd)
    ensures Events(ends + [end]) == Events(ends) + [end.event]
  {
  }

  lemma ExchangeHistory(s: State, i: Input)
    requires Inv(s) && s.phase.Busy? && s.socks != []
    ensures var s' := StepExchange(s, i);
      && s'.resolvers == s.resolvers
      && Events(s'.scans)
         == Events(s.scans) + (if s.phase.task == FetchScan && s'.phase == Selecting then [ScanComplete] else [])
  {
    hide Inv, Resume, Drops, Events;
    NoMore(s.scans, s.resolvers);
    forall outcome: Outcome
      ensures var s' := Conclusion(s, outcome);
        && s'.resolvers == s.resolvers
        && Events(s'.scans)
           == Events(s.scans) + (if s.phase.task == FetchScan && s'.phase == Selecting then [ScanComplete] else [])
    {
      ResumeHistory(Pushed(s, outcome), s.phase.task, s.phase.from, Exchange(s.phase.cmd, outcome));
    }
  }

  lemma ResumeHistory(s: State, t: Task, from: nat, x: Exchange)
    ensures var s' := Resume(s, t, from, x);
      && s'.resolvers == s.resolvers
      && Events(s'.scans) == Events(s.scans) + (if t == FetchScan then [ScanComplete] else [])
      && (t == FetchScan ==> s'.phase == Selecting)
  {
    hide Conclude, Rows, SimpleAnswer, Here, ScanAnswers, GetCommand, Listed, Events;
    NoMore(s.scans, s.resolvers);
    OneMore(s.scans, ScanEnd(ScanComplete, Some(Here(s, from)), ScanAnswer(Conclude(x, AcceptTable))));
  }

  // ------ The channel ----------------------------

  /** What this input puts at the end of the channel. */
  function Entering(s: State, i: Input): seq<Message> {
    if |s.queue| >= s.cfg.capacity then []
    else match i
      case ClientSend(kind) => [Ask(Request(|s.issued|, kind))]
      case ClientShutdown => [Shutdown]
      case ReplayOne => if s.phase.Replaying? && s.phase.rest != [] then [Ask(s.phase.rest[0])] else []
      case _ => []
  }

  /** What the runner takes: it receives while it opens its sockets and in the loop. */
  function Taking(s: State, i: Input): seq<Message> {
    if i == TakeMessage && (s.phase.Opening? || s.phase == Selecting) && s.queue != [] then [s.queue[0]] else []
  }

  function Entered(cfg: Config, inputs: seq<Input>): seq<Message> {
    if inputs == [] then []
    else
      var front := inputs[..|inputs| - 1];
      Entered(cfg, front) + Entering(Exec(Init(cfg), front), inputs[|inputs| - 1])
  }

  function Taken(cfg: Config, inputs: seq<Input>): seq<Message> {
    if inputs == [] then []
    else
      var front := inputs[..|inputs| - 1];
      Taken(cfg, front) + Taking(Exec(Init(cfg), front), inputs[|inputs| - 1])
  }

  /** In every run, restarts included, messages are taken in the order in which they entered, and those not yet taken
      are the channel. */
  lemma {:induction false} FirstInFirstOut(cfg: Config, inputs: seq<Input>)
    ensures Taken(cfg, inputs) + Exec(Init(cfg), inputs).queue == Entered(cfg, inputs)
  {
    hide Step, Taking, Entering;
    if inputs != [] {
      var (front, i) := (inputs[..|inputs| - 1], inputs[|inputs| - 1]);
      FirstInFirstOut(cfg, front);
      var s := Exec(Init(cfg), front);
      StepQueue(s, i);
      assert Taken(cfg, inputs) + Step(s, i).queue == Taken(cfg, front) + (Taking(s, i) + Step(s, i).queue);
      assert Entered(cfg, inputs) == Taken(cfg, front) + (s.queue + Entering(s, i));
    }
  }

  lemma StepQueue(s: State, i: Input)
    ensures Taking(s, i) + Step(s, i).queue == s.queue + Entering(s, i)
  {
    hide Step, Taking, Entering;
    if i.TakeMessage? {
      TakeQueue(s);
    } else if i.ClientSend? || i.ClientShutdown? || i.ReplayOne? {
      EnterQueue(s, i);
    } else {
      OtherQueue(s, i);
    }
  }

  lemma TakeQueue(s: State)
    ensures Taking(s, TakeMessage) + Step(s, TakeMessage).queue == s.queue + Entering(s, TakeMessage)
  {
    hide Drops, FirstCommand, Trace;
    if s.queue != [] {
      assert s.queue == [s.queue[0]] + s.queue[1..];
    }
    assert [] + s.queue == s.queue && s.queue + [] == s.queue;
  }

  lemma EnterQueue(s: State, i: Input)
    requires i.ClientSend? || i.ClientShutdown? || i.ReplayOne?
    ensures Taking(s, i) + Step(s, i).queue == s.queue + Entering(s, i)
  {
    assert [] + Step(s, i).queue == Step(s, i).queue && s.queue + [] == s.queue;
  }

  lemma OtherQueue(s: State, i: Input)
    requires !i.TakeMessage? && !i.ClientSend? && !i.ClientShutdown? && !i.ReplayOne?
    ensures Taking(s, i) + Step(s, i).queue == s.queue + Entering(s, i)
  {
    hide StepExchange, ScanAnswers, Drops, FirstCommand, Trace;
    if s.phase.Busy? && s.socks != [] {
      ExchangeQueue(s, i);
    }
    assert [] + s.queue == s.queue && s.queue + [] == s.queue;
  }

  /** What becomes of a message that is taken: during the opens a request is set aside, in the loop it is begun with
      its first datagram, but for a select while one is pending, which is refused; a shutdown ends the run. */
  lemma TakenHandled(s: State)
    requires s.queue != [] && (s.phase.Opening? || s.phase == Selecting)
    ensures var (m, s') := (s.queue[0], Step(s, TakeMessage));
      && s'.queue == s.queue[1..]
      && match m
         case Shutdown => s'.phase == Stopped(Some(if s.phase.Opening? then StartupAborted else Finished))
         case Ask(r) =>
           if s.phase.Opening? then s' == s.(queue := s'.queue, phase := s.phase.(deferred := s.phase.deferred + [r]))
           else if r.kind.SelectNetwork? && s.select.Some? then
             s' == s.(queue := s'.queue, log := s.log +
                      [Answered(r, SelectAnswer(Err(PendingSelect)), Refused(s.select.value))])
           else
             s'.phase.Busy? && s'.phase.task == First(r) && s'.phase.wait == Sending && s'.phase.from == |Trace(s)|
             && s' == s.(queue := s'.queue, phase := s'.phase)
  {
    hide Drops, FirstCommand;
  }
}
