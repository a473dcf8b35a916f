/** The life of a select: one slot, filled and emptied in turn, over every run. */
module SelectSlot {
  import opened Wrappers
  import opened Exchanges
  import opened Station
  import opened Conservation
  import opened Invariant
  import opened Alignment

  // ------ The one-slot specification ----------------------------

  /** What can happen to the slot. */
  datatype SlotStep =
    | Nothing
    | Register(p: Pending)
    | Resolve(e: Event)
    | Expire(at: nat)
    | Abandon

  /** A slot holds one select; the first resolving event empties it, or its own timer, or the end of the run. */
  ghost predicate SlotNext(timeout: nat, now: nat, slot: Option<Pending>, slot': Option<Pending>, step: SlotStep) {
    match step
    case Nothing => slot' == slot
    case Register(p) => slot == None && slot' == Some(p) && p.since == now
    case Resolve(e) => Resolves(e) && slot' == None
    case Expire(at) => slot.Some? && slot' == None && at == now && slot.value.since + timeout <= at
    case Abandon => slot' == None
  }

  /** What the step adds to the log about selects in the slot. */
  ghost predicate SlotLogs(s: State, s': State, step: SlotStep) {
    && s.log <= s'.log
    && var added := s'.log[|s.log|..];
       match step
       case Nothing => NoSlotEntry(added)
       case Register(p) => added == [] && p.resolvers == |s.resolvers| && s'.resolvers == s.resolvers
       case Resolve(e) =>
         s'.resolvers == s.resolvers + [e]
         && (match s.select
             case None => added == []
             case Some(p) => added == [Answered(p.request, SelectAnswer(Ok(ResultOf(e))), ByEvent(p))])
       case Expire(at) =>
         s'.resolvers == s.resolvers && s.select.Some?
         && var (p, n) := (s.select.value, |s.resolvers|);
            added == [Answered(p.request, SelectAnswer(Err(Timeout)), ByTimer(p, at, n))]
       case Abandon =>
         NoSlotEntry(added) && s'.phase.Stopped? && (s.select.Some? ==> Dropped(s.select.value.request) in added)
  }

  predicate FromSlot(e: Entry) {
    e.Answered? && (e.cause.ByEvent? || e.cause.ByTimer?)
  }

  predicate NoSlotEntry(es: seq<Entry>) {
    forall e <- es :: !FromSlot(e)
  }

  /** The slot step that an input makes. */
  function Seen(s: State, i: Input): SlotStep {
    var s' := Step(s, i);
    if !s.phase.Stopped? && s'.phase.Stopped? then Abandon
    else match i
      case TakeEvent(e) => if s.phase.Selecting? && Resolves(e) then Resolve(e) else Nothing
      case SelectTimer => if s'.log != s.log then Expire(s.now) else Nothing
      case _ => if s.select.None? && s'.select.Some? then Register(s'.select.value) else Nothing
  }

  // ------ Every step is a slot step ----------------------------

  /** The slot and its records are left alone. */
  predicate Untouched(s: State, s': State) {
    s'.select == s.select && s'.resolvers == s.resolvers && s.log <= s'.log && NoSlotEntry(s'.log[|s.log|..])
    && (s'.phase.Stopped? ==> s.phase.Stopped?)
  }

  /** The run ends. */
  predicate Left(s: State, s': State) {
    s'.select == None && s'.phase.Stopped? && s'.resolvers == s.resolvers
    && s.log <= s'.log && NoSlotEntry(s'.log[|s.log|..])
    && (s.select.Some? ==> Dropped(s.select.value.request) in s'.log[|s.log|..])
  }

  /** The free slot is filled. */
  predicate Filled(s: State, s': State) {
    s.select == None && s'.select.Some? && s'.select.value.since == s.now && s'.select.value.resolvers == |s.resolvers|
    && s'.resolvers == s.resolvers && s'.log == s.log && !s'.phase.Stopped?
  }

  lemma StopLeaves(s: State, result: RunResult)
    ensures Left(s, Stop(s, result))
  {
    var held := PhaseRequests(s.phase) + WaiterRequests(s.waiters) + SelectRequests(s.select);
    var s' := Stop(s, result);
    assert s'.log[|s.log|..] == Drops(held);
    if s.select.Some? {
      var n := |held| - 1;
      assert held[n] == s.select.value.request;
      assert Drops(held)[n] == Dropped(s.select.value.request);
    }
  }

  lemma {:induction false} ScanEntries(ws: seq<Waiter>, a: Answer)
    ensures NoSlotEntry(ScanAnswers(ws, a))
  {
    if ws != [] {
      ScanEntries(ws[..|ws| - 1], a);
    }
  }

  lemma EndScanUntouched(s: State, end: ScanEnd)
    ensures Untouched(s, EndScan(s, end))
  {
    ScanEntries(s.waiters, end.answer);
    assert EndScan(s, end).log[|s.log|..] == ScanAnswers(s.waiters, end.answer);
  }

  lemma RespondUntouched(s: State, r: Request, a: Answer, cause: Cause)
    requires !cause.ByEvent? && !cause.ByTimer?
    ensures Untouched(s, Respond(s, r, a, cause))
  {
  }

  lemma NextRowUntouched(s: State, r: Request, from: nat, rows: seq<Row>, found: seq<NetworkResult>)
    requires !s.phase.Stopped?
    ensures Untouched(s, NextRow(s, r, from, rows, found))
  {
    hide Respond, Here, GetCommand;
    RespondUntouched(s, r, NetworksAnswer(Ok(found)), Direct(Here(s, from)));
  }

  lemma AfterFirstUntouched(s: State, r: Request, from: nat, x: Exchange)
    requires !s.phase.Stopped?
    ensures Untouched(s, AfterFirst(s, r, from, x))
  {
    hide Conclude, Rows, SimpleAnswer, Here, Respond, NextRow;
    forall a: Answer ensures Untouched(s, Respond(s, r, a, Direct(Here(s, from)))) {
      RespondUntouched(s, r, a, Direct(Here(s, from)));
    }
    if r.kind.Networks? && Conclude(x, AcceptText).Ok? {
      NextRowUntouched(s, r, from, Rows(Conclude(x, AcceptText).value), []);
    }
  }

  lemma AfterRowUntouched(s: State, t: Task, from: nat, x: Exchange)
    requires !s.phase.Stopped? && t.GetNetwork?
    ensures Untouched(s, AfterRow(s, t, from, x))
  {
    hide Conclude, Here, Respond, NextRow, Listed;
    match Conclude(x, AcceptSsid)
    case Err(e) => RespondUntouched(s, t.request, NetworksAnswer(Err(e)), Direct(Here(s, from)));
    case Ok(ssid) =>
      if t.rows != [] {
        NextRowUntouched(s, t.request, from, t.rows[1..], t.found + Listed(t.rows[0], ssid));
      }
  }

  lemma ResumeSlot(s: State, t: Task, from: nat, x: Exchange)
    requires t.SelectStatus? ==> s.select.None?
    requires !s.phase.Stopped?
    ensures Untouched(s, Resume(s, t, from, x)) || Filled(s, Resume(s, t, from, x))
  {
    hide Conclude, Here, EndScan, AfterFirst, AfterRow;
    match t
    case First(r) => AfterFirstUntouched(s, r, from, x);
    case GetNetwork(_, _, _) => AfterRowUntouched(s, t, from, x);
    case SelectStatus(_) =>
    case FetchScan =>
      EndScanUntouched(s, ScanEnd(ScanComplete, Some(Here(s, from)), ScanAnswer(Conclude(x, AcceptTable))));
  }

  lemma ConclusionSlot(s: State, outcome: Outcome)
    requires Inv(s) && s.phase.Busy? && s.socks != []
    ensures Untouched(s, Conclusion(s, outcome)) || Filled(s, Conclusion(s, outcome))
  {
    TaskStart(s);
    hide Resume, Inv;
    ResumeSlot(Pushed(s, outcome), s.phase.task, s.phase.from, Exchange(s.phase.cmd, outcome));
  }

  lemma ExchangeSlot(s: State, i: Input)
    requires Inv(s) && s.phase.Busy? && s.socks != []
    ensures var s' := StepExchange(s, i); Untouched(s, s') || Filled(s, s') || Left(s, s')
  {
    hide Inv, Conclusion, Stop;
    var k := LastSock(s);
    StopLeaves(s, IoError);
    match i
    case SendShort(n) => ConclusionSlot(s, Short(n));
    case ReadReply =>
      if k.read < |k.replies| {
        ConclusionSlot(s, Replied(k.read, k.replies[k.read]));
      }
    case CommandTimeout =>
      if s.phase.wait.Awaiting? {
        ConclusionSlot(s, TimedOut(s.phase.wait.since, s.now));
      }
    case _ =>
  }

  lemma TakeSlot(s: State)
    requires s.queue != []
    ensures var s' := StepTake(s); Untouched(s, s') || Left(s, s')
  {
    hide Stop, FirstCommand;
    var s0 := s.(queue := s.queue[1..]);
    StopLeaves(s0, StartupAborted);
    StopLeaves(s0, Finished);
  }

  lemma StartupSlot(s: State, i: Input)
    requires StartsUp(i)
    ensures var s' := Step(s, i); Untouched(s, s') || Left(s, s')
  {
    hide Stop;
    StopLeaves(s, IoError);
    StopLeaves(s, PermissionDenied);
    StopLeaves(s, TimeoutOpening);
  }

  /** Inputs other than events and the timer leave the slot, fill it, or end the run. */
  lemma OtherSlot(s: State, i: Input)
    requires Inv(s) && !i.TakeEvent? && !i.SelectTimer?
    ensures var s' := Step(s, i); Untouched(s, s') || Filled(s, s') || Left(s, s')
  {
    hide Inv, StepTake, StepExchange, Stop, Untouched, Filled, Left;
    match i
    case TakeMessage =>
      if s.queue != [] {
        TakeSlot(s);
      } else {
        SameUntouched(s, s);
      }
    case CallRun(_) => StartupSlot(s, i);
    case ConnectOk(_) => StartupSlot(s, i);
    case ConnectFails => StartupSlot(s, i);
    case ConnectDenied => StartupSlot(s, i);
    case OpenDeadline => StartupSlot(s, i);
    case AttachSent => StartupSlot(s, i);
    case AttachFails => StartupSlot(s, i);
    case EventFails =>
      StopLeaves(s, IoError);
      SameUntouched(s, s);
    case ClientSend(_) => SameUntouched(s, Step(s, i));
    case ClientShutdown => SameUntouched(s, Step(s, i));
    case Tick(_) => SameUntouched(s, Step(s, i));
    case PeerReply(_) => SameUntouched(s, Step(s, i));
    case ReplayOne => SameUntouched(s, Step(s, i));
    case _ =>
      if s.phase.Busy? && s.socks != [] {
        ExchangeSlot(s, i);
      } else {
        SameUntouched(s, s);
      }
  }

  lemma SameUntouched(s: State, s': State)
    requires s'.select == s.select && s'.resolvers == s.resolvers && s'.log == s.log
    requires s'.phase.Stopped? ==> s.phase.Stopped?
    ensures Untouched(s, s')
  {
  }

  lemma EventSlot(s: State, e: Event)
    requires Inv(s)
    ensures var (s', step) := (Step(s, TakeEvent(e)), Seen(s, TakeEvent(e)));
            SlotNext(s.cfg.selectTimeout, s.now, s.select, s'.select, step) && SlotLogs(s, s', step)
  {
    hide Inv, ScanAnswers, EndScan;
    EndScanUntouched(s, ScanEnd(ScanFailed, None, ScanAnswer(Err(Failed))));
  }

  lemma TimerSlot(s: State)
    requires Inv(s)
    ensures var (s', step) := (Step(s, SelectTimer), Seen(s, SelectTimer));
            SlotNext(s.cfg.selectTimeout, s.now, s.select, s'.select, step) && SlotLogs(s, s', step)
  {
    hide Inv;
  }

  /** The timer expires the slot exactly when the select in it is due; an event resolves it exactly when it tells how
      the connection went. */
  predicate SeenWhenDue(s: State, i: Input) {
    match i
    case SelectTimer =>
      Seen(s, i).Expire?
      <==> s.phase == Selecting && s.select.Some? && s.now >= s.select.value.since + s.cfg.selectTimeout
    case TakeEvent(e) =>
      Seen(s, i).Resolve? <==> s.phase == Selecting && (e == Connected || e == NetworkNotFound || e == Event.WrongPsk)
    case _ => !Seen(s, i).Expire? && !Seen(s, i).Resolve?
  }

  lemma SeenInTime(s: State, i: Input)
    ensures SeenWhenDue(s, i)
  {
    hide StepExchange, StepTake, ScanAnswers, Drops, StepConnected, StepConnectFails, StepReplay;
  }

  /** In every reachable state, every step of the runner is a step of the one-slot specification, and is one when it
      should be. */
  lemma SlotRefinement(cfg: Config, inputs: seq<Input>, i: Input)
    ensures var s := Exec(Init(cfg), inputs);
            var (s', step) := (Step(s, i), Seen(s, i));
            SlotNext(s.cfg.selectTimeout, s.now, s.select, s'.select, step) && SlotLogs(s, s', step)
    ensures SeenWhenDue(Exec(Init(cfg), inputs), i)
  {
    var s := Exec(Init(cfg), inputs);
    RunInv(cfg, inputs);
    StoppedEmpty(s);
    SeenInTime(s, i);
    match i
    case TakeEvent(e) => EventSlot(s, e);
    case SelectTimer => TimerSlot(s);
    case _ =>
      hide Exec, Inv;
      OtherSlot(s, i);
      SeenOther(s, i);
  }

  lemma StoppedEmpty(s: State)
    requires Inv(s)
    ensures s.phase.Stopped? ==> s.select == None
  {
    hide HistoryOk, TaskOk;
  }

  lemma SeenOther(s: State, i: Input)
    requires !i.TakeEvent? && !i.SelectTimer? && (s.phase.Stopped? ==> s.select == None)
    requires var s' := Step(s, i); Untouched(s, s') || Filled(s, s') || Left(s, s')
    ensures var (s', step) := (Step(s, i), Seen(s, i));
            SlotNext(s.cfg.selectTimeout, s.now, s.select, s'.select, step) && SlotLogs(s, s', step)
  {
    hide Step;
  }

  // ------ Slots do not overlap ----------------------------

  /** The slot entry was over before `p` was registered. */
  predicate OverBefore(e: Entry, p: Pending) {
    FromSlot(e) ==>
      match e.cause
      case ByEvent(q) => q.resolvers < p.resolvers && q.since <= p.since
      case ByTimer(q, at, n) => n <= p.resolvers && at <= p.since
      case _ => true
  }

  function SlotOf(e: Entry): Pending
    requires FromSlot(e)
  {
    match e.cause
    case ByEvent(p) => p
    case ByTimer(p, _, _) => p
  }

  predicate InTurn(s: State) {
    && (forall i, j | 0 <= i < j < |s.log| && FromSlot(s.log[j]) :: OverBefore(s.log[i], SlotOf(s.log[j])))
    && (s.select.Some? ==> forall i | 0 <= i < |s.log| :: OverBefore(s.log[i], s.select.value))
  }

  lemma {:induction false} SlotsInTurn(cfg: Config, inputs: seq<Input>)
    ensures InTurn(Exec(Init(cfg), inputs))
  {
    if inputs != [] {
      var (front, i) := (inputs[..|inputs| - 1], inputs[|inputs| - 1]);
      var s := Exec(Init(cfg), front);
      SlotsInTurn(cfg, front);
      SlotRefinement(cfg, front, i);
      RunInv(cfg, front);
      hide Exec, Inv, Step;
      forall e <- s.log ensures EntryOk(s, e) {
        LogEntryOk(s, e);
      }
      TurnKept(s, Step(s, i), Seen(s, i));
    }
  }

  lemma TurnKept(s: State, s': State, step: SlotStep)
    requires InTurn(s) && SlotLogs(s, s', step)
    requires SlotNext(s.cfg.selectTimeout, s.now, s.select, s'.select, step)
    requires forall e <- s.log :: EntryOk(s, e)
    ensures InTurn(s')
  {
    hide WaiterOk, Concludes, Said, SelectAccepted;
    var added := s'.log[|s.log|..];
    assert s'.log == s.log + added;
    if step.Register? {
      forall n | 0 <= n < |s'.log| ensures OverBefore(s'.log[n], step.p) {
        assert s.log[n] in s.log;
      }
    }
    forall n, m | 0 <= n < m < |s'.log| && FromSlot(s'.log[m]) ensures OverBefore(s'.log[n], SlotOf(s'.log[m])) {
      if m >= |s.log| {
        assert s'.log[m] == added[m - |s.log|];
        assert s'.log[m] in added;
      }
    }
  }
}
