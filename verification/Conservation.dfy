/** Every request is always in exactly one place: no step loses or copies one. */
module Conservation {
  import opened Wrappers
  import opened Exchanges
  import opened Station

  // ------ Where requests are ----------------------------

  /** The requests in the channel; a shutdown carries none. */
  function Asked(q: seq<Message>): seq<Request> {
    if q == [] then []
    else Asked(q[..|q| - 1]) + (match q[|q| - 1] case Ask(r) => [r] case Shutdown => [])
  }

  function Resolved(log: seq<Entry>): (rs: seq<Request>)
    ensures |rs| == |log|
  {
    seq(|log|, i requires 0 <= i < |log| => log[i].request)
  }

  /** Everything that a client sent, in order. */
  function Issued(kinds: seq<Kind>): (rs: seq<Request>)
    ensures |rs| == |kinds|
  {
    seq(|kinds|, i requires 0 <= i < |kinds| => Request(i, kinds[i]))
  }

  /** The requests that nobody has resolved yet, by place. */
  function Held(s: State): seq<Request> {
    PhaseRequests(s.phase) + WaiterRequests(s.waiters) + SelectRequests(s.select)
  }

  ghost function Tracked(s: State): multiset<Request> {
    multiset(Asked(s.queue)) + multiset(Held(s)) + multiset(Resolved(s.log))
  }

  ghost predicate Conserved(s: State) {
    Tracked(s) == multiset(Issued(s.issued))
  }

  /** A step that issues nothing and loses nothing. */
  ghost predicate Keeps(s: State, s': State) {
    Tracked(s') == Tracked(s) && s'.issued == s.issued
  }

  // ------ Lists and multisets ----------------------------

  lemma AskedSnoc(q: seq<Message>, m: Message)
    ensures Asked(q + [m]) == Asked(q) + (match m case Ask(r) => [r] case Shutdown => [])
  {
  }

  lemma {:induction false} AskedCons(q: seq<Message>)
    requires q != []
    ensures Asked(q) == (match q[0] case Ask(r) => [r] case Shutdown => []) + Asked(q[1..])
  {
    if |q| > 1 {
      var n := |q| - 1;
      AskedCons(q[..n]);
      assert q[1..][..n - 1] == q[..n][1..];
    }
  }

  lemma ResolvedAppend(a: seq<Entry>, b: seq<Entry>)
    ensures Resolved(a + b) == Resolved(a) + Resolved(b)
  {
  }

  lemma ResolvedDrops(rs: seq<Request>)
    ensures Resolved(Drops(rs)) == rs
  {
  }

  lemma {:induction false} ResolvedScans(ws: seq<Waiter>, a: Answer)
    ensures multiset(Resolved(ScanAnswers(ws, a))) == multiset(WaiterRequests(ws))
  {
    if ws != [] {
      var (init, w) := (ws[..|ws| - 1], ws[|ws| - 1]);
      ResolvedScans(init, a);
      ResolvedAppend([Answered(w.request, a, ByScan(w))], ScanAnswers(init, a));
      assert Resolved([Answered(w.request, a, ByScan(w))]) == [w.request];
      assert WaiterRequests(ws) == WaiterRequests(init) + [w.request];
    }
  }

  // ------ The pieces conserve ----------------------------

  /** Only the queue, the running locals and the log matter. */
  lemma SamePlaces(s: State, s': State)
    requires s'.issued == s.issued && s'.queue == s.queue
    requires s'.waiters == s.waiters && s'.select == s.select && s'.log == s.log
    requires PhaseRequests(s'.phase) == PhaseRequests(s.phase)
    ensures Keeps(s, s')
  {
  }

  lemma StopConserves(s: State, result: RunResult)
    ensures Keeps(s, Stop(s, result))
  {
    ResolvedAppend(s.log, Drops(Held(s)));
    ResolvedDrops(Held(s));
  }

  lemma RespondConserves(s: State, r: Request, a: Answer, cause: Cause)
    requires PhaseRequests(s.phase) == [r]
    ensures Keeps(s, Respond(s, r, a, cause))
  {
    var e := [Answered(r, a, cause)];
    ResolvedAppend(s.log, e);
    assert Resolved(e) == [r];
  }

  lemma EndScanConserves(s: State, end: ScanEnd)
    requires PhaseRequests(s.phase) == []
    ensures Keeps(s, EndScan(s, end))
  {
    ResolvedAppend(s.log, ScanAnswers(s.waiters, end.answer));
    ResolvedScans(s.waiters, end.answer);
  }

  lemma TakeSelectConserves(s: State, a: Answer, cause: Cause)
    requires s.select.Some?
    ensures var p := s.select.value;
            Keeps(s, s.(select := None, log := s.log + [Answered(p.request, a, cause)]))
  {
    var e := [Answered(s.select.value.request, a, cause)];
    ResolvedAppend(s.log, e);
    assert Resolved(e) == [s.select.value.request];
  }

  lemma ResolveConserves(s: State, e: Event)
    ensures Keeps(s, ResolveSelect(s, e))
  {
    hide Tracked;
    var s' := s.(resolvers := s.resolvers + [e]);
    SamePlaces(s, s');
    if s.select.Some? {
      TakeSelectConserves(s', SelectAnswer(Ok(ResultOf(e))), ByEvent(s.select.value));
    }
  }

  lemma EventConserves(s: State, e: Event)
    requires s.phase.Selecting?
    ensures Keeps(s, HandleEvent(s, e))
  {
    hide Tracked, EndScan, ResolveSelect;
    EndScanConserves(s, ScanEnd(ScanFailed, None, ScanAnswer(Err(Failed))));
    ResolveConserves(s, e);
    SamePlaces(s, ExchangeOf(s, FetchScan, |Trace(s)|, "SCAN_RESULTS"));
  }

  lemma TimerConserves(s: State)
    ensures Keeps(s, StepTimer(s))
  {
    hide Tracked;
    if s.select.Some? {
      TakeSelectConserves(s, SelectAnswer(Err(Timeout)), ByTimer(s.select.value, s.now, |s.resolvers|));
    }
  }

  lemma NextRowConserves(s: State, r: Request, from: nat, rows: seq<Row>, found: seq<NetworkResult>)
    requires PhaseRequests(s.phase) == [r]
    ensures Keeps(s, NextRow(s, r, from, rows, found))
  {
    hide Tracked, Respond, GetCommand, Here;
    RespondConserves(s, r, NetworksAnswer(Ok(found)), Direct(Here(s, from)));
    if rows != [] {
      SamePlaces(s, NextRow(s, r, from, rows, found));
    }
  }

  lemma WaitersSnoc(ws: seq<Waiter>, w: Waiter)
    ensures WaiterRequests(ws + [w]) == WaiterRequests(ws) + [w.request]
  {
  }

  lemma AcceptScanConserves(s: State, r: Request, w: Waiter)
    requires PhaseRequests(s.phase) == [r] && w.request == r
    ensures Keeps(s, s.(phase := Selecting, waiters := s.waiters + [w]))
  {
    hide Asked, Resolved, WaiterRequests, SelectRequests;
    WaitersSnoc(s.waiters, w);
    assert WaiterRequests(s.waiters + [w]) == WaiterRequests(s.waiters) + [r];
  }

  lemma AfterFirstConserves(s: State, r: Request, from: nat, x: Exchange)
    requires PhaseRequests(s.phase) == [r]
    ensures Keeps(s, AfterFirst(s, r, from, x))
  {
    hide Tracked, Respond, NextRow, Here, Conclude, SimpleAnswer, Rows;
    var here := Here(s, from);
    match r.kind
    case Scan => {
      match Conclude(x, AcceptScan)
      case Ok(_) => AcceptScanConserves(s, r, Waiter(r, here, |s.scans|));
      case Err(e) => RespondConserves(s, r, ScanAnswer(Err(e)), Direct(here));
    }
    case Networks => {
      match Conclude(x, AcceptText)
      case Ok(text) => NextRowConserves(s, r, from, Rows(text), []);
      case Err(e) => RespondConserves(s, r, NetworksAnswer(Err(e)), Direct(here));
    }
    case SelectNetwork(id) => {
      match Conclude(x, AcceptOk)
      case Ok(_) => SamePlaces(s, ExchangeOf(s, SelectStatus(r), from, "STATUS"));
      case Err(e) => RespondConserves(s, r, SelectAnswer(Err(e)), Direct(here));
    }
    case _ => RespondConserves(s, r, SimpleAnswer(r.kind, x), Direct(here));
  }

  lemma AfterRowConserves(s: State, t: Task, from: nat, x: Exchange)
    requires t.GetNetwork? && PhaseRequests(s.phase) == [t.request]
    ensures Keeps(s, AfterRow(s, t, from, x))
  {
    hide Tracked, Respond, NextRow, Here, Conclude, Listed;
    match Conclude(x, AcceptSsid)
    case Ok(ssid) =>
      if t.rows != [] {
        NextRowConserves(s, t.request, from, t.rows[1..], t.found + Listed(t.rows[0], ssid));
      }
    case Err(e) => RespondConserves(s, t.request, NetworksAnswer(Err(e)), Direct(Here(s, from)));
  }

  lemma AcceptSelectConserves(s: State, r: Request, p: Pending)
    requires PhaseRequests(s.phase) == [r] && s.select.None? && p.request == r
    ensures Keeps(s, s.(phase := Selecting, select := Some(p)))
  {
  }

  /** Registering a select overwrites none: the slot was free when the select was taken. */
  lemma AfterStatusConserves(s: State, r: Request, from: nat, x: Exchange)
    requires PhaseRequests(s.phase) == [r] && s.select.None?
    ensures Keeps(s, AfterStatus(s, r, from, x))
  {
    hide Tracked, Conclude, Respond, Here;
    match Conclude(x, AcceptStatus)
    case Err(e) => RespondConserves(s, r, SelectAnswer(Err(e)), Direct(Here(s, from)));
    case Ok(st) =>
      if r.kind.SelectNetwork? && st.id == Some(r.kind.id) {
        RespondConserves(s, r, SelectAnswer(Ok(AlreadyConnected)), Direct(Here(s, from)));
      } else {
        AcceptSelectConserves(s, r, Pending(r, Here(s, from), |s.resolvers|, s.now));
      }
  }

  /** A select in progress means that the slot is free. */
  predicate SlotFree(s: State) {
    s.phase.Busy? && (s.phase.task.SelectStatus? || (s.phase.task.First? && s.phase.task.request.kind.SelectNetwork?))
    ==> s.select.None?
  }

  lemma ConclusionConserves(s: State, outcome: Outcome)
    requires s.phase.Busy? && s.socks != [] && SlotFree(s)
    ensures Keeps(s, Conclusion(s, outcome))
  {
    hide Tracked, Conclude, AfterFirst, AfterRow, AfterStatus, EndScan, Here;
    var (t, from, x) := (s.phase.task, s.phase.from, Exchange(s.phase.cmd, outcome));
    var s' := Pushed(s, outcome);
    SamePlaces(s, s');
    match t
    case First(r) => AfterFirstConserves(s', r, from, x);
    case GetNetwork(_, _, _) => AfterRowConserves(s', t, from, x);
    case SelectStatus(r) => AfterStatusConserves(s', r, from, x);
    case FetchScan =>
      EndScanConserves(s', ScanEnd(ScanComplete, Some(Here(s', from)), ScanAnswer(Conclude(x, AcceptTable))));
  }

  lemma ExchangeConserves(s: State, i: Input)
    requires s.phase.Busy? && s.socks != [] && SlotFree(s)
    ensures Keeps(s, StepExchange(s, i))
  {
    hide Tracked, Conclusion, Stop;
    var k := s.socks[|s.socks| - 1];
    StopConserves(s, IoError);
    match i
    case SendDone => SamePlaces(s, s.(phase := s.phase.(wait := Awaiting(s.now))));
    case SendShort(n) => ConclusionConserves(s, Short(n));
    case ReadReply =>
      if k.read < |k.replies| {
        ConclusionConserves(s, Replied(k.read, k.replies[k.read]));
      }
    case CommandTimeout =>
      if s.phase.wait.Awaiting? {
        ConclusionConserves(s, TimedOut(s.phase.wait.since, s.now));
      }
    case _ =>
  }

  /** A request taken from the queue goes to the locals. */
  lemma TakenConserves(s: State, s': State, r: Request)
    requires s.queue != [] && s.queue[0] == Ask(r)
    requires s'.issued == s.issued && s'.queue == s.queue[1..]
    requires s'.waiters == s.waiters && s'.select == s.select && s'.log == s.log
    requires PhaseRequests(s'.phase) == PhaseRequests(s.phase) + [r]
    ensures Keeps(s, s')
  {
    AskedCons(s.queue);
  }

  lemma TakenShutdownConserves(s: State)
    requires s.queue != [] && s.queue[0] == Shutdown
    ensures Keeps(s, s.(queue := s.queue[1..]))
  {
    AskedCons(s.queue);
  }

  lemma TakeConserves(s: State)
    requires s.queue != []
    ensures Keeps(s, StepTake(s))
  {
    hide Tracked, Stop, Respond, FirstCommand;
    var (m, s') := (s.queue[0], s.(queue := s.queue[1..]));
    if m.Shutdown? {
      TakenShutdownConserves(s);
      StopConserves(s', StartupAborted);
      StopConserves(s', Finished);
    } else if s.phase.Opening? {
      TakenConserves(s, StepTake(s), m.request);
    } else if s.phase.Selecting? {
      var begun := s'.(phase := Busy(First(m.request), |Trace(s')|, FirstCommand(m.request.kind), Sending));
      TakenConserves(s, begun, m.request);
      if m.request.kind.SelectNetwork? && s'.select.Some? {
        RespondSame(begun, s', m.request, SelectAnswer(Err(PendingSelect)), Refused(s'.select.value));
        RespondConserves(begun, m.request, SelectAnswer(Err(PendingSelect)), Refused(s'.select.value));
      }
    }
  }

  lemma RespondSame(s: State, s': State, r: Request, a: Answer, cause: Cause)
    requires s == s'.(phase := s.phase)
    ensures Respond(s, r, a, cause) == Respond(s', r, a, cause)
  {
  }

  lemma ReplayConserves(s: State)
    requires s.phase.Replaying? && s.phase.rest != []
    ensures Keeps(s, StepReplay(s))
  {
    hide Asked, Resolved, WaiterRequests, SelectRequests;
    var rest := s.phase.rest[1..];
    AskedSnoc(s.queue, Ask(s.phase.rest[0]));
    assert PhaseRequests(StepReplay(s).phase) == rest;
    assert s.phase.rest == [s.phase.rest[0]] + s.phase.rest[1..];
  }

  lemma IssuedSnoc(kinds: seq<Kind>, kind: Kind)
    ensures Issued(kinds + [kind]) == Issued(kinds) + [Request(|kinds|, kind)]
  {
  }

  lemma ClientConserves(s: State, m: Message, kinds: seq<Kind>)
    requires Conserved(s)
    requires m.Ask? ==> kinds == [m.request.kind] && m.request.ticket == |s.issued|
    requires m.Shutdown? ==> kinds == []
    ensures Conserved(StepClient(s, m, kinds))
  {
    hide PhaseRequests, WaiterRequests, SelectRequests, Resolved, Asked, Issued;
    assert Held(StepClient(s, m, kinds)) == Held(s);
    AskedSnoc(s.queue, m);
    assert s.issued + [] == s.issued;
    if m.Ask? {
      IssuedSnoc(s.issued, m.request.kind);
    }
  }

  lemma StartupConserves(s: State, i: Input)
    requires StartsUp(i)
    ensures Keeps(s, Step(s, i))
  {
    hide Tracked, Stop;
    StopConserves(s, IoError);
    StopConserves(s, PermissionDenied);
    StopConserves(s, TimeoutOpening);
    if !Step(s, i).phase.Stopped? {
      OpenedPlaces(s, i);
      SamePlaces(s, Step(s, i));
    }
  }

  lemma OpenedPlaces(s: State, i: Input)
    requires StartsUp(i)
    requires !Step(s, i).phase.Stopped?
    ensures var s' := Step(s, i);
            && s'.issued == s.issued && s'.queue == s.queue
            && s'.waiters == s.waiters && s'.select == s.select && s'.log == s.log
            && PhaseRequests(s'.phase) == PhaseRequests(s.phase)
  {
  }

  lemma StepConserves(s: State, i: Input)
    requires Conserved(s) && SlotFree(s)
    ensures Conserved(Step(s, i))
  {
    hide Tracked, Issued, StepTake, StepExchange, StepTimer, StepClient, StepReplay, HandleEvent, BeginOpen, Stop,
      StepConnected, StepConnectFails;
    match i
    case ClientSend(kind) => ClientConserves(s, Ask(Request(|s.issued|, kind)), [kind]);
    case ClientShutdown => ClientConserves(s, Shutdown, []);
    case Tick(_) => SamePlaces(s, Step(s, i));
    case PeerReply(_) => SamePlaces(s, Step(s, i));
    case ReplayOne =>
      if s.phase.Replaying? && s.phase.rest != [] {
        ReplayConserves(s);
      }
    case TakeMessage =>
      if s.queue != [] {
        TakeConserves(s);
      }
    case TakeEvent(e) =>
      if s.phase.Selecting? {
        EventConserves(s, e);
      }
    case EventFails => StopConserves(s, IoError);
    case SelectTimer => TimerConserves(s);
    case CallRun(_) => StartupConserves(s, i);
    case ConnectOk(_) => StartupConserves(s, i);
    case ConnectFails => StartupConserves(s, i);
    case ConnectDenied => StartupConserves(s, i);
    case OpenDeadline => StartupConserves(s, i);
    case AttachSent => StartupConserves(s, i);
    case AttachFails => StartupConserves(s, i);
    case _ =>
      if s.phase.Busy? && s.socks != [] {
        ExchangeConserves(s, i);
      }
  }

  // ------ Exactly one place ----------------------------

  /** Tickets are issued once each. */
  lemma {:induction false} IssuedOnce(kinds: seq<Kind>, r: Request)
    ensures multiset(Issued(kinds))[r] == if r.ticket < |kinds| && kinds[r.ticket] == r.kind then 1 else 0
  {
    if kinds != [] {
      var n := |kinds| - 1;
      IssuedOnce(kinds[..n], r);
      assert Issued(kinds) == Issued(kinds[..n]) + [Request(n, kinds[n])];
    }
  }

  /** The places of a conserved state, one after the other. */
  function Places(s: State): seq<Request> {
    Asked(s.queue) + Held(s) + Resolved(s.log)
  }

  lemma {:induction false} CountTwice<T>(q: seq<T>, i: nat, j: nat)
    requires i < j < |q| && q[i] == q[j]
    ensures multiset(q)[q[i]] >= 2
  {
    assert q == q[..j] + [q[j]] + q[j + 1..];
    assert q[i] in q[..j] by {
      assert q[..j][i] == q[i];
    }
  }

  /** In a conserved state every ticket issued is at exactly one position of exactly one place. */
  lemma EachTicketOnce(s: State)
    requires Conserved(s)
    ensures forall i, j | 0 <= i < j < |Places(s)| :: Places(s)[i].ticket != Places(s)[j].ticket
    ensures forall t | 0 <= t < |s.issued| :: Request(t, s.issued[t]) in Places(s)
    ensures forall r <- Places(s) :: r.ticket < |s.issued| && s.issued[r.ticket] == r.kind
  {
    var q := Places(s);
    assert multiset(q) == multiset(Issued(s.issued));
    forall r <- q ensures r.ticket < |s.issued| && s.issued[r.ticket] == r.kind {
      IssuedOnce(s.issued, r);
      assert multiset(q)[r] > 0;
    }
    forall t | 0 <= t < |s.issued| ensures Request(t, s.issued[t]) in q {
      IssuedOnce(s.issued, Request(t, s.issued[t]));
      assert multiset(q)[Request(t, s.issued[t])] > 0;
    }
    forall i, j | 0 <= i < j < |q| ensures q[i].ticket != q[j].ticket {
      assert q[i] in q && q[j] in q;
      if q[i].ticket == q[j].ticket {
        assert q[i] == q[j];
        CountTwice(q, i, j);
        IssuedOnce(s.issued, q[i]);
      }
    }
  }
}
