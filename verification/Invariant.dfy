/** What every step keeps: each answer in the log is explained by the exchanges and events behind it. */
module Invariant {
  import opened Wrappers
  import opened Text
  import opened Exchanges
  import opened Station
  import opened Conservation
  import Utf8

  // ------ Sockets ----------------------------

  /** Exchanges that read no reply: they timed out or wrote short. */
  function Skips(xs: seq<Exchange>): (n: nat)
    ensures n <= |xs|
  {
    if xs == [] then 0 else Skips(xs[..|xs| - 1]) + (if xs[|xs| - 1].outcome.Replied? then 0 else 1)
  }

  /** Exchange `n` read the reply whose number is `n` less the exchanges before it that read none. */
  predicate ExchangeOk(cfg: Config, k: Sock, n: nat)
    requires n < |k.trace|
  {
    match k.trace[n].outcome
    case Replied(i, b) => i + Skips(k.trace[..n]) == n && i < |k.replies| && k.replies[i] == b
    case TimedOut(sent, ended) => sent + cfg.commandTimeout <= ended
    case Short(w) => w != |Utf8.Encode(k.trace[n].cmd)|
  }

  predicate SockOk(cfg: Config, k: Sock) {
    && k.read + Skips(k.trace) == |k.trace| && k.read <= |k.replies|
    && forall n | 0 <= n < |k.trace| :: ExchangeOk(cfg, k, n)
  }

  lemma PushOk(cfg: Config, k: Sock, x: Exchange)
    requires SockOk(cfg, k)
    requires match x.outcome
             case Replied(i, b) => i == k.read < |k.replies| && b == k.replies[i]
             case TimedOut(sent, ended) => sent + cfg.commandTimeout <= ended
             case Short(w) => w != |Utf8.Encode(x.cmd)|
    ensures SockOk(cfg, k.(trace := k.trace + [x], read := if x.outcome.Replied? then k.read + 1 else k.read))
  {
    var k' := k.(trace := k.trace + [x], read := if x.outcome.Replied? then k.read + 1 else k.read);
    assert k'.trace[..|k.trace|] == k.trace;
    forall n | 0 <= n < |k'.trace| ensures ExchangeOk(cfg, k', n) {
      if n < |k.trace| {
        assert k'.trace[..n] == k.trace[..n];
        assert ExchangeOk(cfg, k, n);
      }
    }
  }

  lemma MoreReplies(cfg: Config, k: Sock, b: seq<byte>)
    requires SockOk(cfg, k)
    ensures SockOk(cfg, k.(replies := k.replies + [b]))
  {
    var k' := k.(replies := k.replies + [b]);
    forall n | 0 <= n < |k'.trace| ensures ExchangeOk(cfg, k', n) {
      assert ExchangeOk(cfg, k, n);
    }
  }

  // ------ Records ----------------------------

  predicate ConvOk(s: State, c: Conv) {
    c.sock < |s.socks| && c.from <= c.to <= |s.socks[c.sock].trace|
  }

  /** The exchanges of a conversation. */
  function Said(s: State, c: Conv): seq<Exchange>
    requires ConvOk(s, c)
  {
    s.socks[c.sock].trace[c.from..c.to]
  }

  predicate WaiterOk(s: State, w: Waiter) {
    w.request.kind.Scan? && ConvOk(s, w.conv) && ScanAccepted(Said(s, w.conv))
  }

  predicate PendingOk(s: State, p: Pending) {
    p.request.kind.SelectNetwork? && ConvOk(s, p.conv) && SelectAccepted(p.request.kind.id, Said(s, p.conv))
    && p.since <= s.now && p.resolvers <= |s.resolvers|
  }

  /** A completed scan ended in one SCAN_RESULTS exchange and its value, a failed one in none and a failure. */
  predicate EndOk(s: State, e: ScanEnd) {
    match e.event
    case ScanFailed => e.conv == None && e.answer == ScanAnswer(Err(Failed))
    case ScanComplete =>
      e.conv.Some? && ConvOk(s, e.conv.value)
      && var xs := Said(s, e.conv.value);
         |xs| == 1 && xs[0].cmd == "SCAN_RESULTS" && e.answer == ScanAnswer(Conclude(xs[0], AcceptTable))
    case _ => false
  }

  /** Why a request was answered, and that the answer is the one that this reason gives. */
  predicate EntryOk(s: State, e: Entry) {
    match e
    case Dropped(_) => true
    case Answered(r, a, Direct(c)) => ConvOk(s, c) && Concludes(r.kind, Said(s, c), a)
    case Answered(r, a, ByScan(w)) =>
      w.request == r && WaiterOk(s, w) && w.scans < |s.scans| && a == s.scans[w.scans].answer
    case Answered(r, a, ByEvent(p)) =>
      p.request == r && PendingOk(s, p) && p.resolvers < |s.resolvers|
      && a == SelectAnswer(Ok(ResultOf(s.resolvers[p.resolvers])))
    case Answered(r, a, ByTimer(p, at, n)) =>
      p.request == r && PendingOk(s, p) && n == p.resolvers && p.since + s.cfg.selectTimeout <= at <= s.now
      && a == SelectAnswer(Err(Timeout))
    case Answered(r, a, Refused(p)) =>
      r.kind.SelectNetwork? && PendingOk(s, p) && a == SelectAnswer(Err(PendingSelect))
  }

  // ------ Growth ----------------------------

  /** History only grows. */
  predicate Grows(s: State, s': State) {
    && s'.cfg == s.cfg && s.now <= s'.now && s.scans <= s'.scans && s.resolvers <= s'.resolvers
    && |s.socks| <= |s'.socks| && forall k | 0 <= k < |s.socks| :: s.socks[k].trace <= s'.socks[k].trace
  }

  lemma SaidStable(s: State, s': State, c: Conv)
    requires Grows(s, s') && ConvOk(s, c)
    ensures ConvOk(s', c) && Said(s', c) == Said(s, c)
  {
  }

  lemma WaiterStable(s: State, s': State, w: Waiter)
    requires Grows(s, s') && WaiterOk(s, w)
    ensures WaiterOk(s', w)
  {
    hide ScanAccepted;
    SaidStable(s, s', w.conv);
  }

  lemma PendingStable(s: State, s': State, p: Pending)
    requires Grows(s, s') && PendingOk(s, p)
    ensures PendingOk(s', p)
  {
    hide SelectAccepted;
    SaidStable(s, s', p.conv);
  }

  lemma EndStable(s: State, s': State, e: ScanEnd)
    requires Grows(s, s') && EndOk(s, e)
    ensures EndOk(s', e)
  {
    hide Conclude;
    if e.conv.Some? {
      SaidStable(s, s', e.conv.value);
    }
  }

  lemma EntryStable(s: State, s': State, e: Entry)
    requires Grows(s, s') && EntryOk(s, e)
    ensures EntryOk(s', e)
  {
    hide Concludes, WaiterOk, PendingOk, Said;
    if e.Answered? {
      match e.cause
      case Direct(c) => SaidStable(s, s', c);
      case ByScan(w) => WaiterStable(s, s', w);
      case ByEvent(p) => PendingStable(s, s', p);
      case ByTimer(p, _, _) => PendingStable(s, s', p);
      case Refused(p) => PendingStable(s, s', p);
    }
  }

  // ------ The history invariant ----------------------------

  predicate SocksOk(s: State) {
    forall k <- s.socks :: SockOk(s.cfg, k)
  }

  /** Everybody waiting for a scan was accepted after the last scan event. */
  predicate WaitingOk(s: State) {
    forall w <- s.waiters :: WaiterOk(s, w) && w.scans == |s.scans|
  }

  /** No resolving event was handled since the pending select was registered. */
  predicate SlotOk(s: State) {
    s.select.Some? ==> PendingOk(s, s.select.value) && s.select.value.resolvers == |s.resolvers|
  }

  predicate LogOk(s: State) {
    forall e <- s.log :: EntryOk(s, e)
  }

  predicate EndsOk(s: State) {
    && (forall e <- s.scans :: EndOk(s, e))
    && (forall e <- s.resolvers :: Resolves(e))
  }

  predicate HistoryOk(s: State) {
    SocksOk(s) && WaitingOk(s) && SlotOk(s) && LogOk(s) && EndsOk(s)
  }

  lemma LogGrows(s: State, s': State, es: seq<Entry>)
    requires LogOk(s) && Grows(s, s') && s'.log == s.log + es && forall e <- es :: EntryOk(s', e)
    ensures LogOk(s')
  {
    hide EntryOk, Grows;
    forall e <- s'.log ensures EntryOk(s', e) {
      if e in s.log {
        EntryStable(s, s', e);
      }
    }
  }

  lemma EndsGrow(s: State, s': State, ends: seq<ScanEnd>, events: seq<Event>)
    requires EndsOk(s) && Grows(s, s') && s'.scans == s.scans + ends && s'.resolvers == s.resolvers + events
    requires (forall e <- ends :: EndOk(s', e)) && forall e <- events :: Resolves(e)
    ensures EndsOk(s')
  {
    hide EndOk, Grows;
    forall e <- s'.scans ensures EndOk(s', e) {
      if e in s.scans {
        EndStable(s, s', e);
      }
    }
  }

  lemma WaitingGrows(s: State, s': State)
    requires WaitingOk(s) && Grows(s, s') && s'.waiters == s.waiters && s'.scans == s.scans
    ensures WaitingOk(s')
  {
    hide WaiterOk, Grows;
    forall w <- s'.waiters ensures WaiterOk(s', w) {
      WaiterStable(s, s', w);
    }
  }

  lemma SlotGrows(s: State, s': State)
    requires SlotOk(s) && Grows(s, s') && s'.select == s.select && s'.resolvers == s.resolvers
    ensures SlotOk(s')
  {
    hide PendingOk, Grows;
    if s.select.Some? {
      PendingStable(s, s', s.select.value);
    }
  }

  /** A step that only extends sockets and time, and perhaps the log. */
  lemma QuietHistory(s: State, s': State, es: seq<Entry>)
    requires HistoryOk(s) && Grows(s, s') && SocksOk(s')
    requires s'.waiters == s.waiters && s'.select == s.select && s'.scans == s.scans && s'.resolvers == s.resolvers
    requires s'.log == s.log + es && forall e <- es :: EntryOk(s', e)
    ensures HistoryOk(s')
  {
    hide EntryOk, Grows, SocksOk, WaitingOk, SlotOk, LogOk, EndsOk;
    LogGrows(s, s', es);
    assert s.scans + [] == s.scans && s.resolvers + [] == s.resolvers;
    EndsGrow(s, s', [], []);
    WaitingGrows(s, s');
    SlotGrows(s, s');
  }

  // ------ The phase invariant ----------------------------

  /** What a task in progress has said so far, and what it says next. */
  predicate TaskOk(t: Task, cmd: string, xs: seq<Exchange>) {
    match t
    case First(r) => xs == [] && cmd == FirstCommand(r.kind)
    case FetchScan => xs == [] && cmd == "SCAN_RESULTS"
    case SelectStatus(r) =>
      r.kind.SelectNetwork? && cmd == "STATUS" && |xs| == 1 && xs[0].cmd == FirstCommand(r.kind)
      && Conclude(xs[0], AcceptOk).Ok?
    case GetNetwork(r, rows, found) =>
      r.kind.Networks? && rows != [] && cmd == GetCommand(rows[0].id) && Fetching(rows, found, xs)
  }

  /** The list was received, and the SSIDs of its first rows. */
  predicate Fetching(rows: seq<Row>, found: seq<NetworkResult>, xs: seq<Exchange>) {
    && xs != [] && xs[0].cmd == "LIST_NETWORKS" && Conclude(xs[0], AcceptText).Ok?
    && var all := Rows(Conclude(xs[0], AcceptText).value);
       Fetched(all, xs[1..]) && rows == all[|xs| - 1..] && found == FetchedNetworks(all, xs[1..])
  }

  /** The open loop: each failed try cost a second, and none starts after the deadline was seen. */
  predicate OpenOk(s: State)
    requires s.phase.Opening?
  {
    var p := s.phase;
    && p.started + 1000 * p.loops <= p.nextTry <= s.now + 1000 && p.started <= s.now
    && (if p.expired then p.loops <= 301 else p.loops <= 300)
  }

  predicate PhaseOk(s: State) {
    && (!s.phase.Selecting? && !s.phase.Busy? ==> s.waiters == [] && s.select == None)
    && ((s.phase.Opening? ==> s.phase.first.Some?) && !s.phase.Stopped? ==> s.socks != [])
    && SlotFree(s)
    && (s.phase.Opening? ==> OpenOk(s))
    && (s.phase.Replaying? ==> s.phase.rest != [])
    && (s.phase.Busy? ==>
          && s.phase.from <= |Trace(s)| && TaskOk(s.phase.task, s.phase.cmd, Trace(s)[s.phase.from..])
          && (s.phase.wait.Awaiting? ==> s.phase.wait.since <= s.now))
  }

  predicate Inv(s: State) {
    HistoryOk(s) && PhaseOk(s)
  }

  lemma InitInv(cfg: Config)
    ensures Inv(Init(cfg))
  {
  }

  // ------ Ends of handlers ----------------------------

  lemma StopInv(s: State, result: RunResult)
    requires HistoryOk(s)
    ensures Inv(Stop(s, result))
  {
    hide WaiterOk, PendingOk, EndOk, SockOk;
    var held := PhaseRequests(s.phase) + WaiterRequests(s.waiters) + SelectRequests(s.select);
    var es := Drops(held);
    var s' := Stop(s, result);
    forall e <- es ensures EntryOk(s', e) {
    }
    LogGrows(s, s', es);
    assert s.scans + [] == s.scans && s.resolvers + [] == s.resolvers;
    EndsGrow(s, s', [], []);
  }

  lemma RespondInv(s: State, r: Request, a: Answer, cause: Cause)
    requires HistoryOk(s) && s.socks != [] && EntryOk(s, Answered(r, a, cause))
    ensures Inv(Respond(s, r, a, cause))
  {
    hide EntryOk, HistoryOk, SocksOk;
    var s' := Respond(s, r, a, cause);
    EntryStable(s, s', Answered(r, a, cause));
    SameSocks(s, s');
    QuietHistory(s, s', [Answered(r, a, cause)]);
  }

  lemma SameSocks(s: State, s': State)
    requires HistoryOk(s) && s'.cfg == s.cfg && s'.socks == s.socks
    ensures SocksOk(s')
  {
  }

  lemma {:induction false} ScanAnswersOk(s: State, ws: seq<Waiter>, a: Answer)
    requires forall w <- ws :: WaiterOk(s, w) && w.scans < |s.scans| && s.scans[w.scans].answer == a
    ensures forall e <- ScanAnswers(ws, a) :: EntryOk(s, e)
  {
    hide WaiterOk;
    if ws != [] {
      var (init, w) := (ws[..|ws| - 1], ws[|ws| - 1]);
      assert w in ws && forall v <- init :: v in ws;
      ScanAnswersOk(s, init, a);
    }
  }

  lemma EndScanInv(s: State, end: ScanEnd)
    requires HistoryOk(s) && s.socks != [] && EndOk(s, end)
    ensures Inv(EndScan(s, end))
  {
    hide EntryOk, WaiterOk, PendingOk, EndOk, SockOk, ScanAnswers;
    var s' := EndScan(s, end);
    forall w <- s.waiters
      ensures WaiterOk(s', w) && w.scans < |s'.scans| && s'.scans[w.scans].answer == end.answer
    {
      WaiterStable(s, s', w);
    }
    ScanAnswersOk(s', s.waiters, end.answer);
    LogGrows(s, s', ScanAnswers(s.waiters, end.answer));
    EndStable(s, s', end);
    assert s.resolvers + [] == s.resolvers;
    EndsGrow(s, s', [end], []);
    SlotGrows(s, s');
  }

  /** The first resolving event after registration resolves the select. */
  lemma ResolveInv(s: State, e: Event)
    requires Inv(s) && s.phase.Selecting? && Resolves(e)
    ensures Inv(ResolveSelect(s, e))
  {
    hide WaiterOk, EndOk, SockOk, SelectAccepted, Said;
    var s' := ResolveSelect(s, e);
    EndsGrow(s, s', [], [e]) by {
      assert s.scans + [] == s.scans;
    }
    WaitingGrows(s, s');
    if s.select.Some? {
      var p := s.select.value;
      PendingStable(s, s', p);
      var entry := Answered(p.request, SelectAnswer(Ok(ResultOf(e))), ByEvent(p));
      assert EntryOk(s', entry);
      LogGrows(s, s', [entry]);
    } else {
      assert s.log + [] == s.log;
      LogGrows(s, s', []);
    }
  }

  /** The timer resolves its own select, no earlier than registration plus the timeout. */
  lemma TimerInv(s: State)
    requires Inv(s)
    ensures Inv(StepTimer(s))
  {
    hide WaiterOk, EndOk, SockOk, SelectAccepted, Said, TaskOk;
    var s' := StepTimer(s);
    if s'.log != s.log {
      var p := s.select.value;
      PendingStable(s, s', p);
      var entry := Answered(p.request, SelectAnswer(Err(Timeout)), ByTimer(p, s.now, |s.resolvers|));
      assert EntryOk(s', entry);
      LogGrows(s, s', [entry]);
      EndsGrow(s, s', [], []) by {
        assert s.scans + [] == s.scans && s.resolvers + [] == s.resolvers;
      }
      WaitingGrows(s, s');
    }
  }

  // ------ Handlers go on ----------------------------

  /** Right after exchange `x` of a task ended: what was said from `from` on is `xs` and then `x`. */
  predicate JustSaid(s: State, from: nat, xs: seq<Exchange>, x: Exchange) {
    HistoryOk(s) && s.socks != [] && from <= |Trace(s)| && Trace(s)[from..] == xs + [x]
  }

  lemma HereSaid(s: State, from: nat, xs: seq<Exchange>, x: Exchange)
    requires JustSaid(s, from, xs, x)
    ensures ConvOk(s, Here(s, from)) && Said(s, Here(s, from)) == xs + [x]
  {
    hide HistoryOk;
  }

  lemma DirectInv(s: State, r: Request, from: nat, xs: seq<Exchange>, x: Exchange, a: Answer)
    requires JustSaid(s, from, xs, x) && Concludes(r.kind, xs + [x], a)
    ensures Inv(Respond(s, r, a, Direct(Here(s, from))))
  {
    hide Concludes, HistoryOk, Inv;
    HereSaid(s, from, xs, x);
    RespondInv(s, r, a, Direct(Here(s, from)));
  }

  /** Going on with another exchange of the same task. */
  lemma ContinueInv(s: State, t: Task, from: nat, cmd: string, xs: seq<Exchange>, x: Exchange)
    requires JustSaid(s, from, xs, x) && TaskOk(t, cmd, xs + [x])
    requires t.SelectStatus? ==> s.select.None?
    requires !t.First?
    ensures Inv(ExchangeOf(s, t, from, cmd))
  {
    hide TaskOk, HistoryOk, SocksOk;
    var s' := ExchangeOf(s, t, from, cmd);
    SameSocks(s, s');
    assert s.log + [] == s.log;
    QuietHistory(s, s', []);
  }

  lemma RowsDone(r: Request, found: seq<NetworkResult>, xs: seq<Exchange>)
    requires r.kind.Networks? && Fetching([], found, xs)
    ensures Concludes(r.kind, xs, NetworksAnswer(Ok(found)))
  {
  }

  lemma NextRowInv(s: State, r: Request, from: nat, xs: seq<Exchange>, x: Exchange, rows: seq<Row>,
                   found: seq<NetworkResult>)
    requires JustSaid(s, from, xs, x) && r.kind.Networks? && Fetching(rows, found, xs + [x])
    ensures Inv(NextRow(s, r, from, rows, found))
  {
    hide HistoryOk, Inv, Conclude, Rows, Fetched, FetchedNetworks, Respond, ExchangeOf, Here, GetCommand, JustSaid;
    if rows == [] {
      RowsDone(r, found, xs + [x]);
      DirectInv(s, r, from, xs, x, NetworksAnswer(Ok(found)));
    } else {
      ContinueInv(s, GetNetwork(r, rows, found), from, GetCommand(rows[0].id), xs, x);
    }
  }

  lemma ListReceived(x: Exchange)
    requires x.cmd == "LIST_NETWORKS" && Conclude(x, AcceptText).Ok?
    ensures Fetching(Rows(Conclude(x, AcceptText).value), [], [] + [x])
  {
  }

  lemma RowReceived(rows: seq<Row>, found: seq<NetworkResult>, xs: seq<Exchange>, x: Exchange)
    requires rows != [] && Fetching(rows, found, xs) && x.cmd == GetCommand(rows[0].id) && Conclude(x, AcceptSsid).Ok?
    ensures Fetching(rows[1..], found + Listed(rows[0], Conclude(x, AcceptSsid).value), xs + [x])
  {
    hide Conclude, Rows, Listed, GetCommand;
    var all := Rows(Conclude(xs[0], AcceptText).value);
    var ys := xs[1..] + [x];
    assert (xs + [x])[1..] == ys;
    assert ys[..|ys| - 1] == xs[1..];
    assert all[|xs| - 1] == rows[0];
    assert all[|xs| - 1..][1..] == all[|xs|..];
  }

  lemma RowFailed(r: Request, rows: seq<Row>, found: seq<NetworkResult>, xs: seq<Exchange>, x: Exchange)
    requires r.kind.Networks? && rows != [] && Fetching(rows, found, xs)
    requires x.cmd == GetCommand(rows[0].id) && Conclude(x, AcceptSsid).Err?
    ensures Concludes(r.kind, xs + [x], NetworksAnswer(Err(Conclude(x, AcceptSsid).error)))
  {
    hide Conclude, Rows, GetCommand, FetchedNetworks;
    var all := Rows(Conclude(xs[0], AcceptText).value);
    var ys := xs[1..] + [x];
    assert (xs + [x])[1..] == ys;
    assert ys[..|ys| - 1] == xs[1..];
    assert all[|ys| - 1] == rows[0];
  }

  lemma AcceptedInv(s: State, r: Request, from: nat, x: Exchange)
    requires JustSaid(s, from, [], x) && r.kind.Scan? && x.cmd == "SCAN" && Conclude(x, AcceptScan).Ok?
    ensures Inv(s.(phase := Selecting, waiters := s.waiters + [Waiter(r, Here(s, from), |s.scans|)]))
  {
    hide Conclude, SockOk, EndOk, PendingOk, EntryOk;
    var w := Waiter(r, Here(s, from), |s.scans|);
    var s' := s.(phase := Selecting, waiters := s.waiters + [w]);
    HereSaid(s, from, [], x);
    assert [] + [x] == [x];
    assert WaiterOk(s, w);
    forall v <- s'.waiters ensures WaiterOk(s', v) {
      if v in s.waiters {
        WaiterStable(s, s', v);
      } else {
        WaiterStable(s, s', w);
      }
    }
    assert s.log + [] == s.log && s.scans + [] == s.scans && s.resolvers + [] == s.resolvers;
    LogGrows(s, s', []);
    EndsGrow(s, s', [], []);
    SlotGrows(s, s');
  }

  lemma AfterFirstInv(s: State, r: Request, from: nat, x: Exchange)
    requires JustSaid(s, from, [], x) && x.cmd == FirstCommand(r.kind)
    requires r.kind.SelectNetwork? ==> s.select.None?
    ensures Inv(AfterFirst(s, r, from, x))
  {
    hide HistoryOk, Inv, Conclude, Rows, SimpleAnswer, Respond, NextRow, ExchangeOf, Here, JustSaid;
    hide Fetching, FetchedNetworks;
    var xs := [] + [x];
    assert xs == [x];
    match r.kind
    case Scan => {
      match Conclude(x, AcceptScan)
      case Ok(_) => AcceptedInv(s, r, from, x);
      case Err(e) => DirectInv(s, r, from, [], x, ScanAnswer(Err(e)));
    }
    case Networks => {
      match Conclude(x, AcceptText)
      case Ok(text) =>
        ListReceived(x);
        NextRowInv(s, r, from, [], x, Rows(text), []);
      case Err(e) => DirectInv(s, r, from, [], x, NetworksAnswer(Err(e)));
    }
    case SelectNetwork(id) => {
      match Conclude(x, AcceptOk)
      case Ok(_) => ContinueInv(s, SelectStatus(r), from, "STATUS", [], x);
      case Err(e) => DirectInv(s, r, from, [], x, SelectAnswer(Err(e)));
    }
    case _ => DirectInv(s, r, from, [], x, SimpleAnswer(r.kind, x));
  }

  lemma AfterRowInv(s: State, t: Task, from: nat, xs: seq<Exchange>, x: Exchange)
    requires t.GetNetwork? && JustSaid(s, from, xs, x) && TaskOk(t, x.cmd, xs)
    ensures Inv(AfterRow(s, t, from, x))
  {
    hide HistoryOk, Inv, Conclude, Rows, Listed, Respond, NextRow, Here, JustSaid, Fetching, Concludes, GetCommand;
    match Conclude(x, AcceptSsid)
    case Ok(ssid) =>
      RowReceived(t.rows, t.found, xs, x);
      NextRowInv(s, t.request, from, xs, x, t.rows[1..], t.found + Listed(t.rows[0], ssid));
    case Err(e) =>
      RowFailed(t.request, t.rows, t.found, xs, x);
      DirectInv(s, t.request, from, xs, x, NetworksAnswer(Err(e)));
  }

  lemma RegisterInv(s: State, r: Request, from: nat, xs: seq<Exchange>, x: Exchange)
    requires JustSaid(s, from, xs, x) && r.kind.SelectNetwork? && SelectAccepted(r.kind.id, xs + [x])
    ensures Inv(s.(phase := Selecting, select := Some(Pending(r, Here(s, from), |s.resolvers|, s.now))))
  {
    hide SelectAccepted, SockOk, EndOk, WaiterOk, EntryOk;
    var p := Pending(r, Here(s, from), |s.resolvers|, s.now);
    var s' := s.(phase := Selecting, select := Some(p));
    HereSaid(s, from, xs, x);
    assert PendingOk(s, p);
    PendingStable(s, s', p);
    assert s.log + [] == s.log && s.scans + [] == s.scans && s.resolvers + [] == s.resolvers;
    LogGrows(s, s', []);
    EndsGrow(s, s', [], []);
    WaitingGrows(s, s');
  }

  lemma AfterStatusInv(s: State, r: Request, from: nat, xs: seq<Exchange>, x: Exchange)
    requires JustSaid(s, from, xs, x) && TaskOk(SelectStatus(r), x.cmd, xs)
    ensures Inv(AfterStatus(s, r, from, x))
  {
    hide HistoryOk, Inv, Conclude, Respond, Here, JustSaid;
    match Conclude(x, AcceptStatus)
    case Err(e) => DirectInv(s, r, from, xs, x, SelectAnswer(Err(e)));
    case Ok(st) =>
      if st.id == Some(r.kind.id) {
        DirectInv(s, r, from, xs, x, SelectAnswer(Ok(AlreadyConnected)));
      } else {
        RegisterInv(s, r, from, xs, x);
      }
  }

  lemma FetchedInv(s: State, from: nat, x: Exchange)
    requires JustSaid(s, from, [], x) && x.cmd == "SCAN_RESULTS"
    ensures Inv(EndScan(s, ScanEnd(ScanComplete, Some(Here(s, from)), ScanAnswer(Conclude(x, AcceptTable)))))
  {
    hide Inv, HistoryOk, Conclude;
    HereSaid(s, from, [], x);
    assert [] + [x] == [x];
    EndScanInv(s, ScanEnd(ScanComplete, Some(Here(s, from)), ScanAnswer(Conclude(x, AcceptTable))));
  }

  /** How an exchange of the current task may end. */
  predicate Ends(s: State, outcome: Outcome)
    requires s.phase.Busy? && s.socks != []
  {
    var k := s.socks[|s.socks| - 1];
    match outcome
    case Replied(i, b) => i == k.read < |k.replies| && b == k.replies[i]
    case TimedOut(sent, ended) => sent + s.cfg.commandTimeout <= ended
    case Short(w) => w != |Utf8.Encode(s.phase.cmd)|
  }

  lemma PushHistory(s: State, k': Sock)
    requires HistoryOk(s) && s.socks != []
    requires SockOk(s.cfg, k') && s.socks[|s.socks| - 1].trace <= k'.trace
    ensures HistoryOk(SetSock(s, k'))
  {
    hide SockOk, WaitingOk, SlotOk, LogOk, EndsOk;
    var s' := SetSock(s, k');
    assert forall k <- s'.socks :: k in s.socks || k == k';
    assert s.log + [] == s.log;
    QuietHistory(s, s', []);
  }

  lemma PushedSaid(s: State, outcome: Outcome)
    requires Inv(s) && s.phase.Busy? && s.socks != [] && Ends(s, outcome)
    ensures JustSaid(Pushed(s, outcome), s.phase.from, Trace(s)[s.phase.from..], Exchange(s.phase.cmd, outcome))
  {
    hide HistoryOk, TaskOk, SockOk;
    var k := s.socks[|s.socks| - 1];
    var x := Exchange(s.phase.cmd, outcome);
    var k' := k.(trace := k.trace + [x], read := if outcome.Replied? then k.read + 1 else k.read);
    LastSockOk(s);
    PushOk(s.cfg, k, x);
    PushHistory(s, k');
    assert (k.trace + [x])[s.phase.from..] == k.trace[s.phase.from..] + [x];
  }

  lemma TaskStart(s: State)
    requires Inv(s) && s.phase.Busy?
    ensures var (t, cmd, xs) := (s.phase.task, s.phase.cmd, Trace(s)[s.phase.from..]);
            && TaskOk(t, cmd, xs)
            && (t.First? ==> xs == [] && cmd == FirstCommand(t.request.kind))
            && (t.FetchScan? ==> xs == [] && cmd == "SCAN_RESULTS")
            && (t.SelectStatus? || (t.First? && t.request.kind.SelectNetwork?) ==> s.select.None?)
  {
    hide HistoryOk, Conclude, Fetching;
  }

  lemma ConclusionInv(s: State, outcome: Outcome)
    requires Inv(s) && s.phase.Busy? && s.socks != [] && Ends(s, outcome)
    ensures Inv(Conclusion(s, outcome))
  {
    var (t, from, xs, x) := (s.phase.task, s.phase.from, Trace(s)[s.phase.from..], Exchange(s.phase.cmd, outcome));
    var s' := Pushed(s, outcome);
    PushedSaid(s, outcome);
    TaskStart(s);
    assert s'.select == s.select;
    hide Inv, JustSaid, TaskOk, Pushed, AfterFirst, AfterRow, AfterStatus, EndScan, Here, Conclude;
    match t
    case First(r) => AfterFirstInv(s', r, from, x);
    case GetNetwork(_, _, _) => AfterRowInv(s', t, from, xs, x);
    case SelectStatus(r) => AfterStatusInv(s', r, from, xs, x);
    case FetchScan => FetchedInv(s', from, x);
  }

  lemma LastSockOk(s: State)
    requires HistoryOk(s) && s.socks != []
    ensures SockOk(s.cfg, s.socks[|s.socks| - 1])
  {
  }

  // ------ Every step ----------------------------

  /** Steps that touch neither sockets nor records. */
  lemma QuietInv(s: State, s': State)
    requires HistoryOk(s) && PhaseOk(s')
    requires s'.cfg == s.cfg && s.now <= s'.now && s'.socks == s.socks && s'.log == s.log
    requires s'.waiters == s.waiters && s'.select == s.select && s'.scans == s.scans && s'.resolvers == s.resolvers
    ensures Inv(s')
  {
    hide HistoryOk, PhaseOk, SocksOk;
    SameSocks(s, s');
    assert s.log + [] == s.log;
    QuietHistory(s, s', []);
  }

  lemma ExchangeInv(s: State, i: Input)
    requires Inv(s) && s.phase.Busy? && s.socks != []
    ensures Inv(StepExchange(s, i))
  {
    hide HistoryOk, TaskOk, Conclusion, Stop;
    var k := s.socks[|s.socks| - 1];
    match i
    case SendDone =>
      if s.phase.wait.Sending? {
        QuietInv(s, s.(phase := s.phase.(wait := Awaiting(s.now))));
      }
    case SendShort(n) =>
      if n != |Utf8.Encode(s.phase.cmd)| {
        ConclusionInv(s, Short(n));
      }
    case SendFails => StopInv(s, IoError);
    case ReadReply =>
      if k.read < |k.replies| {
        ConclusionInv(s, Replied(k.read, k.replies[k.read]));
      }
    case CommandTimeout =>
      if s.phase.wait.Awaiting? && s.now >= s.phase.wait.since + s.cfg.commandTimeout {
        ConclusionInv(s, TimedOut(s.phase.wait.since, s.now));
      }
    case RecvFails => StopInv(s, IoError);
    case _ =>
  }

  lemma BeginInv(s: State, r: Request)
    requires Inv(s) && s.phase.Selecting?
    ensures Inv(Begin(s, r))
  {
    hide HistoryOk, Respond, FirstCommand;
    if r.kind.SelectNetwork? && s.select.Some? {
      SlotEntry(s, r);
      RespondInv(s, r, SelectAnswer(Err(PendingSelect)), Refused(s.select.value));
    } else {
      assert Trace(s)[|Trace(s)|..] == [];
      QuietInv(s, Begin(s, r));
    }
  }

  lemma SlotEntry(s: State, r: Request)
    requires Inv(s) && s.select.Some? && r.kind.SelectNetwork?
    ensures EntryOk(s, Answered(r, SelectAnswer(Err(PendingSelect)), Refused(s.select.value)))
  {
  }

  lemma TakeInv(s: State)
    requires Inv(s) && s.queue != []
    ensures Inv(StepTake(s))
  {
    hide HistoryOk, TaskOk, Begin, Stop;
    var (m, s') := (s.queue[0], s.(queue := s.queue[1..]));
    QuietInv(s, s');
    if s.phase.Opening? || s.phase.Selecting? {
      if m.Shutdown? {
        StopInv(s', if s.phase.Opening? then StartupAborted else Finished);
      } else if s.phase.Selecting? {
        BeginInv(s', m.request);
      } else {
        QuietInv(s, StepTake(s));
      }
    }
  }

  lemma EventInv(s: State, e: Event)
    requires Inv(s) && s.phase.Selecting?
    ensures Inv(HandleEvent(s, e))
  {
    hide HistoryOk, EndScan, ResolveSelect;
    match e
    case ScanComplete =>
      assert Trace(s)[|Trace(s)|..] == [];
      QuietInv(s, HandleEvent(s, e));
    case ScanFailed => EndScanInv(s, ScanEnd(ScanFailed, None, ScanAnswer(Err(Failed))));
    case Connected => ResolveInv(s, e);
    case NetworkNotFound => ResolveInv(s, e);
    case WrongPsk => ResolveInv(s, e);
    case _ =>
  }

  lemma NewSockInv(s: State)
    requires HistoryOk(s)
    ensures HistoryOk(s.(socks := s.socks + [Sock([], [], 0)]))
  {
    hide WaitingOk, SlotOk, LogOk, EndsOk, SockOk;
    var k := Sock([], [], 0);
    var s' := s.(socks := s.socks + [k]);
    assert SockOk(s.cfg, k) by {
      EmptySockOk(s.cfg);
    }
    assert forall j <- s'.socks :: j in s.socks || j == k;
    assert s.log + [] == s.log;
    QuietHistory(s, s', []);
  }

  lemma EmptySockOk(cfg: Config)
    ensures SockOk(cfg, Sock([], [], 0))
  {
  }

  lemma ConnectedInv(s: State, bound: bool)
    requires Inv(s) && CanTry(s)
    ensures Inv(StepConnected(s, bound))
  {
    hide HistoryOk, Stop;
    if s.phase.first.Some? {
      QuietInv(s, StepConnected(s, bound));
    } else if bound {
      NewSockInv(s);
      QuietInv(s.(socks := s.socks + [Sock([], [], 0)]), StepConnected(s, bound));
    } else {
      StopInv(s, IoError);
    }
  }

  lemma StartupInv(s: State, i: Input)
    requires StartsUp(i)
    requires Inv(s)
    ensures Inv(Step(s, i))
  {
    hide HistoryOk, Stop, StepConnected, TaskOk;
    StopInv(s, IoError);
    StopInv(s, PermissionDenied);
    StopInv(s, TimeoutOpening);
    match i
    case CallRun(bound) =>
      if s.phase.Stopped? && bound {
        QuietInv(s, BeginOpen(s, None));
      }
    case ConnectOk(bound) =>
      if CanTry(s) {
        ConnectedInv(s, bound);
      }
    case ConnectFails =>
      if CanTry(s) {
        QuietInv(s, StepConnectFails(s));
      }
    case AttachSent =>
      if s.phase.Attaching? {
        QuietInv(s, Step(s, i));
      }
    case _ =>
  }

  lemma ReplyInv(s: State, b: seq<byte>)
    requires Inv(s)
    ensures Inv(Step(s, PeerReply(b)))
  {
    hide HistoryOk, TaskOk;
    if HasSock(s) {
      var k := s.socks[|s.socks| - 1];
      LastSockOk(s);
      MoreReplies(s.cfg, k, b);
      PushHistory(s, k.(replies := k.replies + [b]));
    }
  }

  lemma ClientInv(s: State, m: Message, kinds: seq<Kind>)
    requires Inv(s)
    ensures Inv(StepClient(s, m, kinds))
  {
    hide HistoryOk, TaskOk;
    QuietInv(s, StepClient(s, m, kinds));
  }

  lemma StepInv(s: State, i: Input)
    requires Inv(s)
    ensures Inv(Step(s, i))
  {
    hide HistoryOk, TaskOk, StepTake, StepExchange, StepTimer, StepClient, HandleEvent, Stop, BeginOpen,
      StepConnected, StepConnectFails;
    match i
    case ClientSend(kind) => ClientInv(s, Ask(Request(|s.issued|, kind)), [kind]);
    case ClientShutdown => ClientInv(s, Shutdown, []);
    case Tick(_) => QuietInv(s, Step(s, i));
    case PeerReply(b) => ReplyInv(s, b);
    case ReplayOne =>
      if s.phase.Replaying? && s.phase.rest != [] {
        QuietInv(s, StepReplay(s));
      }
    case TakeMessage =>
      if s.queue != [] {
        TakeInv(s);
      }
    case TakeEvent(e) =>
      if s.phase.Selecting? {
        EventInv(s, e);
      }
    case EventFails => StopInv(s, IoError);
    case SelectTimer => TimerInv(s);
    case CallRun(_) => StartupInv(s, i);
    case ConnectOk(_) => StartupInv(s, i);
    case ConnectFails => StartupInv(s, i);
    case ConnectDenied => StartupInv(s, i);
    case OpenDeadline => StartupInv(s, i);
    case AttachSent => StartupInv(s, i);
    case AttachFails => StartupInv(s, i);
    case _ =>
      if s.phase.Busy? && s.socks != [] {
        ExchangeInv(s, i);
      }
  }

  // ------ The bounded channel ----------------------------

  /** The channel holds no more than its capacity. */
  predicate Bounded(s: State) {
    |s.queue| <= s.cfg.capacity
  }

  lemma ResumeQueue(s: State, t: Task, from: nat, x: Exchange)
    ensures var s' := Resume(s, t, from, x); s'.queue == s.queue && s'.cfg == s.cfg
  {
    hide Conclude, Rows, SimpleAnswer, Here, ScanAnswers, GetCommand, Listed;
  }

  lemma ExchangeQueue(s: State, i: Input)
    requires s.phase.Busy? && s.socks != []
    ensures var s' := StepExchange(s, i); s'.queue == s.queue && s'.cfg == s.cfg
  {
    hide Resume;
    forall outcome: Outcome
      ensures var s' := Conclusion(s, outcome); s'.queue == s.queue && s'.cfg == s.cfg
    {
      ResumeQueue(Pushed(s, outcome), s.phase.task, s.phase.from, Exchange(s.phase.cmd, outcome));
    }
    hide Conclusion;
  }

  lemma StepBounded(s: State, i: Input)
    requires Bounded(s)
    ensures Bounded(Step(s, i)) && Step(s, i).cfg == s.cfg
  {
    hide StepExchange, ScanAnswers, Drops, FirstCommand, Trace;
    if s.phase.Busy? && s.socks != [] {
      ExchangeQueue(s, i);
    }
  }

  /** Every run keeps the invariant, conserves requests, and never overfills the channel. */
  lemma {:induction false} RunInv(cfg: Config, inputs: seq<Input>)
    ensures var s := Exec(Init(cfg), inputs);
      Inv(s) && Conserved(s) && Bounded(s) && s.cfg == cfg
  {
    hide Inv, Conserved, Step, Bounded;
    if inputs == [] {
      InitInv(cfg);
      InitConserved(cfg);
      InitBounded(cfg);
    } else {
      var s := Exec(Init(cfg), inputs[..|inputs| - 1]);
      RunInv(cfg, inputs[..|inputs| - 1]);
      StepInv(s, inputs[|inputs| - 1]);
      assert SlotFree(s) by {
        InvSlotFree(s);
      }
      StepConserves(s, inputs[|inputs| - 1]);
      StepBounded(s, inputs[|inputs| - 1]);
    }
  }

  lemma InitBounded(cfg: Config)
    ensures Bounded(Init(cfg))
  {
  }

  lemma InvSlotFree(s: State)
    requires Inv(s)
    ensures SlotFree(s)
  {
    hide HistoryOk, TaskOk;
  }

  lemma InitConserved(cfg: Config)
    ensures Conserved(Init(cfg))
  {
  }
}
