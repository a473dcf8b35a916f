/** Which reply an exchange reads: with an orderly peer and no exchange given up, its own. */
module Alignment {
  import opened Wrappers
  import opened Text
  import opened Exchanges
  import opened Station
  import opened Conservation
  import opened Invariant

  /** A peer: what it answers to datagram number `n` of a socket, given its text. */
  type Peer = (nat, nat, string) -> seq<byte>

  /** The command whose datagram is out and not yet concluded. */
  function InFlight(s: State): Option<string> {
    if s.phase.Busy? && s.phase.wait.Awaiting? then Some(s.phase.cmd) else None
  }

  function LastSock(s: State): Sock
    requires s.socks != []
  {
    s.socks[|s.socks| - 1]
  }

  /** The peer answers each datagram at most once, in order, after it was sent. */
  predicate InOrder(f: Peer, s: State, i: Input) {
    i.PeerReply? && HasSock(s) ==>
      var (k, n) := (LastSock(s), |LastSock(s).replies|);
      if n < |k.trace| then i.bytes == f(|s.socks| - 1, n, k.trace[n].cmd)
      else n == |k.trace| && InFlight(s).Some? && i.bytes == f(|s.socks| - 1, n, InFlight(s).value)
  }

  predicate Orderly(f: Peer, cfg: Config, inputs: seq<Input>) {
    forall n | 0 <= n < |inputs| :: InOrder(f, Exec(Init(cfg), inputs[..n]), inputs[n])
  }

  /** Reply `n` of socket `j` is the peer's answer to datagram `n`. */
  predicate RepliesOf(f: Peer, k: Sock, j: nat) {
    forall n | 0 <= n < |k.replies| && n < |k.trace| :: k.replies[n] == f(j, n, k.trace[n].cmd)
  }

  /** The last socket has no reply ahead of its datagrams. */
  predicate NotAhead(f: Peer, k: Sock, j: nat, flight: Option<string>) {
    match flight
    case None => |k.replies| <= |k.trace|
    case Some(cmd) =>
      |k.replies| <= |k.trace| + 1 && (|k.replies| == |k.trace| + 1 ==> k.replies[|k.trace|] == f(j, |k.trace|, cmd))
  }

  predicate PeerOk(f: Peer, s: State) {
    && (forall j | 0 <= j < |s.socks| :: RepliesOf(f, s.socks[j], j))
    && (HasSock(s) ==> NotAhead(f, LastSock(s), |s.socks| - 1, InFlight(s)))
  }

  // ------ Steps ----------------------------

  /** No new datagram, no new reply. */
  predicate SockQuiet(s: State, s': State) {
    s'.socks == s.socks && (HasSock(s') ==> HasSock(s) && InFlight(s') == InFlight(s))
  }

  lemma TakeQuiet(s: State)
    requires s.queue != []
    ensures SockQuiet(s, StepTake(s))
  {
    hide FirstCommand, Drops;
  }

  lemma EventQuiet(s: State, e: Event)
    requires s.phase.Selecting?
    ensures SockQuiet(s, HandleEvent(s, e))
  {
  }

  lemma ResumeSocks(s: State, t: Task, from: nat, x: Exchange)
    requires t.GetNetwork? ==> t.rows != []
    ensures Resume(s, t, from, x).socks == s.socks && InFlight(Resume(s, t, from, x)) == None
    ensures !Resume(s, t, from, x).phase.Opening? && !Resume(s, t, from, x).phase.Stopped?
  {
  }

  /** A concluded datagram becomes part of the trace. */
  lemma PushedPeer(f: Peer, k: Sock, k': Sock, x: Exchange, j: nat, flight: Option<string>)
    requires RepliesOf(f, k, j) && NotAhead(f, k, j, flight) && (flight.Some? ==> x.cmd == flight.value)
    requires k'.trace == k.trace + [x] && k'.replies == k.replies
    ensures RepliesOf(f, k', j) && NotAhead(f, k', j, None)
  {
  }

  lemma ConclusionSocks(s: State, outcome: Outcome)
    requires Inv(s) && s.phase.Busy? && s.socks != []
    ensures var s' := Conclusion(s, outcome);
            InFlight(s') == None && |s'.socks| == |s.socks|
            && (forall j | 0 <= j < |s.socks| - 1 :: s'.socks[j] == s.socks[j])
            && LastSock(s').trace == LastSock(s).trace + [Exchange(s.phase.cmd, outcome)]
            && LastSock(s').replies == LastSock(s).replies
  {
    TaskStart(s);
    hide Resume, Inv;
    RowsThere(s.phase.task, s.phase.cmd, Trace(s)[s.phase.from..]);
    ResumeSocks(Pushed(s, outcome), s.phase.task, s.phase.from, Exchange(s.phase.cmd, outcome));
  }

  lemma ConclusionPeer(f: Peer, s: State, outcome: Outcome)
    requires PeerOk(f, s) && Inv(s) && s.phase.Busy? && s.socks != []
    ensures PeerOk(f, Conclusion(s, outcome))
  {
    hide Conclusion, Inv, RepliesOf, NotAhead;
    ConclusionSocks(s, outcome);
    var k' := LastSock(Conclusion(s, outcome));
    PushedPeer(f, LastSock(s), k', Exchange(s.phase.cmd, outcome), |s.socks| - 1, InFlight(s));
  }

  lemma RowsThere(t: Task, cmd: string, xs: seq<Exchange>)
    requires TaskOk(t, cmd, xs)
    ensures t.GetNetwork? ==> t.rows != []
  {
    hide Fetching, Conclude;
  }

  lemma ExchangePeer(f: Peer, s: State, i: Input)
    requires PeerOk(f, s) && Inv(s) && s.phase.Busy? && s.socks != []
    ensures PeerOk(f, StepExchange(s, i))
  {
    hide Conclusion, Inv;
    var k := LastSock(s);
    match i
    case SendShort(n) => ConclusionPeer(f, s, Short(n));
    case ReadReply =>
      if k.read < |k.replies| && s.phase.wait.Awaiting? {
        ConclusionPeer(f, s, Replied(k.read, k.replies[k.read]));
      }
    case CommandTimeout =>
      if s.phase.wait.Awaiting? {
        ConclusionPeer(f, s, TimedOut(s.phase.wait.since, s.now));
      }
    case _ =>
  }

  lemma ReplyPeer(f: Peer, s: State, b: seq<byte>)
    requires PeerOk(f, s) && InOrder(f, s, PeerReply(b))
    ensures PeerOk(f, Step(s, PeerReply(b)))
  {
    if HasSock(s) {
      var j := |s.socks| - 1;
      var k' := LastSock(Step(s, PeerReply(b)));
      assert RepliesOf(f, LastSock(s), j);
      assert RepliesOf(f, k', j);
    }
  }

  lemma StartupPeer(f: Peer, s: State, i: Input)
    requires StartsUp(i)
    requires PeerOk(f, s)
    ensures PeerOk(f, Step(s, i))
  {
    hide Drops, RepliesOf, NotAhead;
    NewSock(f, |s.socks|);
  }

  lemma NewSock(f: Peer, j: nat)
    ensures RepliesOf(f, Sock([], [], 0), j) && NotAhead(f, Sock([], [], 0), j, None)
  {
  }

  lemma StepPeer(f: Peer, s: State, i: Input)
    requires PeerOk(f, s) && Inv(s) && InOrder(f, s, i)
    ensures PeerOk(f, Step(s, i))
  {
    hide Inv, RepliesOf, NotAhead, StepTake, StepExchange, HandleEvent, Drops;
    match i
    case PeerReply(b) => ReplyPeer(f, s, b);
    case TakeMessage =>
      if s.queue != [] {
        TakeQuiet(s);
      }
    case TakeEvent(e) =>
      if s.phase.Selecting? {
        EventQuiet(s, e);
      }
    case CallRun(_) => StartupPeer(f, s, i);
    case ConnectOk(_) => StartupPeer(f, s, i);
    case ConnectFails => StartupPeer(f, s, i);
    case ConnectDenied => StartupPeer(f, s, i);
    case OpenDeadline => StartupPeer(f, s, i);
    case AttachSent => StartupPeer(f, s, i);
    case AttachFails => StartupPeer(f, s, i);
    case ClientSend(_) =>
    case ClientShutdown =>
    case Tick(_) =>
    case ReplayOne =>
    case EventFails =>
    case SelectTimer =>
    case _ =>
      if s.phase.Busy? && s.socks != [] {
        ExchangePeer(f, s, i);
      }
  }

  lemma {:induction false} RunPeer(f: Peer, cfg: Config, inputs: seq<Input>)
    requires Orderly(f, cfg, inputs)
    ensures PeerOk(f, Exec(Init(cfg), inputs))
  {
    hide Inv, Step, InOrder;
    if inputs != [] {
      var n := |inputs| - 1;
      var s := Exec(Init(cfg), inputs[..n]);
      forall m | 0 <= m < n ensures InOrder(f, Exec(Init(cfg), inputs[..n][..m]), inputs[..n][m]) {
        assert inputs[..n][..m] == inputs[..m];
      }
      RunPeer(f, cfg, inputs[..n]);
      RunInv(cfg, inputs[..n]);
      assert InOrder(f, s, inputs[n]);
      StepPeer(f, s, inputs[n]);
    }
  }

  // ------ The theorems ----------------------------

  /** With an orderly peer, an exchange that reads at all reads the answer to the datagram as many places
      before its own as exchanges before it on the socket were given up: its own reply just when there were none. */
  lemma ReplyAlignment(f: Peer, cfg: Config, inputs: seq<Input>, j: nat, n: nat)
    requires Orderly(f, cfg, inputs)
    requires var s := Exec(Init(cfg), inputs);
      j < |s.socks| && n < |s.socks[j].trace| && s.socks[j].trace[n].outcome.Replied?
    ensures var trace := Exec(Init(cfg), inputs).socks[j].trace;
            var m := n - Skips(trace[..n]);
            && m >= 0 && trace[n].outcome == Replied(m, f(j, m, trace[m].cmd))
            && (trace[n].outcome.index == n <==> Skips(trace[..n]) == 0)
  {
    hide Exec;
    var s := Exec(Init(cfg), inputs);
    RunInv(cfg, inputs);
    RunPeer(f, cfg, inputs);
    SockInvOf(s, j);
    var k := s.socks[j];
    assert ExchangeOk(cfg, k, n);
    assert RepliesOf(f, k, j);
  }

  lemma SockInvOf(s: State, j: nat)
    requires Inv(s) && j < |s.socks|
    ensures SockOk(s.cfg, s.socks[j])
  {
    hide SockOk, PhaseOk, WaitingOk, SlotOk, LogOk, EndsOk;
    assert s.socks[j] in s.socks;
  }

  lemma {:induction false} NoSkips(xs: seq<Exchange>, n: nat)
    requires n < |xs| && Skips(xs) == 0
    ensures xs[n].outcome.Replied? && Skips(xs[..n]) == 0
  {
    if n < |xs| - 1 {
      NoSkips(xs[..|xs| - 1], n);
      assert xs[..|xs| - 1][..n] == xs[..n];
    }
  }

  /** When nothing on the socket was given up so far, every exchange of a conversation got its own answer. */
  lemma OwnReplies(f: Peer, cfg: Config, inputs: seq<Input>, c: Conv)
    requires Orderly(f, cfg, inputs)
    requires ConvOk(Exec(Init(cfg), inputs), c)
    requires Skips(Exec(Init(cfg), inputs).socks[c.sock].trace[..c.to]) == 0
    ensures var xs := Said(Exec(Init(cfg), inputs), c);
            forall m | 0 <= m < |xs| :: xs[m].outcome == Replied(c.from + m, f(c.sock, c.from + m, xs[m].cmd))
  {
    hide Exec;
    var s := Exec(Init(cfg), inputs);
    var front := s.socks[c.sock].trace[..c.to];
    var xs := Said(s, c);
    forall m | 0 <= m < |xs| ensures xs[m].outcome == Replied(c.from + m, f(c.sock, c.from + m, xs[m].cmd)) {
      var n := c.from + m;
      NoSkips(front, n);
      assert front[..n] == s.socks[c.sock].trace[..n];
      ReplyAlignment(f, cfg, inputs, c.sock, n);
    }
  }

  /** The exchanges that an answer is made from. */
  function Source(s: State, e: Entry): Option<Conv>
  {
    match e
    case Answered(_, _, Direct(c)) => Some(c)
    case Answered(_, _, ByScan(w)) => if w.scans < |s.scans| then s.scans[w.scans].conv else None
    case _ => None
  }

  /** Every answer made from replies is made from the peer's answers to that request's own commands. */
  lemma AnswersFromOwnReplies(f: Peer, cfg: Config, inputs: seq<Input>, e: Entry)
    requires Orderly(f, cfg, inputs) && e in Exec(Init(cfg), inputs).log
    ensures var s := Exec(Init(cfg), inputs);
            match Source(s, e)
            case None => true
            case Some(c) =>
              && ConvOk(s, c)
              && (e.cause.Direct? ==> Concludes(e.request.kind, Said(s, c), e.answer))
              && (e.cause.ByScan? ==>
                    (|Said(s, c)| == 1 && Said(s, c)[0].cmd == "SCAN_RESULTS"
                     && e.answer == ScanAnswer(Conclude(Said(s, c)[0], AcceptTable))))
              && (Skips(s.socks[c.sock].trace[..c.to]) == 0 ==>
                    forall m | 0 <= m < |Said(s, c)| ::
                      Said(s, c)[m].outcome == Replied(c.from + m, f(c.sock, c.from + m, Said(s, c)[m].cmd)))
  {
    hide Exec, Concludes, Conclude;
    var s := Exec(Init(cfg), inputs);
    RunInv(cfg, inputs);
    LogEntryOk(s, e);
    match Source(s, e)
    case None =>
    case Some(c) =>
      if e.cause.ByScan? {
        EndEntryOk(s, s.scans[e.cause.waiter.scans]);
      }
      if Skips(s.socks[c.sock].trace[..c.to]) == 0 {
        OwnReplies(f, cfg, inputs, c);
      }
  }

  lemma LogEntryOk(s: State, e: Entry)
    requires Inv(s) && e in s.log
    ensures EntryOk(s, e)
  {
    hide EntryOk, SocksOk, PhaseOk, WaitingOk, SlotOk, EndsOk;
  }

  lemma EndEntryOk(s: State, e: ScanEnd)
    requires Inv(s) && e in s.scans
    ensures EndOk(s, e)
  {
    hide EndOk, SocksOk, PhaseOk, WaitingOk, SlotOk, LogOk;
  }
}
