/** The runner in the shape of its source: `run`, `open`, `run_internal` and the handlers as methods that update
    the station's fields, with loops where the source loops. The scheduler and the environment are one stream of
    inputs, given beforehand; an await point skips over what does not wake it. Whatever the stream, the fields end
    up as the step machine says, so every theorem about the machine's runs holds of this code. */
module Runner {
  import opened Wrappers
  import opened Text
  import opened Exchanges
  import opened Station
  import opened Conservation
  import opened Invariant
  import opened Alignment
  import Deferral
  import Utf8

  /** How a part of the runner ends: the stream of inputs is used up inside it, `run` is about to return,
      or it is done. */
  datatype Flow<+T> = Suspended | Failing(result: RunResult) | Done(value: T)

  // ------ Await points ----------------------------

  /** The inputs that wake the runner where it is. */
  predicate Wakes(s: State, i: Input) {
    match s.phase
    case Stopped(_) => i.CallRun?
    case Opening(_, _, started, _, _, _) =>
      || ((i.ConnectOk? || i.ConnectFails? || i.ConnectDenied?) && CanTry(s))
      || (i.OpenDeadline? && s.now >= started + OPEN_LIMIT)
      || (i.TakeMessage? && s.queue != [])
    case Attaching(_) => i.AttachSent? || i.AttachFails?
    case Replaying(rest) => i.ReplayOne? && |s.queue| < s.cfg.capacity && rest != []
    case Selecting =>
      || (i.TakeMessage? && s.queue != []) || i.TakeEvent? || i.EventFails?
      || (i.SelectTimer? && s.select.Some? && s.now >= s.select.value.since + s.cfg.selectTimeout)
    case Busy(_, _, cmd, Sending) =>
      s.socks != [] && (i.SendDone? || (i.SendShort? && i.written != |Utf8.Encode(cmd)|) || i.SendFails?)
    case Busy(_, _, _, Awaiting(since)) =>
      s.socks != [] && ((i.ReadReply? && LastSock(s).read < |LastSock(s).replies|)
                        || (i.CommandTimeout? && s.now >= since + s.cfg.commandTimeout) || i.RecvFails?)
  }

  /** What happens around the runner while it sleeps. */
  function Around(s: State, i: Input): State {
    match i
    case ClientSend(kind) => StepClient(s, Ask(Request(|s.issued|, kind)), [kind])
    case ClientShutdown => StepClient(s, Shutdown, [])
    case Tick(ms) => s.(now := s.now + ms)
    case PeerReply(b) => if HasSock(s) then SetSock(s, LastSock(s).(replies := LastSock(s).replies + [b])) else s
    case _ => s
  }

  lemma Sleeps(s: State, i: Input)
    requires !Wakes(s, i)
    ensures Step(s, i) == Around(s, i)
  {
    hide Conclusion, Stop, HandleEvent, Begin;
  }

  /** A datagram is being sent: what can wake the runner, and what follows. */
  lemma SendingWakes(s: State, i: Input)
    requires s.phase.Busy? && s.phase.wait.Sending? && Wakes(s, i)
    ensures s.socks != [] && (i.SendDone? || i.SendShort? || i.SendFails?)
    ensures i.SendFails? ==> Step(s, i) == Stop(s, IoError)
    ensures i.SendShort? ==> Step(s, i) == Conclusion(s, Short(i.written))
    ensures i.SendDone? ==> Step(s, i) == s.(phase := s.phase.(wait := Awaiting(s.now)))
  {
    hide Conclusion, Stop;
  }

  /** A reply is awaited: what can wake the runner, and what follows. */
  lemma AwaitingWakes(s: State, i: Input)
    requires s.phase.Busy? && s.phase.wait.Awaiting? && Wakes(s, i)
    ensures s.socks != [] && (i.ReadReply? || i.CommandTimeout? || i.RecvFails?)
    ensures i.RecvFails? ==> Step(s, i) == Stop(s, IoError)
    ensures i.CommandTimeout? ==> Step(s, i) == Conclusion(s, TimedOut(s.phase.wait.since, s.now))
    ensures i.ReadReply? ==>
      var k := LastSock(s); k.read < |k.replies| && Step(s, i) == Conclusion(s, Replied(k.read, k.replies[k.read]))
  {
    hide Conclusion, Stop;
  }

  /** The loop selects: what can wake the runner, and what follows. */
  lemma SelectingWakes(s: State, i: Input)
    requires s.phase.Selecting? && Wakes(s, i)
    ensures i.TakeMessage? || i.TakeEvent? || i.EventFails? || i.SelectTimer?
    ensures i.TakeEvent? ==> Step(s, i) == HandleEvent(s, i.event)
    ensures i.EventFails? ==> Step(s, i) == Stop(s, IoError)
    ensures i.SelectTimer? ==> s.select.Some? && Step(s, i) == s.(select := None, log := s.log +
      [Answered(s.select.value.request, SelectAnswer(Err(Timeout)), ByTimer(s.select.value, s.now, |s.resolvers|))])
    ensures i.TakeMessage? ==> s.queue != []
    ensures i.TakeMessage? ==>
      var (m, s') := (s.queue[0], s.(queue := s.queue[1..]));
      Step(s, i) == if m.Shutdown? then Stop(s', Finished) else Begin(s', m.request)
  {
  }

  /** A socket is being opened: what can wake the runner, and what follows. */
  lemma OpeningWakes(s: State, i: Input)
    requires s.phase.Opening? && Wakes(s, i)
    ensures i.TakeMessage? || i.OpenDeadline? || ((i.ConnectOk? || i.ConnectFails? || i.ConnectDenied?) && CanTry(s))
    ensures i.OpenDeadline? ==> Step(s, i) == Stop(s, TimeoutOpening)
    ensures i.ConnectDenied? ==> Step(s, i) == Stop(s, PermissionDenied)
    ensures i.ConnectOk? ==> Step(s, i) == StepConnected(s, i.bound)
    ensures i.ConnectFails? ==> Step(s, i) == StepConnectFails(s)
    ensures i.TakeMessage? ==> s.queue != []
    ensures i.TakeMessage? ==>
      var (m, s') := (s.queue[0], s.(queue := s.queue[1..]));
      Step(s, i) == if m.Shutdown? then Stop(s', StartupAborted)
                    else s'.(phase := s.phase.(deferred := s.phase.deferred + [m.request]))
  {
  }

  /** The runner is stopped, attaching or replaying. */
  lemma StartingWakes(s: State, i: Input)
    requires (s.phase.Stopped? || s.phase.Attaching? || s.phase.Replaying?) && Wakes(s, i)
    ensures s.phase.Stopped? ==> i.CallRun? && Step(s, i) == if i.bound then BeginOpen(s, None) else Stop(s, IoError)
    ensures s.phase.Attaching? ==> i.AttachSent? || i.AttachFails?
    ensures i.AttachFails? ==> Step(s, i) == Stop(s, IoError)
    ensures i.AttachSent? ==>
      Step(s, i) == s.(phase := if s.phase.deferred == [] then Selecting else Replaying(s.phase.deferred))
    ensures s.phase.Replaying? ==> s.phase.rest != [] && Step(s, i) == StepReplay(s)
  {
  }

  /** The rows of the lines left to read. */
  lemma RowsFrom(lines: seq<string>, n: nat)
    requires n <= |lines|
    ensures n == |lines| ==> RowsIn(lines[n..]) == []
    ensures n < |lines| ==> var (row, rows) := (RowOf(lines[n]), RowsIn(lines[n..]));
      if row.None? then rows == RowsIn(lines[n + 1..])
      else rows != [] && rows[0] == row.value && rows[1..] == RowsIn(lines[n + 1..])
  {
  }

  lemma SameTrace(s: State, t: State)
    requires s.socks == t.socks
    ensures Trace(s) == Trace(t)
  {
  }

  /** These requests in their order, among other messages. */
  ghost predicate Interleaved(added: seq<Message>, requests: seq<Message>) {
    exists others :: Deferral.Merge(added, requests, others)
  }

  lemma NothingMerged(deferred: seq<Request>)
    ensures Deferral.Merge([], Deferral.Asks(deferred[..0]), [])
  {
  }

  lemma {:induction false} MergedRight(m: seq<Message>, a: seq<Message>, b: seq<Message>, more: seq<Message>)
    requires Deferral.Merge(m, a, b)
    ensures Deferral.Merge(m + more, a, b + more)
  {
    hide Deferral.Merge;
    if more == [] {
      assert m + more == m && b + more == b;
    } else {
      var (init, last) := (more[..|more| - 1], more[|more| - 1]);
      MergedRight(m, a, b, init);
      Deferral.MergeRight(m + init, a, b + init, last);
      assert m + more == m + init + [last] && b + more == b + init + [last];
    }
  }

  /** What clients sent, and then the next request. */
  lemma MergedOn(m: seq<Message>, b: seq<Message>, deferred: seq<Request>, n: nat, sent: seq<Message>)
    requires n < |deferred| && Deferral.Merge(m, Deferral.Asks(deferred[..n]), b)
    ensures Deferral.Merge(m + sent + [Ask(deferred[n])], Deferral.Asks(deferred[..n + 1]), b + sent)
  {
    hide Deferral.Merge;
    MergedRight(m, Deferral.Asks(deferred[..n]), b, sent);
    Deferral.MergeLeft(m + sent, Deferral.Asks(deferred[..n]), b + sent, Ask(deferred[n]));
    assert Deferral.Asks(deferred[..n + 1]) == Deferral.Asks(deferred[..n]) + [Ask(deferred[n])];
  }

  class WifiStation {
    const cfg: Config
    const stream: seq<Input>
    var pos: nat

    var now: nat
    var issued: seq<Kind>
    var queue: seq<Message>
    var scanRequests: seq<Waiter>
    var selectRequest: Option<Pending>
    var socks: seq<Sock>
    var log: seq<Entry>
    var scans: seq<ScanEnd>
    var resolvers: seq<Event>

    /** What the future is polling: its await point, with the locals that live across it. */
    var phase: Phase

    function Abs(): State
      reads this
    {
      State(cfg, now, issued, queue, phase, scanRequests, selectRequest, socks, log, scans, resolvers)
    }

    /** The fields are what the machine gives after the inputs used up. */
    ghost predicate Synced()
      reads this
    {
      pos <= |stream| && Abs() == Exec(Init(cfg), stream[..pos])
    }

    /** The input that woke the runner is being served; `s` is what the machine gives for it. */
    ghost predicate Due(s: State)
      reads this
    {
      pos < |stream| && s == Exec(Init(cfg), stream[..pos + 1])
    }

    constructor (cfg: Config, stream: seq<Input>)
      ensures this.cfg == cfg && this.stream == stream && pos == 0
      ensures Synced() && phase.Stopped?
    {
      this.cfg, this.stream, this.pos := cfg, stream, 0;
      now, issued, queue, scanRequests, selectRequest := 0, [], [], [], None;
      socks, log, scans, resolvers := [], [], [], [];
      phase := Stopped(None);
    }

    /** The next await point is reached: the input is used up. */
    method Commit()
      requires Due(Abs())
      modifies this`pos
      ensures Synced() && pos == old(pos) + 1
    {
      pos := pos + 1;
    }

    /** Sleep until an input wakes the runner; the world goes on meanwhile. */
    method Await() returns (i: Option<Input>)
      requires Synced()
      modifies this`pos, this`now, this`issued, this`queue, this`socks
      ensures old(pos) <= pos && Synced()
      ensures i.None? ==> pos == |stream|
      ensures i.Some? ==> pos < |stream| && stream[pos] == i.value && Wakes(Abs(), i.value) && Due(Step(Abs(), i.value))
      ensures |socks| == |old(socks)| && Trace(Abs()) == old(Trace(Abs())) && old(queue) <= queue
    {
      hide Step, Wakes, Exec, Init;
      while pos < |stream|
        invariant old(pos) <= pos <= |stream| && Synced() && old(queue) <= queue
        invariant |socks| == |old(socks)| && Trace(Abs()) == old(Trace(Abs()))
        decreases |stream| - pos
      {
        var input := stream[pos];
        NextInput();
        if Wakes(Abs(), input) {
          return Some(input);
        }
        Sleeps(Abs(), input);
        match input {
          case ClientSend(kind) =>
            if |queue| < cfg.capacity {
              queue, issued := queue + [Ask(Request(|issued|, kind))], issued + [kind];
            }
          case ClientShutdown =>
            if |queue| < cfg.capacity {
              queue, issued := queue + [Shutdown], issued + [];
            }
          case Tick(ms) => now := now + ms;
          case PeerReply(b) =>
            if HasSock(Abs()) {
              var k := socks[|socks| - 1];
              socks := socks[|socks| - 1 := k.(replies := k.replies + [b])];
            }
          case _ =>
        }
        Commit();
      }
      i := None;
    }

    lemma NextInput()
      requires Synced() && pos < |stream|
      ensures Due(Step(Abs(), stream[pos]))
    {
      assert stream[..pos + 1][..pos] == stream[..pos];
    }

    // ------ Exchanges ----------------------------

    /** `run` is about to return: the machine has stopped, and only the locals are still to be dropped. */
    ghost predicate Fails(result: RunResult)
      reads this
    {
      Due(Stop(Abs(), result))
    }

    /** The send: it goes out whole (None), or short. */
    method SendDatagram(task: Task, from: nat, cmd: string) returns (flow: Flow<Option<nat>>)
      requires Due(ExchangeOf(Abs(), task, from, cmd)) && socks != []
      modifies this`pos, this`now, this`issued, this`queue, this`socks, this`phase
      ensures old(pos) < pos && phase == Busy(task, from, cmd, Sending)
      ensures |socks| == |old(socks)| && Trace(Abs()) == old(Trace(Abs()))
      ensures flow.Suspended? ==> Synced() && pos == |stream|
      ensures flow.Failing? ==> Fails(flow.result)
      ensures flow.Done? ==>
        Due(if flow.value.None? then Abs().(phase := phase.(wait := Awaiting(now)))
            else Conclusion(Abs(), Short(flow.value.value)))
    {
      hide Exec, Stop, Step, Wakes, Conclusion, Trace;
      ghost var before := Abs();
      phase := Busy(task, from, cmd, Sending);
      SameTrace(before, Abs());
      Commit();
      var i := Await();
      if i.None? {
        return Suspended;
      }
      SendingWakes(Abs(), i.value);
      if i.value.SendFails? {
        return Failing(IoError);
      }
      flow := Done(if i.value.SendShort? then Some(i.value.written) else None);
    }

    /** The receive, against the command timeout. */
    method ReceiveReply() returns (flow: Flow<Outcome>)
      requires phase.Busy? && socks != [] && Due(Abs().(phase := phase.(wait := Awaiting(now))))
      modifies this`pos, this`now, this`issued, this`queue, this`socks, this`phase
      ensures old(pos) < pos && phase == old(phase).(wait := Awaiting(old(now)))
      ensures |socks| == |old(socks)| && Trace(Abs()) == old(Trace(Abs()))
      ensures flow.Suspended? ==> Synced() && pos == |stream|
      ensures flow.Failing? ==> Fails(flow.result)
      ensures flow.Done? ==> Due(Conclusion(Abs(), flow.value))
    {
      hide Exec, Stop, Step, Wakes, Conclusion, Trace;
      ghost var before := Abs();
      phase := phase.(wait := Awaiting(now));
      SameTrace(before, Abs());
      Commit();
      var i := Await();
      if i.None? {
        return Suspended;
      }
      AwaitingWakes(Abs(), i.value);
      if i.value.RecvFails? {
        return Failing(IoError);
      }
      var k := socks[|socks| - 1];
      flow := Done(if i.value.ReadReply? then Replied(k.read, k.replies[k.read]) else TimedOut(phase.wait.since, now));
    }

    /** `request` or `command_matching`: one datagram, and at most one reply. */
    method Exchange(task: Task, from: nat, cmd: string) returns (flow: Flow<Exchange>)
      requires Due(ExchangeOf(Abs(), task, from, cmd)) && socks != []
      modifies this`pos, this`now, this`issued, this`queue, this`socks, this`phase
      ensures old(pos) < pos
      ensures flow.Suspended? ==> Synced() && pos == |stream|
      ensures flow.Failing? ==> Fails(flow.result)
      ensures flow.Done? ==> Due(Resume(Abs(), task, from, flow.value)) && socks != [] && |socks| == |old(socks)|
      ensures flow.Done? ==> Trace(Abs()) == old(Trace(Abs())) + [flow.value] && flow.value.cmd == cmd
      ensures flow.Done? ==> phase.Busy?
    {
      hide Exec, Resume, Stop, Step, Pushed, Trace;
      var sent := SendDatagram(task, from, cmd);
      if sent.Suspended? {
        return Suspended;
      }
      if sent.Failing? {
        return Failing(sent.result);
      }
      var outcome: Outcome;
      if sent.value.Some? {
        outcome := Short(sent.value.value);
      } else {
        var received := ReceiveReply();
        if received.Suspended? {
          return Suspended;
        }
        if received.Failing? {
          return Failing(received.result);
        }
        outcome := received.value;
      }
      Record(outcome);
      flow := Done(Exchanges.Exchange(cmd, outcome));
    }

    /** The exchange under way has ended; a reply has been read off the socket. */
    method Record(outcome: Outcome)
      requires phase.Busy? && socks != []
      modifies this`socks
      ensures Abs() == Pushed(old(Abs()), outcome) && |socks| == |old(socks)|
      ensures Trace(Abs()) == Trace(old(Abs())) + [Exchanges.Exchange(phase.cmd, outcome)]
    {
      var k := socks[|socks| - 1];
      var x := Exchanges.Exchange(phase.cmd, outcome);
      var read := if outcome.Replied? then k.read + 1 else k.read;
      socks := socks[|socks| - 1 := k.(trace := k.trace + [x], read := read)];
    }

    /** The one-shot channel of a request is used. */
    method Send(r: Request, a: Answer, cause: Cause)
      modifies this`log
      ensures log == old(log) + [Answered(r, a, cause)]
    {
      log := log + [Answered(r, a, cause)];
    }

    // ------ Handlers ----------------------------

    /** The GET_NETWORK exchange for the next row of a list. */
    method FetchSsid(r: Request, from: nat, rows: seq<Row>, found: seq<NetworkResult>)
      returns (flow: Flow<Reply<string>>)
      requires rows != [] && socks != []
      requires Due(ExchangeOf(Abs(), GetNetwork(r, rows, found), from, GetCommand(rows[0].id)))
      modifies this`pos, this`now, this`issued, this`queue, this`socks, this`phase
      ensures old(pos) < pos
      ensures flow.Suspended? ==> Synced() && pos == |stream|
      ensures flow.Failing? ==> Fails(flow.result)
      ensures flow.Done? ==> socks != []
      ensures flow.Done? && flow.value.Ok? ==>
        Due(NextRow(Abs(), r, from, rows[1..], found + Listed(rows[0], flow.value.value)))
      ensures flow.Done? && flow.value.Err? ==>
        Due(Respond(Abs(), r, NetworksAnswer(Err(flow.value.error)), Direct(Here(Abs(), from))))
    {
      hide Exec, Conclude, Step, Init, Stop, Trace, ExchangeOf, NextRow, Respond, Here, Listed, GetCommand;
      var got := Exchange(GetNetwork(r, rows, found), from, GetCommand(rows[0].id));
      match got
      case Suspended => return Suspended;
      case Failing(e) => return Failing(e);
      case Done(x) => return Done(Conclude(x, AcceptSsid));
    }

    /** `NetworkResult::request_results`: the loop over the lines of the list. */
    method RequestResults(r: Request) returns (flow: Flow<()>)
      requires r.kind.Networks? && socks != []
      requires Due(ExchangeOf(Abs(), First(r), |Trace(Abs())|, "LIST_NETWORKS"))
      modifies this`pos, this`now, this`issued, this`queue, this`socks, this`phase, this`log
      ensures old(pos) < pos
      ensures flow.Suspended? ==> Synced() && pos == |stream|
      ensures flow.Failing? ==> Fails(flow.result)
      ensures flow.Done? ==> Due(Abs().(phase := Selecting)) && socks != []
    {
      hide Exec, Conclude, Rows, Step, Init, Stop, Trace, ExchangeOf, NextRow, Here;
      var from := |Trace(Abs())|;
      var first := Exchange(First(r), from, "LIST_NETWORKS");
      match first
      case Suspended => return Suspended;
      case Failing(e) => return Failing(e);
      case Done(_) =>
      var response := Conclude(first.value, AcceptText);
      if response.Err? {
        Send(r, NetworksAnswer(Err(response.error)), Direct(Here(Abs(), from)));
        return Done(());
      }
      flow := RequestRows(r, from, response.value);
    }

    method RequestRows(r: Request, from: nat, response: string) returns (flow: Flow<()>)
      requires socks != [] && Due(NextRow(Abs(), r, from, Rows(response), []))
      modifies this`pos, this`now, this`issued, this`queue, this`socks, this`phase, this`log
      ensures old(pos) <= pos
      ensures flow.Suspended? ==> Synced() && pos == |stream|
      ensures flow.Failing? ==> Fails(flow.result)
      ensures flow.Done? ==> Due(Abs().(phase := Selecting)) && socks != []
    {
      hide Exec, RowOf, RowsIn, Step, Init, Stop, Trace, GetCommand, Here;
      var lines := Split(response, '\n')[1..];
      var results: seq<NetworkResult> := [];
      assert lines[0..] == lines;
      for n := 0 to |lines|
        invariant old(pos) <= pos && socks != []
        invariant Due(NextRow(Abs(), r, from, RowsIn(lines[n..]), results))
      {
        RowsFrom(lines, n);
        var row := RowOf(lines[n]);
        if row.Some? {
          var got := FetchSsid(r, from, RowsIn(lines[n..]), results);
          match got
          case Suspended => return Suspended;
          case Failing(e) => return Failing(e);
          case Done(_) =>
          if got.value.Err? {
            Send(r, NetworksAnswer(Err(got.value.error)), Direct(Here(Abs(), from)));
            return Done(());
          }
          results := results + Listed(row.value, got.value.value);
        }
      }
      RowsFrom(lines, |lines|);
      Send(r, NetworksAnswer(Ok(results)), Direct(Here(Abs(), from)));
      flow := Done(());
    }

    /** The SelectNetwork arm of `handle_request`. */
    method HandleSelect(r: Request) returns (flow: Flow<()>)
      requires r.kind.SelectNetwork? && socks != [] && phase.Selecting? && Due(Begin(Abs(), r))
      modifies this`pos, this`now, this`issued, this`queue, this`socks, this`phase, this`log, this`selectRequest
      ensures old(pos) <= pos
      ensures flow.Suspended? ==> Synced() && pos == |stream|
      ensures flow.Failing? ==> Fails(flow.result)
      ensures flow.Done? ==> Due(Abs().(phase := Selecting)) && socks != []
    {
      hide Exec, Conclude, Step, Stop, Trace;
      if selectRequest.Some? {
        Send(r, SelectAnswer(Err(PendingSelect)), Refused(selectRequest.value));
        return Done(());
      }
      var from := |Trace(Abs())|;
      var command := Exchange(First(r), from, FirstCommand(r.kind));
      match command
      case Suspended => return Suspended;
      case Failing(e) => return Failing(e);
      case Done(_) =>
      var selected := Conclude(command.value, AcceptOk);
      if selected.Err? {
        Send(r, SelectAnswer(Err(selected.error)), Direct(Here(Abs(), from)));
        return Done(());
      }
      flow := CompareStatus(r, from);
    }

    /** The select was accepted: `get_status` tells whether there is anything to wait for. */
    method CompareStatus(r: Request, from: nat) returns (flow: Flow<()>)
      requires r.kind.SelectNetwork? && socks != [] && Due(ExchangeOf(Abs(), SelectStatus(r), from, "STATUS"))
      modifies this`pos, this`now, this`issued, this`queue, this`socks, this`phase, this`log, this`selectRequest
      ensures old(pos) <= pos
      ensures flow.Suspended? ==> Synced() && pos == |stream|
      ensures flow.Failing? ==> Fails(flow.result)
      ensures flow.Done? ==> Due(Abs().(phase := Selecting)) && socks != []
    {
      hide Exec, Conclude, Step, Stop, Trace;
      var asked := Exchange(SelectStatus(r), from, "STATUS");
      match asked
      case Suspended => return Suspended;
      case Failing(e) => return Failing(e);
      case Done(_) =>
      var status := Conclude(asked.value, AcceptStatus);
      if status.Err? {
        Send(r, SelectAnswer(Err(status.error)), Direct(Here(Abs(), from)));
      } else if status.value.id == Some(r.kind.id) {
        Send(r, SelectAnswer(Ok(AlreadyConnected)), Direct(Here(Abs(), from)));
      } else {
        selectRequest := Some(Pending(r, Here(Abs(), from), |resolvers|, now));
      }
      flow := Done(());
    }

    /** `handle_request` */
    method HandleRequest(r: Request) returns (flow: Flow<()>)
      requires socks != [] && phase.Selecting? && Due(Begin(Abs(), r))
      modifies this`pos, this`now, this`issued, this`queue, this`socks, this`phase, this`log, this`selectRequest,
        this`scanRequests
      ensures old(pos) <= pos
      ensures flow.Suspended? ==> Synced() && pos == |stream|
      ensures flow.Failing? ==> Fails(flow.result)
      ensures flow.Done? ==> Due(Abs().(phase := Selecting)) && socks != []
    {
      hide Exec, Conclude, Step, SimpleAnswer, Init, Stop, Trace, NextRow;
      if r.kind.SelectNetwork? {
        flow := HandleSelect(r);
        return;
      }
      if r.kind.Networks? {
        flow := RequestResults(r);
        return;
      }
      var from := |Trace(Abs())|;
      var command := Exchange(First(r), from, FirstCommand(r.kind));
      match command
      case Suspended => return Suspended;
      case Failing(e) => return Failing(e);
      case Done(_) =>
      var x := command.value;
      if r.kind.Scan? {
        var accepted := Conclude(x, AcceptScan);
        if accepted.Ok? {
          scanRequests := scanRequests + [Waiter(r, Here(Abs(), from), |scans|)];
        } else {
          Send(r, ScanAnswer(Err(accepted.error)), Direct(Here(Abs(), from)));
        }
      } else {
        Send(r, SimpleAnswer(r.kind, x), Direct(Here(Abs(), from)));
      }
      flow := Done(());
    }

    /** The pop loop that answers everybody who waits for a scan. */
    method AnswerScans(end: ScanEnd)
      modifies this`log, this`scanRequests, this`scans
      ensures log == old(log) + ScanAnswers(old(scanRequests), end.answer)
      ensures scanRequests == [] && scans == old(scans) + [end]
    {
      while scanRequests != []
        invariant log + ScanAnswers(scanRequests, end.answer) == old(log) + ScanAnswers(old(scanRequests), end.answer)
        invariant scans == old(scans)
        decreases |scanRequests|
      {
        var w := scanRequests[|scanRequests| - 1];
        scanRequests := scanRequests[..|scanRequests| - 1];
        log := log + [Answered(w.request, end.answer, ByScan(w))];
      }
      scans := scans + [end];
    }

    method TakeSelect(a: Answer, cause: Cause)
      requires selectRequest.Some?
      modifies this`log, this`selectRequest
      ensures log == old(log) + [Answered(old(selectRequest.value.request), a, cause)] && selectRequest == None
    {
      log := log + [Answered(selectRequest.value.request, a, cause)];
      selectRequest := None;
    }

    /** `handle_event` */
    method ServeEvent(e: Event) returns (flow: Flow<()>)
      requires socks != [] && phase.Selecting? && Due(HandleEvent(Abs(), e))
      modifies this`pos, this`now, this`issued, this`queue, this`socks, this`phase, this`log, this`selectRequest,
        this`scanRequests, this`scans, this`resolvers
      ensures old(pos) <= pos
      ensures flow.Suspended? ==> Synced() && pos == |stream|
      ensures flow.Failing? ==> Fails(flow.result)
      ensures flow.Done? ==> Due(Abs().(phase := Selecting)) && socks != []
    {
      hide Exec, Conclude, Step, Init, Stop, Trace, ExchangeOf, ScanAnswers;
      if e.ScanComplete? {
        var from := |Trace(Abs())|;
        var fetched := Exchange(FetchScan, from, "SCAN_RESULTS");
        match fetched
        case Suspended => return Suspended;
        case Failing(r) => return Failing(r);
        case Done(_) =>
        AnswerScans(ScanEnd(ScanComplete, Some(Here(Abs(), from)), ScanAnswer(Conclude(fetched.value, AcceptTable))));
      } else if e.ScanFailed? {
        AnswerScans(ScanEnd(ScanFailed, None, ScanAnswer(Err(Failed))));
      } else if Resolves(e) {
        resolvers := resolvers + [e];
        if selectRequest.Some? {
          TakeSelect(SelectAnswer(Ok(ResultOf(e))), ByEvent(selectRequest.value));
        }
      }
      flow := Done(());
    }

    // ------ The loops ----------------------------

    /** What one turn of the loop selected, handled. */
    method Turn(i: Input) returns (flow: Flow<()>)
      requires phase.Selecting? && socks != [] && Wakes(Abs(), i) && Due(Step(Abs(), i))
      modifies this
      ensures old(pos) <= pos
      ensures flow.Suspended? ==> Synced() && pos == |stream|
      ensures flow.Failing? ==> Fails(flow.result)
      ensures flow.Done? ==> Due(Abs().(phase := Selecting)) && socks != []
    {
      hide Exec, HandleEvent, Begin, Stop, Step, Wakes, Init, Trace;
      SelectingWakes(Abs(), i);
      if i.TakeEvent? {
        flow := ServeEvent(i.event);
      } else if i.EventFails? {
        flow := Failing(IoError);
      } else if i.TakeMessage? {
        var m := queue[0];
        queue := queue[1..];
        if m.Shutdown? {
          return Failing(Finished);
        }
        flow := HandleRequest(m.request);
      } else {
        TakeSelect(SelectAnswer(Err(Timeout)), ByTimer(selectRequest.value, now, |resolvers|));
        flow := Done(());
      }
    }

    /** `run_internal`: it ends only by returning, or with the stream. */
    method RunInternal() returns (flow: Flow<()>)
      requires Synced() && phase.Selecting? && socks != []
      modifies this
      ensures old(pos) <= pos && !flow.Done?
      ensures flow.Suspended? ==> Synced() && pos == |stream|
      ensures flow.Failing? ==> Fails(flow.result)
    {
      hide Exec, Stop, Step, Wakes, Init, Trace;
      while true
        invariant old(pos) <= pos && Synced() && phase.Selecting? && socks != []
        decreases |stream| - pos
      {
        var i := Await();
        if i.None? {
          return Suspended;
        }
        flow := Turn(i.value);
        if !flow.Done? {
          return;
        }
        phase := Selecting;
        Commit();
      }
    }

    /** `open`: the connect loop, its deadline and the setting aside of requests. */
    method Open(first: Option<seq<Request>>) returns (flow: Flow<seq<Request>>)
      requires Synced() && phase == Opening(first, [], now, now, 0, false)
      requires first.Some? ==> socks != []
      modifies this`pos, this`now, this`issued, this`queue, this`socks, this`phase
      ensures old(pos) <= pos
      ensures flow.Suspended? ==> Synced() && pos == |stream|
      ensures flow.Failing? ==> Fails(flow.result)
      ensures flow.Done? ==> phase.Opening? && phase.first == first && phase.deferred == flow.value
      ensures flow.Done? ==> pos < |stream| && stream[pos].ConnectOk? && Due(StepConnected(Abs(), stream[pos].bound))
      ensures first.Some? ==> socks != []
    {
      hide Exec, Stop, Step, Wakes, StepConnected, CanTry, Init, Trace;
      var loopCount, deferred := 0, [];
      while true
        invariant old(pos) <= pos && Synced()
        invariant phase.Opening? && phase.first == first && phase.deferred == deferred && phase.loops == loopCount
        invariant first.Some? ==> socks != []
        decreases |stream| - pos
      {
        var i := Await();
        if i.None? {
          return Suspended;
        }
        OpeningWakes(Abs(), i.value);
        if i.value.ConnectOk? {
          return Done(deferred);
        } else if i.value.ConnectDenied? {
          return Failing(PermissionDenied);
        } else if i.value.OpenDeadline? {
          return Failing(TimeoutOpening);
        } else if i.value.ConnectFails? {
          loopCount := loopCount + 1;
          phase := Opening(first, deferred, phase.started, now + 1000, loopCount, now >= phase.started + OPEN_LIMIT);
        } else {
          var m := queue[0];
          queue := queue[1..];
          if m.Shutdown? {
            return Failing(StartupAborted);
          }
          deferred := deferred + [m.request];
          phase := phase.(deferred := deferred);
        }
        Commit();
      }
    }

    /** `run`: the opens, the replay and the loop; whatever its locals still own at the end is dropped. */
    method Run() returns (result: Option<RunResult>)
      requires Synced() && phase.Stopped?
      modifies this
      ensures Synced() && old(pos) <= pos
      ensures result.None? ==> pos == |stream|
      ensures result.Some? ==> phase == Stopped(result) && old(pos) < pos
    {
      var flow := Serve();
      if flow.Failing? {
        Drop(flow.result);
        return Some(flow.result);
      }
      result := None;
    }

    /** Leaving the scope of `run`. */
    method Drop(result: RunResult)
      requires Fails(result)
      modifies this`pos, this`log, this`phase, this`scanRequests, this`selectRequest
      ensures Synced() && phase == Stopped(Some(result)) && pos == old(pos) + 1
    {
      hide Exec;
      log := log + Drops(Held(Abs()));
      scanRequests, selectRequest, phase := [], None, Stopped(Some(result));
      Commit();
    }

    /** Everything of `run` that `?` can end. */
    method Serve() returns (flow: Flow<()>)
      requires Synced() && phase.Stopped?
      modifies this
      ensures old(pos) <= pos && !flow.Done?
      ensures flow.Suspended? ==> Synced() && pos == |stream|
      ensures flow.Failing? ==> Fails(flow.result)
    {
      hide Exec, Stop, Step, Wakes, Init, Trace;
      flow := Begun();
      if !flow.Done? {
        return;
      }
      var early := OpenSync();
      if early.Suspended? {
        return Suspended;
      }
      if early.Failing? {
        return Failing(early.result);
      }
      flow := OpenEvents(early.value);
      if flow.Done? {
        flow := RunInternal();
      }
    }

    /** `run` is called, and binds its first socket. */
    method Begun() returns (flow: Flow<()>)
      requires Synced() && phase.Stopped?
      modifies this`pos, this`now, this`issued, this`queue, this`socks, this`phase
      ensures old(pos) <= pos
      ensures flow.Suspended? ==> Synced() && pos == |stream|
      ensures flow.Failing? ==> Fails(flow.result)
      ensures flow.Done? ==> Synced() && phase == Opening(None, [], now, now, 0, false)
    {
      hide Exec, Stop, Step, Wakes, Init, Trace;
      var i := Await();
      if i.None? {
        return Suspended;
      }
      StartingWakes(Abs(), i.value);
      if !i.value.bound {
        return Failing(IoError);
      }
      phase := Opening(None, [], now, now, 0, false);
      Commit();
      flow := Done(());
    }

    /** The open of the synchronous socket, and the bind of the other one. */
    method OpenSync() returns (flow: Flow<seq<Request>>)
      requires Synced() && phase == Opening(None, [], now, now, 0, false)
      modifies this`pos, this`now, this`issued, this`queue, this`socks, this`phase
      ensures old(pos) <= pos
      ensures flow.Suspended? ==> Synced() && pos == |stream|
      ensures flow.Failing? ==> Fails(flow.result)
      ensures flow.Done? ==> Synced() && phase == Opening(Some(flow.value), [], now, now, 0, false) && socks != []
    {
      hide Exec, Stop, Step, Wakes, Init, Trace;
      flow := Open(None);
      if !flow.Done? {
        return;
      }
      if !stream[pos].bound {
        return Failing(IoError);
      }
      socks := socks + [Sock([], [], 0)];
      phase := Opening(Some(flow.value), [], now, now, 0, false);
      Commit();
    }

    /** `EventSocket::new`, and the replay of the requests set aside by both opens. */
    method OpenEvents(first: seq<Request>) returns (flow: Flow<()>)
      requires Synced() && phase == Opening(Some(first), [], now, now, 0, false) && socks != []
      modifies this`pos, this`now, this`issued, this`queue, this`socks, this`phase
      ensures old(pos) <= pos
      ensures flow.Suspended? ==> Synced() && pos == |stream|
      ensures flow.Failing? ==> Fails(flow.result)
      ensures flow.Done? ==> Synced() && phase.Selecting? && socks != []
    {
      hide Exec, Stop, Step, Wakes, Init, Trace;
      var next := Open(Some(first));
      if next.Suspended? {
        return Suspended;
      }
      if next.Failing? {
        return Failing(next.result);
      }
      var deferred := first + next.value;
      phase := Attaching(deferred);
      Commit();
      var i := Await();
      if i.None? {
        return Suspended;
      }
      StartingWakes(Abs(), i.value);
      if i.value.AttachFails? {
        return Failing(IoError);
      }
      phase := if deferred == [] then Selecting else Replaying(deferred);
      Commit();
      flow := Replay(deferred);
    }

    /** The loop that puts the requests set aside back into the channel: all of them, in their order, among what
        clients send meanwhile. */
    method Replay(deferred: seq<Request>) returns (flow: Flow<()>)
      requires Synced() && phase == (if deferred == [] then Selecting else Replaying(deferred)) && socks != []
      modifies this`pos, this`now, this`issued, this`queue, this`socks, this`phase
      ensures old(pos) <= pos && !flow.Failing?
      ensures flow.Suspended? ==> Synced() && pos == |stream|
      ensures flow.Done? ==> Synced() && phase.Selecting? && socks != []
      ensures flow.Done? ==> old(queue) <= queue && Interleaved(queue[|old(queue)|..], Deferral.Asks(deferred))
    {
      hide Exec, Stop, Step, Wakes, Init, Trace, Deferral.Merge, Deferral.Asks;
      assert deferred[0..] == deferred;
      ghost var merged: seq<Message>, others: seq<Message> := [], [];
      NothingMerged(deferred);
      for n := 0 to |deferred|
        invariant old(pos) <= pos && Synced() && socks != []
        invariant phase == if n == |deferred| then Selecting else Replaying(deferred[n..])
        invariant queue == old(queue) + merged && Deferral.Merge(merged, Deferral.Asks(deferred[..n]), others)
      {
        var i := Await();
        if i.None? {
          return Suspended;
        }
        ghost var sent := queue[|old(queue) + merged|..];
        MergedOn(merged, others, deferred, n, sent);
        merged, others := merged + sent + [Ask(deferred[n])], others + sent;
        StartingWakes(Abs(), i.value);
        queue := queue + [Ask(deferred[n])];
        assert deferred[n..][1..] == deferred[n + 1..];
        phase := if n + 1 == |deferred| then Selecting else Replaying(deferred[n + 1..]);
        Commit();
      }
      assert deferred[..|deferred|] == deferred && queue[|old(queue)|..] == merged;
      flow := Done(());
    }
  }

  /** `run` called again and again: after any inputs, the fields are the state of the machine, which keeps the
      invariant and conserves requests. */
  method Live(cfg: Config, stream: seq<Input>) returns (station: WifiStation)
    ensures fresh(station) && station.cfg == cfg && station.Abs() == Exec(Init(cfg), stream)
    ensures Inv(station.Abs()) && Conserved(station.Abs())
  {
    station := new WifiStation(cfg, stream);
    var running := true;
    while running
      invariant fresh(station) && station.cfg == cfg && station.stream == stream
      invariant station.Synced() && (if running then station.phase.Stopped? else station.pos == |stream|)
      decreases |stream| - station.pos, running
    {
      var result := station.Run();
      running := result.Some?;
    }
    assert stream[..|stream|] == stream;
    RunInv(cfg, stream);
  }
}
