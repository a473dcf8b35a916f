/** The station runtime as a step machine: `run`, its event loop and its handlers, cut at every await.
    Each input is one thing that the environment or the scheduler does; an input that the current
    state does not allow changes nothing, so a run is any sequence of inputs. */
module Station {
  import opened Wrappers
  import opened Text
  import opened ScanTable
  import opened Exchanges
  import Utf8

  // ------ State ----------------------------

  datatype Config = Config(capacity: nat, commandTimeout: nat, selectTimeout: nat)

  /** A request, with the one-shot channel that answers it: tickets number the channels. */
  datatype Request = Request(ticket: nat, kind: Kind)

  datatype Message = Ask(request: Request) | Shutdown

  /** One synchronous socket: the exchanges that ended, every reply that arrived, how many were read. */
  datatype Sock = Sock(trace: seq<Exchange>, replies: seq<seq<byte>>, read: nat)

  /** A request's own exchanges on a socket. */
  datatype Conv = Conv(sock: nat, from: nat, to: nat)

  /** An accepted scan; `scans` is how many scan-ending events had been handled before. */
  datatype Waiter = Waiter(request: Request, conv: Conv, scans: nat)

  /** The pending select; `resolvers` is how many select-resolving events had been handled before. */
  datatype Pending = Pending(request: Request, conv: Conv, resolvers: nat, since: nat)

  datatype Cause =
    | Direct(conv: Conv)
    | ByScan(waiter: Waiter)
    | ByEvent(pending: Pending)
    | ByTimer(pending: Pending, at: nat, resolvers: nat)
    | Refused(holder: Pending)

  datatype Entry =
    | Answered(request: Request, answer: Answer, cause: Cause)
    | Dropped(request: Request)

  datatype Event = ScanComplete | ScanFailed | Connected | Disconnected | NetworkNotFound | WrongPsk | Unknown

  /** A scan-ending event once handled: the event, the exchange that fetched the results or none, and the answer. */
  datatype ScanEnd = ScanEnd(event: Event, conv: Option<Conv>, answer: Answer)

  datatype RunResult = Finished | IoError | StartupAborted | TimeoutOpening | PermissionDenied

  /** What the loop is in the middle of. */
  datatype Task =
    | First(request: Request)
    | GetNetwork(request: Request, rows: seq<Row>, found: seq<NetworkResult>)
    | SelectStatus(request: Request)
    | FetchScan

  datatype Wait = Sending | Awaiting(since: nat)

  datatype Phase =
    | Stopped(result: Option<RunResult>)
    | Opening(first: Option<seq<Request>>, deferred: seq<Request>, started: nat, nextTry: nat, loops: nat,
              expired: bool)
    | Attaching(deferred: seq<Request>)
    | Replaying(rest: seq<Request>)
    | Selecting
    | Busy(task: Task, from: nat, cmd: string, wait: Wait)

  /** The state of the runner and its channels. `issued`, `log`, `scans` and `resolvers` are history. */
  datatype State = State(
    cfg: Config,
    now: nat,
    issued: seq<Kind>,
    queue: seq<Message>,
    phase: Phase,
    waiters: seq<Waiter>,
    select: Option<Pending>,
    socks: seq<Sock>,
    log: seq<Entry>,
    scans: seq<ScanEnd>,
    resolvers: seq<Event>)

  function Init(cfg: Config): State {
    State(cfg, 0, [], [], Stopped(None), [], None, [], [], [], [])
  }

  datatype Input =
    // the environment
    | ClientSend(kind: Kind)
    | ClientShutdown
    | Tick(ms: nat)
    | PeerReply(bytes: seq<byte>)
    // start-up
    | CallRun(bound: bool)
    | ConnectOk(bound: bool)
    | ConnectFails
    | ConnectDenied
    | OpenDeadline
    | AttachSent
    | AttachFails
    | ReplayOne
    // the loop's branches
    | TakeMessage
    | TakeEvent(event: Event)
    | EventFails
    | SelectTimer
    // inside an exchange
    | SendDone
    | SendShort(written: nat)
    | SendFails
    | ReadReply
    | CommandTimeout
    | RecvFails

  /** The inputs of start-up, but for the replay. */
  predicate StartsUp(i: Input) {
    || i.CallRun? || i.ConnectOk? || i.ConnectFails? || i.ConnectDenied? || i.OpenDeadline?
    || i.AttachSent? || i.AttachFails?
  }

  // ------ Pieces ----------------------------

  const RETRY_MINUTES: nat := 5

  /** Milliseconds that an open keeps trying. */
  const OPEN_LIMIT: nat := 60 * RETRY_MINUTES * 1000

  function TaskRequests(t: Task): seq<Request> {
    match t
    case First(r) => [r]
    case GetNetwork(r, _, _) => [r]
    case SelectStatus(r) => [r]
    case FetchScan => []
  }

  /** Requests that only the running future's locals hold. */
  function PhaseRequests(p: Phase): seq<Request> {
    match p
    case Opening(Some(first), deferred, _, _, _, _) => first + deferred
    case Opening(None, deferred, _, _, _, _) => deferred
    case Attaching(deferred) => deferred
    case Replaying(rest) => rest
    case Busy(task, _, _, _) => TaskRequests(task)
    case _ => []
  }

  function WaiterRequests(ws: seq<Waiter>): (rs: seq<Request>)
    ensures |rs| == |ws|
  {
    seq(|ws|, i requires 0 <= i < |ws| => ws[i].request)
  }

  function SelectRequests(select: Option<Pending>): seq<Request> {
    match select
    case Some(p) => [p.request]
    case None => []
  }

  function Drops(rs: seq<Request>): (es: seq<Entry>)
    ensures |es| == |rs|
  {
    seq(|rs|, i requires 0 <= i < |rs| => Dropped(rs[i]))
  }

  /** `run` returns: everything its locals own is dropped, the channel stays. */
  function Stop(s: State, result: RunResult): State {
    var held := PhaseRequests(s.phase) + WaiterRequests(s.waiters) + SelectRequests(s.select);
    s.(phase := Stopped(Some(result)), waiters := [], select := None, log := s.log + Drops(held))
  }

  /** Answer a request and go back to the loop. */
  function Respond(s: State, r: Request, a: Answer, cause: Cause): State {
    s.(phase := Selecting, log := s.log + [Answered(r, a, cause)])
  }

  /** The waiting scans, popped from the end and answered alike. */
  function ScanAnswers(ws: seq<Waiter>, a: Answer): (es: seq<Entry>)
    ensures |es| == |ws|
  {
    if ws == [] then []
    else
      var w := ws[|ws| - 1];
      [Answered(w.request, a, ByScan(w))] + ScanAnswers(ws[..|ws| - 1], a)
  }

  function EndScan(s: State, end: ScanEnd): State {
    s.(phase := Selecting, waiters := [], log := s.log + ScanAnswers(s.waiters, end.answer), scans := s.scans + [end])
  }

  function ResultOf(e: Event): SelectResult {
    match e
    case NetworkNotFound => NotFound
    case WrongPsk => SelectResult.WrongPsk
    case _ => Success
  }

  predicate Resolves(e: Event) {
    e.Connected? || e.NetworkNotFound? || e.WrongPsk?
  }

  function ResolveSelect(s: State, e: Event): State {
    var s' := s.(resolvers := s.resolvers + [e]);
    match s.select
    case None => s'
    case Some(p) =>
      s'.(select := None, log := s.log + [Answered(p.request, SelectAnswer(Ok(ResultOf(e))), ByEvent(p))])
  }

  /** The trace of the socket in use. */
  function Trace(s: State): seq<Exchange> {
    if s.socks == [] then [] else s.socks[|s.socks| - 1].trace
  }

  function ExchangeOf(s: State, task: Task, from: nat, cmd: string): State {
    s.(phase := Busy(task, from, cmd, Sending))
  }

  function NextRow(s: State, r: Request, from: nat, rows: seq<Row>, found: seq<NetworkResult>): State {
    if rows == [] then Respond(s, r, NetworksAnswer(Ok(found)), Direct(Here(s, from)))
    else ExchangeOf(s, GetNetwork(r, rows, found), from, GetCommand(rows[0].id))
  }

  /** The exchanges on the current socket from this one on. */
  function Here(s: State, from: nat): Conv {
    Conv(if s.socks == [] then 0 else |s.socks| - 1, from, |Trace(s)|)
  }

  // ------ Handlers ----------------------------

  /** `handle_request` up to its first await. */
  function Begin(s: State, r: Request): State {
    if r.kind.SelectNetwork? && s.select.Some? then
      Respond(s, r, SelectAnswer(Err(PendingSelect)), Refused(s.select.value))
    else ExchangeOf(s, First(r), |Trace(s)|, FirstCommand(r.kind))
  }

  /** `handle_event` up to its first await. */
  function HandleEvent(s: State, e: Event): State {
    match e
    case ScanComplete => ExchangeOf(s, FetchScan, |Trace(s)|, "SCAN_RESULTS")
    case ScanFailed => EndScan(s, ScanEnd(ScanFailed, None, ScanAnswer(Err(Failed))))
    case Connected => ResolveSelect(s, e)
    case NetworkNotFound => ResolveSelect(s, e)
    case WrongPsk => ResolveSelect(s, e)
    case Disconnected => s
    case Unknown => s
  }

  /** A handler goes on after its first exchange `x`, which is already in the trace. */
  function AfterFirst(s: State, r: Request, from: nat, x: Exchange): State {
    var here := Here(s, from);
    match r.kind
    case Scan =>
      (match Conclude(x, AcceptScan)
       case Ok(_) => s.(phase := Selecting, waiters := s.waiters + [Waiter(r, here, |s.scans|)])
       case Err(e) => Respond(s, r, ScanAnswer(Err(e)), Direct(here)))
    case Networks =>
      (match Conclude(x, AcceptText)
       case Ok(text) => NextRow(s, r, from, Rows(text), [])
       case Err(e) => Respond(s, r, NetworksAnswer(Err(e)), Direct(here)))
    case SelectNetwork(id) =>
      (match Conclude(x, AcceptOk)
       case Ok(_) => ExchangeOf(s, SelectStatus(r), from, "STATUS")
       case Err(e) => Respond(s, r, SelectAnswer(Err(e)), Direct(here)))
    case _ => Respond(s, r, SimpleAnswer(r.kind, x), Direct(here))
  }

  function AfterRow(s: State, t: Task, from: nat, x: Exchange): State
    requires t.GetNetwork?
  {
    match Conclude(x, AcceptSsid)
    case Ok(ssid) =>
      if t.rows == [] then s
      else NextRow(s, t.request, from, t.rows[1..], t.found + Listed(t.rows[0], ssid))
    case Err(e) => Respond(s, t.request, NetworksAnswer(Err(e)), Direct(Here(s, from)))
  }

  function AfterStatus(s: State, r: Request, from: nat, x: Exchange): State {
    match Conclude(x, AcceptStatus)
    case Err(e) => Respond(s, r, SelectAnswer(Err(e)), Direct(Here(s, from)))
    case Ok(st) =>
      if r.kind.SelectNetwork? && st.id == Some(r.kind.id) then
        Respond(s, r, SelectAnswer(Ok(AlreadyConnected)), Direct(Here(s, from)))
      else s.(phase := Selecting, select := Some(Pending(r, Here(s, from), |s.resolvers|, s.now)))
  }

  function Resume(s: State, t: Task, from: nat, x: Exchange): State {
    match t
    case First(r) => AfterFirst(s, r, from, x)
    case GetNetwork(_, _, _) => AfterRow(s, t, from, x)
    case SelectStatus(r) => AfterStatus(s, r, from, x)
    case FetchScan => EndScan(s, ScanEnd(ScanComplete, Some(Here(s, from)), ScanAnswer(Conclude(x, AcceptTable))))
  }

  function SetSock(s: State, k: Sock): State
    requires s.socks != []
  {
    s.(socks := s.socks[|s.socks| - 1 := k])
  }

  /** The ended exchange of the current task enters the trace of its socket. */
  function Pushed(s: State, outcome: Outcome): State
    requires s.phase.Busy? && s.socks != []
  {
    var k := s.socks[|s.socks| - 1];
    var x := Exchange(s.phase.cmd, outcome);
    SetSock(s, k.(trace := k.trace + [x], read := if outcome.Replied? then k.read + 1 else k.read))
  }

  /** An exchange ends, and the handler goes on. */
  function Conclusion(s: State, outcome: Outcome): State
    requires s.phase.Busy? && s.socks != []
  {
    Resume(Pushed(s, outcome), s.phase.task, s.phase.from, Exchange(s.phase.cmd, outcome))
  }

  // ------ Steps ----------------------------

  /** A synchronous socket is open. */
  predicate HasSock(s: State) {
    s.socks != [] && !s.phase.Stopped? && !(s.phase.Opening? && s.phase.first.None?)
  }

  predicate CanTry(s: State) {
    s.phase.Opening? && !s.phase.expired && s.now >= s.phase.nextTry
  }

  function StepClient(s: State, m: Message, kinds: seq<Kind>): State {
    if |s.queue| < s.cfg.capacity then s.(queue := s.queue + [m], issued := s.issued + kinds) else s
  }

  function BeginOpen(s: State, first: Option<seq<Request>>): State {
    s.(phase := Opening(first, [], s.now, s.now, 0, false))
  }

  /** The socket connects: the second open follows the first, the attach the second. */
  function StepConnected(s: State, bound: bool): State
    requires s.phase.Opening?
  {
    match s.phase.first
    case None =>
      if bound then BeginOpen(s.(socks := s.socks + [Sock([], [], 0)]), Some(s.phase.deferred)) else Stop(s, IoError)
    case Some(first) => s.(phase := Attaching(first + s.phase.deferred))
  }

  function StepConnectFails(s: State): State
    requires s.phase.Opening?
  {
    s.(phase := s.phase.(loops := s.phase.loops + 1, nextTry := s.now + 1000,
                         expired := s.now >= s.phase.started + OPEN_LIMIT))
  }

  function StepReplay(s: State): State
    requires s.phase.Replaying? && s.phase.rest != []
  {
    var rest := s.phase.rest[1..];
    s.(queue := s.queue + [Ask(s.phase.rest[0])], phase := if rest == [] then Selecting else Replaying(rest))
  }

  function StepTake(s: State): State
    requires s.queue != []
  {
    var (m, s') := (s.queue[0], s.(queue := s.queue[1..]));
    match s.phase
    case Opening(_, deferred, _, _, _, _) =>
      (match m
       case Shutdown => Stop(s', StartupAborted)
       case Ask(r) => s'.(phase := s.phase.(deferred := deferred + [r])))
    case Selecting =>
      (match m
       case Shutdown => Stop(s', Finished)
       case Ask(r) => Begin(s', r))
    case _ => s
  }

  function StepTimer(s: State): State {
    match s.select
    case Some(p) =>
      if s.phase.Selecting? && s.now >= p.since + s.cfg.selectTimeout then
        s.(select := None,
           log := s.log + [Answered(p.request, SelectAnswer(Err(Timeout)), ByTimer(p, s.now, |s.resolvers|))])
      else s
    case None => s
  }

  function StepExchange(s: State, i: Input): State
    requires s.phase.Busy? && s.socks != []
  {
    var k := s.socks[|s.socks| - 1];
    match s.phase.wait
    case Sending =>
      (match i
       case SendDone => s.(phase := s.phase.(wait := Awaiting(s.now)))
       case SendShort(n) => if n != |Utf8.Encode(s.phase.cmd)| then Conclusion(s, Short(n)) else s
       case SendFails => Stop(s, IoError)
       case _ => s)
    case Awaiting(since) =>
      (match i
       case ReadReply => if k.read < |k.replies| then Conclusion(s, Replied(k.read, k.replies[k.read])) else s
       case CommandTimeout => if s.now >= since + s.cfg.commandTimeout then Conclusion(s, TimedOut(since, s.now)) else s
       case RecvFails => Stop(s, IoError)
       case _ => s)
  }

  function Step(s: State, i: Input): State {
    match i
    case ClientSend(kind) => StepClient(s, Ask(Request(|s.issued|, kind)), [kind])
    case ClientShutdown => StepClient(s, Shutdown, [])
    case Tick(ms) => s.(now := s.now + ms)
    case PeerReply(b) =>
      if HasSock(s) then
        var k := s.socks[|s.socks| - 1];
        SetSock(s, k.(replies := k.replies + [b]))
      else s
    case CallRun(bound) =>
      if !s.phase.Stopped? then s else if bound then BeginOpen(s, None) else Stop(s, IoError)
    case ConnectOk(bound) => if CanTry(s) then StepConnected(s, bound) else s
    case ConnectFails => if CanTry(s) then StepConnectFails(s) else s
    case ConnectDenied => if CanTry(s) then Stop(s, PermissionDenied) else s
    case OpenDeadline =>
      if s.phase.Opening? && s.now >= s.phase.started + OPEN_LIMIT then Stop(s, TimeoutOpening) else s
    case AttachSent =>
      if !s.phase.Attaching? then s
      else s.(phase := if s.phase.deferred == [] then Selecting else Replaying(s.phase.deferred))
    case AttachFails => if s.phase.Attaching? then Stop(s, IoError) else s
    case ReplayOne =>
      if s.phase.Replaying? && s.phase.rest != [] && |s.queue| < s.cfg.capacity then StepReplay(s) else s
    case TakeMessage => if s.queue != [] then StepTake(s) else s
    case TakeEvent(e) => if s.phase.Selecting? then HandleEvent(s, e) else s
    case EventFails => if s.phase.Selecting? then Stop(s, IoError) else s
    case SelectTimer => StepTimer(s)
    case _ => if s.phase.Busy? && s.socks != [] then StepExchange(s, i) else s
  }

  /** The state after any sequence of inputs. */
  function Exec(s: State, inputs: seq<Input>): State {
    if inputs == [] then s else Step(Exec(s, inputs[..|inputs| - 1]), inputs[|inputs| - 1])
  }
}
