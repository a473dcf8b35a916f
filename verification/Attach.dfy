/** The attach handshake of the access point's event socket (`EventSocket::new` and `retry_command`): a command
    is tried again on every client error, a fixed number of times. */
module Attach {
  import opened Wrappers
  import opened Text
  import opened Exchanges
  import Utf8

  // ------ The world ----------------------------

  /** What becomes of a send; a partial one writes that many bytes. */
  datatype Fate = Whole | Partial(written: nat) | SendError

  /** What can be received, and from when on: the peer's answer to a datagram sent, by its number; an event, which
      comes over the same socket once it is attached; or an error. The code sees only the bytes. */
  datatype Incoming =
    | AnswerTo(at: nat, to: nat, bytes: seq<byte>)
    | Unsolicited(at: nat, bytes: seq<byte>)
    | Failure(at: nat)

  /** The command timeout, the fate of each send (those not listed go out whole), everything that arrives. */
  datatype World = World(timeout: nat, fates: seq<Fate>, incoming: seq<Incoming>)

  /** The clock, the datagrams that went out, and how much of what arrives has been received. */
  datatype Link = Link(now: nat, sent: seq<string>, read: nat)

  /** How one attempt ended: accepted, a client error, or a socket error. */
  datatype Ending = Accepted | Refused(error: ClientError) | Broken

  datatype Outcome = Attached | AttachFailed(command: string) | SocketFailed

  function FateOf(w: World, n: nat): Fate {
    if n < |w.fates| then w.fates[n] else Whole
  }

  function Receive(w: World, l: Link): (Link, Ending) {
    if l.read < |w.incoming| && w.incoming[l.read].at <= l.now + w.timeout then
      var i := w.incoming[l.read];
      var l' := l.(now := if i.at <= l.now then l.now else i.at, read := l.read + 1);
      if i.Failure? then (l', Broken)
      else match ParseResp(i.bytes, AcceptOk)
        case Ok(_) => (l', Accepted)
        case Err(e) => (l', Refused(e))
    else (l.(now := l.now + w.timeout), Refused(Timeout))
  }

  /** One `command`: a send, and at most one receive. */
  function Attempt(w: World, l: Link, cmd: string): (Link, Ending) {
    var total := |Utf8.Encode(cmd)|;
    match FateOf(w, |l.sent|)
    case SendError => (l, Broken)
    case Whole => Receive(w, l.(sent := l.sent + [cmd]))
    case Partial(n) =>
      var l' := l.(sent := l.sent + [cmd]);
      if n == total then Receive(w, l') else (l', Refused(DidNotWriteAllBytes(n, total)))
  }

  /** An attempt, and the pause after it. */
  function Round(w: World, l: Link, cmd: string, delay: nat): Link {
    var l' := Attempt(w, l, cmd).0;
    l'.(now := l'.now + delay)
  }

  function Retry(w: World, l: Link, cmd: string, retries: nat, delay: nat): (Link, Outcome)
    decreases retries
  {
    if retries == 0 then (l, AttachFailed(cmd))
    else
      var (l', e) := Attempt(w, l, cmd);
      match e
      case Accepted => (l', Attached)
      case Broken => (l', SocketFailed)
      case Refused(_) => Retry(w, Round(w, l, cmd, delay), cmd, retries - 1, delay)
  }

  function AttachCommand(options: seq<string>): string {
    Text.Join(["ATTACH"] + options, ' ')
  }

  const LOG_LEVEL := "LOG_LEVEL DEBUG"

  /** The handshake once the socket is open. */
  function Handshake(w: World, l: Link, options: seq<string>, retries: nat, delay: nat): (Link, Outcome) {
    var (l', o) := Retry(w, l, AttachCommand(options), retries, delay);
    if o.Attached? then Retry(w, l', LOG_LEVEL, retries, delay) else (l', o)
  }

  // ------ The code ----------------------------

  class EventSocket {
    const world: World
    var now: nat
    var sent: seq<string>
    var read: nat

    function Abs(): Link
      reads this
    {
      Link(now, sent, read)
    }

    constructor (world: World)
      ensures this.world == world && Abs() == Link(0, [], 0)
    {
      this.world, now, sent, read := world, 0, [], 0;
    }

    /** `SocketHandle::command` */
    method Command(cmd: string) returns (e: Ending)
      modifies this
      ensures (Abs(), e) == Attempt(world, old(Abs()), cmd)
    {
      hide ParseResp;
      var total := |Utf8.Encode(cmd)|;
      var fate := FateOf(world, |sent|);
      if fate.SendError? {
        return Broken;
      }
      sent := sent + [cmd];
      var n := if fate.Partial? then fate.written else total;
      if n != total {
        return Refused(DidNotWriteAllBytes(n, total));
      }
      if read == |world.incoming| || read > |world.incoming| || world.incoming[read].at > now + world.timeout {
        now := now + world.timeout;
        return Refused(Timeout);
      }
      var i := world.incoming[read];
      now, read := if i.at <= now then now else i.at, read + 1;
      if i.Failure? {
        return Broken;
      }
      var reply := ParseResp(i.bytes, AcceptOk);
      e := if reply.Ok? then Accepted else Refused(reply.error);
    }

    /** `retry_command` */
    method RetryCommand(cmd: string, retries: nat, delay: nat) returns (o: Outcome)
      modifies this
      ensures (Abs(), o) == Retry(world, old(Abs()), cmd, retries, delay)
    {
      hide Attempt;
      for n := 0 to retries
        invariant Retry(world, Abs(), cmd, retries - n, delay) == Retry(world, old(Abs()), cmd, retries, delay)
      {
        var e := Command(cmd);
        if e.Accepted? {
          return Attached;
        }
        if e.Broken? {
          return SocketFailed;
        }
        now := now + delay;
      }
      o := AttachFailed(cmd);
    }

    /** `EventSocket::new` after the open. */
    method New(options: seq<string>, retries: nat, delay: nat) returns (o: Outcome)
      modifies this
      ensures (Abs(), o) == Handshake(world, old(Abs()), options, retries, delay)
    {
      hide Retry;
      var command := "ATTACH";
      for n := 0 to |options|
        invariant command == AttachCommand(options[..n]) && Abs() == old(Abs())
      {
        var words := ["ATTACH"] + options[..n];
        JoinAppend(words, options[n], ' ');
        assert ["ATTACH"] + options[..n + 1] == words + [options[n]];
        command := command + " ";
        command := command + options[n];
      }
      assert options[..|options|] == options;
      o := RetryCommand(command, retries, delay);
      if o.Attached? {
        o := RetryCommand(LOG_LEVEL, retries, delay);
      }
    }
  }

  lemma {:induction false} JoinAppend(pieces: seq<string>, piece: string, c: char)
    requires pieces != []
    ensures Text.Join(pieces + [piece], c) == Text.Join(pieces, c) + [c] + piece
  {
    if |pieces| > 1 {
      JoinAppend(pieces[1..], piece, c);
      assert (pieces + [piece])[1..] == pieces[1..] + [piece];
    }
  }

  /** The command splits back into its options exactly when none of them holds a space. */
  lemma AttachCommandReadable(options: seq<string>)
    ensures Split(AttachCommand(options), ' ') == ["ATTACH"] + options <==> forall o <- options :: ' ' !in o
  {
    var words := ["ATTACH"] + options;
    JoinSplit(AttachCommand(options), ' ');
    if forall o <- options :: ' ' !in o {
      SplitJoin(words, ' ');
    } else {
      assert forall o <- options :: o in words;
    }
  }

  lemma AttachIsNotLogLevel(options: seq<string>)
    ensures AttachCommand(options) != LOG_LEVEL
  {
    var words := ["ATTACH"] + options;
    assert AttachCommand(options)[0] == words[0][0];
  }

  // ------ One attempt ----------------------------

  /** The reply to an attempt: the next thing that comes in, if it comes by the deadline. */
  predicate InTime(w: World, l: Link) {
    l.read < |w.incoming| && w.incoming[l.read].at <= l.now + w.timeout
  }

  /** The text of what comes in, without its newlines. */
  function TextOf(i: Incoming): Option<string>
    requires !i.Failure?
  {
    match Utf8.Decode(i.bytes)
    case None => None
    case Some(s) => Some(TrimEndNewlines(s))
  }

  /** How an attempt whose datagram goes out whole ends: it takes the next thing that comes in by the deadline, waiting
      for it if need be, and is accepted exactly on OK; with nothing by then it times out at the deadline. */
  lemma AttemptExactly(w: World, l: Link, cmd: string)
    requires FateOf(w, |l.sent|) == Whole
    ensures var (m, e) := Attempt(w, l, cmd);
      && m.sent == l.sent + [cmd]
      && if !InTime(w, l) then e == Refused(Timeout) && m.now == l.now + w.timeout && m.read == l.read
         else
           var i := w.incoming[l.read];
           && m.read == l.read + 1 && m.now == (if i.at <= l.now then l.now else i.at)
           && (e == Broken <==> i.Failure?)
           && (!i.Failure? ==> (e == Accepted <==> TextOf(i) == Some("OK"))
                               && (e == Refused(Failed) <==> TextOf(i) == Some("FAIL")))
  {
    hide Utf8.Decode, TrimEndNewlines;
  }

  /** A datagram that does not go out whole: a socket error ends the handshake, a short write is a client error. */
  lemma UnsentExactly(w: World, l: Link, cmd: string)
    requires FateOf(w, |l.sent|) != Whole
    ensures match FateOf(w, |l.sent|)
            case SendError => Attempt(w, l, cmd) == (l, Broken)
            case Partial(n) =>
              var total := |Utf8.Encode(cmd)|;
              n != total ==>
                Attempt(w, l, cmd) == (l.(sent := l.sent + [cmd]), Refused(DidNotWriteAllBytes(n, total)))
  {
    hide Utf8.Encode;
  }

  lemma OneMore(n: nat, cost: nat)
    requires n > 0
    ensures n * cost == (n - 1) * cost + cost && (n - 1) * cost >= 0
  {
  }

  /** With a peer that never says anything, all the retries are made, and take exactly their timeouts and delays. */
  lemma {:induction false} SilentPeer(w: World, l: Link, cmd: string, retries: nat, delay: nat)
    requires l.read == |w.incoming| && w.fates == []
    ensures var (m, o) := Retry(w, l, cmd, retries, delay);
      && o == AttachFailed(cmd) && m.sent == l.sent + Copies(cmd, retries)
      && m.now == l.now + retries * (w.timeout + delay)
    decreases retries
  {
    hide Attempt;
    if retries > 0 {
      AttemptExactly(w, l, cmd);
      SilentPeer(w, Round(w, l, cmd, delay), cmd, retries - 1, delay);
      OneMore(retries, w.timeout + delay);
      assert [cmd] + Copies(cmd, retries - 1) == Copies(cmd, retries);
    } else {
      assert Copies(cmd, 0) == [];
    }
  }

  // ------ When it succeeds ----------------------------

  /** The link when attempt `k` starts, all earlier ones having been made. */
  function Ahead(w: World, l: Link, cmd: string, delay: nat, k: nat): Link {
    if k == 0 then l else Round(w, Ahead(w, l, cmd, delay, k - 1), cmd, delay)
  }

  /** How attempt `k` ends. */
  function EndingOf(w: World, l: Link, cmd: string, delay: nat, k: nat): Ending {
    Attempt(w, Ahead(w, l, cmd, delay, k), cmd).1
  }

  lemma {:induction false} AheadShifts(w: World, l: Link, cmd: string, delay: nat, k: nat)
    ensures Ahead(w, l, cmd, delay, k + 1) == Ahead(w, Round(w, l, cmd, delay), cmd, delay, k)
  {
    hide Round;
    if k > 0 {
      AheadShifts(w, l, cmd, delay, k - 1);
    }
  }

  lemma EndingShifts(w: World, l: Link, cmd: string, delay: nat, k: nat)
    ensures EndingOf(w, l, cmd, delay, k + 1) == EndingOf(w, Round(w, l, cmd, delay), cmd, delay, k)
  {
    hide Attempt, Round;
    AheadShifts(w, l, cmd, delay, k);
  }

  /** The first `n` attempts all end in client errors. */
  ghost predicate AllRefused(w: World, l: Link, cmd: string, delay: nat, n: nat) {
    forall j | 0 <= j < n :: EndingOf(w, l, cmd, delay, j).Refused?
  }

  lemma RefusedShifts(w: World, l: Link, cmd: string, delay: nat, n: nat)
    ensures AllRefused(w, l, cmd, delay, n + 1)
       <==> Attempt(w, l, cmd).1.Refused? && AllRefused(w, Round(w, l, cmd, delay), cmd, delay, n)
  {
    hide Attempt, Round;
    var l' := Round(w, l, cmd, delay);
    assert EndingOf(w, l, cmd, delay, 0) == Attempt(w, l, cmd).1;
    if Attempt(w, l, cmd).1.Refused? && AllRefused(w, l', cmd, delay, n) {
      forall j | 0 <= j < n + 1 ensures EndingOf(w, l, cmd, delay, j).Refused? {
        if j > 0 {
          EndingShifts(w, l, cmd, delay, j - 1);
        }
      }
    }
    if AllRefused(w, l, cmd, delay, n + 1) {
      forall j | 0 <= j < n ensures EndingOf(w, l', cmd, delay, j).Refused? {
        EndingShifts(w, l, cmd, delay, j);
      }
    }
  }

  /** The outcome is that of the first attempt which is no client error; with none among them all, it is a failure. */
  lemma {:induction false} RetryStops(w: World, l: Link, cmd: string, retries: nat, delay: nat) returns (n: nat)
    ensures n <= retries && AllRefused(w, l, cmd, delay, n)
    ensures n == retries ==>
      Retry(w, l, cmd, retries, delay) == (Ahead(w, l, cmd, delay, retries), AttachFailed(cmd))
    ensures n < retries ==> !EndingOf(w, l, cmd, delay, n).Refused?
    ensures n < retries ==>
      Retry(w, l, cmd, retries, delay)
      == (Attempt(w, Ahead(w, l, cmd, delay, n), cmd).0,
          if EndingOf(w, l, cmd, delay, n).Accepted? then Attached else SocketFailed)
    decreases retries
  {
    hide Attempt, Round;
    n := 0;
    if retries > 0 && Attempt(w, l, cmd).1.Refused? {
      var l' := Round(w, l, cmd, delay);
      var m := RetryStops(w, l', cmd, retries - 1, delay);
      n := m + 1;
      AheadShifts(w, l, cmd, delay, m);
      RefusedShifts(w, l, cmd, delay, m);
    }
  }

  /** Some attempt within the retries is accepted, with no socket error before it. */
  ghost predicate Accepts(w: World, l: Link, cmd: string, retries: nat, delay: nat) {
    exists k: nat | k < retries ::
      && EndingOf(w, l, cmd, delay, k).Accepted?
      && forall j | 0 <= j < k :: !EndingOf(w, l, cmd, delay, j).Broken?
  }

  /** `retry_command` succeeds exactly when some attempt within the retries is accepted with no socket error before
      it, and reports failure exactly when all of them end in client errors. */
  lemma RetryExactly(w: World, l: Link, cmd: string, retries: nat, delay: nat)
    ensures Retry(w, l, cmd, retries, delay).1.Attached? <==> Accepts(w, l, cmd, retries, delay)
    ensures Retry(w, l, cmd, retries, delay).1 == AttachFailed(cmd) <==> AllRefused(w, l, cmd, delay, retries)
    ensures var o := Retry(w, l, cmd, retries, delay).1; o.AttachFailed? ==> o.command == cmd
  {
    hide Retry, Ahead, Attempt, EndingOf;
    var n := RetryStops(w, l, cmd, retries, delay);
  }

  // ------ What it costs ----------------------------

  function Copies(cmd: string, n: nat): seq<string> {
    seq(n, i => cmd)
  }

  lemma AttemptBounds(w: World, l: Link, cmd: string)
    ensures var (m, e) := Attempt(w, l, cmd);
      && l.now <= m.now <= l.now + w.timeout
      && (m.sent == l.sent + [cmd] || (e.Broken? && m.sent == l.sent))
  {
  }

  /** The datagrams that `retry_command` sends, and the time it takes. */
  lemma {:induction false} RetryBounds(w: World, l: Link, cmd: string, retries: nat, delay: nat) returns (n: nat)
    ensures var (m, o) := Retry(w, l, cmd, retries, delay);
      && n <= retries && m.sent == l.sent + Copies(cmd, n)
      && l.now <= m.now <= l.now + retries * (w.timeout + delay)
      && (o.Attached? ==> n > 0)
      && (o.AttachFailed? ==> n == retries && m.now >= l.now + retries * delay)
    decreases retries
  {
    hide Attempt, Copies;
    NoCopies(cmd);
    n := 0;
    if retries > 0 {
      AttemptBounds(w, l, cmd);
      var (l', e) := Attempt(w, l, cmd);
      OneMore(retries, w.timeout + delay);
      OneMore(retries, delay);
      if e.Refused? {
        var k := RetryBounds(w, Round(w, l, cmd, delay), cmd, retries - 1, delay);
        n := k + 1;
        OneCopyMore(cmd, k);
      } else if l'.sent != l.sent {
        n := 1;
        OneCopyMore(cmd, 0);
      }
    }
  }

  lemma NoCopies(cmd: string)
    ensures Copies(cmd, 0) == []
  {
  }

  lemma OneCopyMore(cmd: string, k: nat)
    ensures Copies(cmd, k + 1) == [cmd] + Copies(cmd, k)
  {
  }

  lemma Twice(n: nat, cost: nat)
    ensures 2 * n * cost == n * cost + n * cost && n * cost >= 0
  {
  }

  /** `EventSocket::new` sends ATTACH alone until it is accepted, and LOG_LEVEL only then; at most twice the retries
      in datagrams, and twice their time. */
  lemma HandshakeBounds(w: World, l: Link, options: seq<string>, retries: nat, delay: nat) returns (a: nat, b: nat)
    ensures var (m, o) := Handshake(w, l, options, retries, delay);
      && a <= retries && b <= retries
      && m.sent == l.sent + Copies(AttachCommand(options), a) + Copies("LOG_LEVEL DEBUG", b)
      && (b > 0 ==> Accepts(w, l, AttachCommand(options), retries, delay))
      && m.now <= l.now + 2 * retries * (w.timeout + delay)
      && (o.Attached? ==> b > 0)
  {
    hide Retry, AttachCommand, Accepts, Copies;
    var cmd := AttachCommand(options);
    a := RetryBounds(w, l, cmd, retries, delay);
    RetryExactly(w, l, cmd, retries, delay);
    var (m, o) := Retry(w, l, cmd, retries, delay);
    Twice(retries, w.timeout + delay);
    b := 0;
    NoCopies(LOG_LEVEL);
    assert m.sent == m.sent + [];
    if o.Attached? {
      b := RetryBounds(w, m, LOG_LEVEL, retries, delay);
    }
  }

  // ------ Whose reply it is ----------------------------

  /** The attempt ended with nothing received: its reply, should one come, is left for a later attempt. */
  predicate Unread(e: Ending) {
    e.Refused? && (e.error.Timeout? || e.error.DidNotWriteAllBytes?)
  }

  /** How many of the attempts of `retry_command` end with nothing received. */
  function Missed(w: World, l: Link, cmd: string, retries: nat, delay: nat): nat
    decreases retries
  {
    if retries == 0 then 0
    else
      var e := Attempt(w, l, cmd).1;
      (if Unread(e) then 1 else 0)
      + if e.Refused? then Missed(w, Round(w, l, cmd, delay), cmd, retries - 1, delay) else 0
  }

  /** An attempt that breaks nothing receives one thing, or misses its reply. */
  lemma AttemptReads(w: World, l: Link, cmd: string)
    requires l.read <= |w.incoming|
    ensures var (m, e) := Attempt(w, l, cmd);
      m.read <= |w.incoming|
      && (!e.Broken? ==> m.read + (if Unread(e) then 1 else 0) == l.read + 1 && |m.sent| == |l.sent| + 1)
      && (!e.Broken? && m.read > l.read ==> !w.incoming[l.read].Failure?)
      && (e.Accepted? ==> m.read == l.read + 1 && ParseResp(w.incoming[l.read].bytes, AcceptOk).Ok?)
  {
  }

  /** Nothing received from `from` up to `to` is an error. */
  predicate Sound(w: World, from: nat, to: nat) {
    to <= |w.incoming| && forall k | from <= k < to :: !w.incoming[k].Failure?
  }

  /** Every datagram was followed by one receive, or missed its reply; what came last was the OK. */
  lemma {:induction false} RetryReads(w: World, l: Link, cmd: string, retries: nat, delay: nat)
    requires l.read <= |w.incoming|
    ensures var (m, o) := Retry(w, l, cmd, retries, delay);
      && (!o.SocketFailed? ==> m.read + Missed(w, l, cmd, retries, delay) + |l.sent| == l.read + |m.sent|)
      && (!o.SocketFailed? ==> l.read <= m.read && Sound(w, l.read, m.read))
      && (o.Attached? ==> l.read < m.read && ParseResp(w.incoming[m.read - 1].bytes, AcceptOk).Ok?)
    decreases retries
  {
    hide Attempt, Unread, ParseResp;
    if retries > 0 {
      AttemptReads(w, l, cmd);
      if Attempt(w, l, cmd).1.Refused? {
        RetryReads(w, Round(w, l, cmd, delay), cmd, retries - 1, delay);
      }
    }
  }

  // ------ What the peer answered ----------------------------

  /** The datagrams that were answered, in the order of the answers. */
  function Answered(received: seq<Incoming>): seq<nat> {
    if received == [] then []
    else
      var last := received[|received| - 1];
      Answered(received[..|received| - 1]) + (if last.AnswerTo? then [last.to] else [])
  }

  function Events(received: seq<Incoming>): nat {
    if received == [] then 0
    else Events(received[..|received| - 1]) + (if received[|received| - 1].Unsolicited? then 1 else 0)
  }

  predicate Increasing(tos: seq<nat>) {
    forall i, j | 0 <= i < j < |tos| :: tos[i] < tos[j]
  }

  /** The peer's part: of what was received, the answers are in order, at most one for each datagram, and only for
      datagrams that were sent. It may pass over a datagram, and events may come anywhere. */
  predicate AnswersInOrder(w: World, m: Link)
    requires m.read <= |w.incoming|
  {
    var tos := Answered(w.incoming[..m.read]);
    Increasing(tos) && forall t <- tos :: t < |m.sent|
  }

  /** The datagrams before the last one answered that the peer passed over. */
  function PassedOver(tos: seq<nat>): set<nat> {
    if tos == [] then {} else set n | 0 <= n < tos[|tos| - 1] && n !in tos
  }

  lemma {:induction false} Kinds(received: seq<Incoming>)
    requires forall i <- received :: !i.Failure?
    ensures |Answered(received)| + Events(received) == |received|
  {
    if received != [] {
      var n := |received| - 1;
      assert forall i <- received[..n] :: i in received;
      Kinds(received[..n]);
      assert received[n] in received;
    }
  }

  function Elements(tos: seq<nat>): set<nat> {
    set t | t in tos
  }

  lemma {:induction false} CountElements(tos: seq<nat>)
    requires Increasing(tos)
    ensures |Elements(tos)| == |tos|
  {
    if tos != [] {
      var (init, last) := (tos[..|tos| - 1], tos[|tos| - 1]);
      CountElements(init);
      assert Elements(tos) == Elements(init) + {last};
    }
  }

  /** The numbers below `k` outside a set. */
  function Gaps(there: set<nat>, k: nat): set<nat> {
    set n | 0 <= n < k && n !in there
  }

  lemma {:induction false} CountGaps(there: set<nat>, k: nat)
    requires forall n <- there :: n < k
    ensures |Gaps(there, k)| + |there| == k
  {
    hide Gaps;
    if k == 0 {
      assert there == {};
      GapsStep(there, 0);
    } else {
      GapsStep(there, k - 1);
      if k - 1 in there {
        CountGaps(there - {k - 1}, k - 1);
      } else {
        CountGaps(there, k - 1);
      }
    }
  }

  lemma GapsStep(there: set<nat>, k: nat)
    ensures Gaps(there, 0) == {} && k !in Gaps(there, k)
    ensures Gaps(there, k + 1) == if k in there then Gaps(there - {k}, k) else Gaps(there, k) + {k}
  {
  }

  /** The last answer's number, from how many came and how many were passed over. */
  lemma LastAnswered(tos: seq<nat>)
    requires Increasing(tos) && tos != []
    ensures tos[|tos| - 1] + 1 == |tos| + |PassedOver(tos)|
  {
    var (init, last) := (tos[..|tos| - 1], tos[|tos| - 1]);
    CountElements(init);
    CountGaps(Elements(init), last);
    assert PassedOver(tos) == Gaps(Elements(init), last);
  }

  /** What completed the handshake is the peer's answer to a LOG_LEVEL. */
  predicate Confirmed(w: World, m: Link)
    requires 0 < m.read <= |w.incoming|
  {
    var i := w.incoming[m.read - 1];
    i.AnswerTo? && i.to < |m.sent| && m.sent[i.to] == LOG_LEVEL
  }

  /** No event reads as an OK; those of `hostapd` start with their level in angle brackets. */
  predicate EventsRefused(received: seq<Incoming>) {
    forall i <- received :: i.Unsolicited? ==> ParseResp(i.bytes, AcceptOk).Err?
  }

  /** With a peer that answers in order, a completed handshake was completed by an answer to LOG_LEVEL exactly when
      it was an answer at all and the attempts that missed their reply, with the events that were read as replies,
      are fewer than the times LOG_LEVEL was sent, with the datagrams that the peer passed over. When it passes over
      none and its events are no OKs, that is: misses and events together are fewer than the LOG_LEVELs. */
  lemma LogLevelConfirmed(w: World, l: Link, options: seq<string>, retries: nat, delay: nat)
    returns (missed: nat, a: nat, b: nat)
    requires l.sent == [] && l.read == 0 && Handshake(w, l, options, retries, delay).1.Attached?
    ensures var cmd := AttachCommand(options);
      var m := Retry(w, l, cmd, retries, delay).0;
      missed == Missed(w, l, cmd, retries, delay) + Missed(w, m, LOG_LEVEL, retries, delay)
    ensures var m := Handshake(w, l, options, retries, delay).0;
      && m.sent == Copies(AttachCommand(options), a) + Copies(LOG_LEVEL, b)
      && 0 < m.read <= |w.incoming| && !w.incoming[m.read - 1].Failure?
      && ParseResp(w.incoming[m.read - 1].bytes, AcceptOk).Ok?
    ensures var m := Handshake(w, l, options, retries, delay).0;
      AnswersInOrder(w, m) ==>
        var received := w.incoming[..m.read];
        Confirmed(w, m)
        <==> received[m.read - 1].AnswerTo?
             && missed + Events(received) < b + |PassedOver(Answered(received))|
    ensures var m := Handshake(w, l, options, retries, delay).0;
      var received := w.incoming[..m.read];
      AnswersInOrder(w, m) && PassedOver(Answered(received)) == {} && EventsRefused(received) ==>
        (Confirmed(w, m) <==> missed + Events(received) < b)
  {
    hide Retry, AttachCommand, Missed, Accepts, ParseResp, Copies, Confirmed;
    var cmd := AttachCommand(options);
    a, b := HandshakeBounds(w, l, options, retries, delay);
    RetryReads(w, l, cmd, retries, delay);
    var m := Retry(w, l, cmd, retries, delay).0;
    RetryReads(w, m, LOG_LEVEL, retries, delay);
    missed := Missed(w, l, cmd, retries, delay) + Missed(w, m, LOG_LEVEL, retries, delay);
    var m' := Handshake(w, l, options, retries, delay).0;
    if AnswersInOrder(w, m') {
      AttachIsNotLogLevel(options);
      LastReceived(w, m', cmd, missed, a, b);
    }
  }

  lemma LastReceived(w: World, m: Link, cmd: string, missed: nat, a: nat, b: nat)
    requires 0 < m.read && Sound(w, 0, m.read) && AnswersInOrder(w, m)
    requires m.read + missed == |m.sent| && m.sent == Copies(cmd, a) + Copies(LOG_LEVEL, b) && cmd != LOG_LEVEL
    ensures var received := w.incoming[..m.read];
      Confirmed(w, m)
      <==> received[m.read - 1].AnswerTo? && missed + Events(received) < b + |PassedOver(Answered(received))|
  {
    hide PassedOver, Events, Increasing;
    var received := w.incoming[..m.read];
    Kinds(received);
    if received[m.read - 1].AnswerTo? {
      var tos := Answered(received);
      LastAnswered(tos);
      assert tos[|tos| - 1] == received[m.read - 1].to && tos[|tos| - 1] in tos;
    }
  }

  // ------ It can go wrong ----------------------------

  /** Only ATTACH was ever answered. */
  predicate OnlyAttachAnswered(w: World, m: Link) {
    forall t <- Answered(w.incoming) :: t < |m.sent| && m.sent[t] == "ATTACH"
  }

  const EVENT := "<3>AP-STA-CONNECTED x"

  lemma EventRefused()
    ensures ParseResp(Utf8.Encode(EVENT), AcceptOk) == Err(ParsingResponse(Utf8.Encode(EVENT)))
  {
    hide Utf8.Decode, Utf8.Encode;
    Utf8.DecodeEncode(EVENT);
    assert TrimEndNewlines(EVENT) == EVENT && EVENT[0] == '<';
  }

  /** In a world that begins with a late answer to ATTACH, a timeout and that answer make the second attempt succeed. */
  lemma LateAttach(w: World)
    requires w.timeout == 10 && w.fates == [] && w.incoming != []
    requires w.incoming[0] == AnswerTo(12, 0, Utf8.Encode("OK"))
    ensures Retry(w, Link(0, [], 0), "ATTACH", 2, 5) == (Link(15, ["ATTACH", "ATTACH"], 1), Attached)
  {
    hide Utf8.Encode, ParseResp;
    OkAccepted();
    assert [] + ["ATTACH"] == ["ATTACH"] && ["ATTACH"] + ["ATTACH"] == ["ATTACH", "ATTACH"];
    assert Round(w, Link(0, [], 0), "ATTACH", 5) == Link(15, ["ATTACH"], 0);
    assert Retry(w, Link(15, ["ATTACH"], 0), "ATTACH", 1, 5) == (Link(15, ["ATTACH", "ATTACH"], 1), Attached);
  }

  /** ATTACH is answered twice, the first time too late, and the second answer passes for the one to LOG_LEVEL, which
      nobody answered. */
  lemma StaleReply()
    ensures var ok := Utf8.Encode("OK");
      var w := World(10, [], [AnswerTo(12, 0, ok), AnswerTo(16, 1, ok)]);
      var (m, o) := Handshake(w, Link(0, [], 0), [], 2, 5);
      && o.Attached? && m.sent == ["ATTACH", "ATTACH", LOG_LEVEL]
      && m.read == |w.incoming| && AnswersInOrder(w, m) && OnlyAttachAnswered(w, m)
  {
    hide Utf8.Encode, ParseResp;
    OkAccepted();
    var ok := Utf8.Encode("OK");
    var w := World(10, [], [AnswerTo(12, 0, ok), AnswerTo(16, 1, ok)]);
    LateAttach(w);
    NoOptions();
    var l := Link(15, ["ATTACH", "ATTACH"], 1);
    assert l.sent + [LOG_LEVEL] == ["ATTACH", "ATTACH", LOG_LEVEL];
    assert Retry(w, l, LOG_LEVEL, 2, 5) == (Link(16, ["ATTACH", "ATTACH", LOG_LEVEL], 2), Attached);
    AnsweredPair(w.incoming[0], w.incoming[1]);
    assert w.incoming[..2] == w.incoming == [w.incoming[0], w.incoming[1]];
  }

  /** An event is read as the reply to the first LOG_LEVEL, and the late answer to ATTACH as that to the second. */
  lemma EventForReply()
    ensures var (ok, event) := (Utf8.Encode("OK"), Utf8.Encode(EVENT));
      var w := World(10, [], [AnswerTo(12, 0, ok), Unsolicited(13, event), AnswerTo(16, 1, ok)]);
      var (m, o) := Handshake(w, Link(0, [], 0), [], 2, 5);
      && o.Attached? && m.sent == ["ATTACH", "ATTACH", LOG_LEVEL, LOG_LEVEL]
      && m.read == |w.incoming| && AnswersInOrder(w, m) && OnlyAttachAnswered(w, m)
  {
    hide Utf8.Encode, ParseResp;
    OkAccepted();
    EventRefused();
    var (ok, event) := (Utf8.Encode("OK"), Utf8.Encode(EVENT));
    var w := World(10, [], [AnswerTo(12, 0, ok), Unsolicited(13, event), AnswerTo(16, 1, ok)]);
    LateAttach(w);
    NoOptions();
    var l := Link(15, ["ATTACH", "ATTACH"], 1);
    assert l.sent + [LOG_LEVEL] == ["ATTACH", "ATTACH", LOG_LEVEL];
    var l' := Link(20, ["ATTACH", "ATTACH", LOG_LEVEL], 2);
    assert Attempt(w, l, LOG_LEVEL) == (l'.(now := 15), Refused(ParsingResponse(event)));
    assert l'.sent + [LOG_LEVEL] == ["ATTACH", "ATTACH", LOG_LEVEL, LOG_LEVEL];
    assert Retry(w, l', LOG_LEVEL, 1, 5) == (Link(20, ["ATTACH", "ATTACH", LOG_LEVEL, LOG_LEVEL], 3), Attached);
    assert Retry(w, l, LOG_LEVEL, 2, 5) == Retry(w, l', LOG_LEVEL, 1, 5);
    AnsweredTriple(w.incoming[0], w.incoming[1], w.incoming[2]);
    assert w.incoming[..3] == w.incoming == [w.incoming[0], w.incoming[1], w.incoming[2]];
  }

  lemma NoOptions()
    ensures AttachCommand([]) == "ATTACH"
  {
    assert ["ATTACH"] + [] == ["ATTACH"];
  }

  lemma AnsweredPair(x: Incoming, y: Incoming)
    requires x.AnswerTo? && y.AnswerTo?
    ensures Answered([x, y]) == [x.to, y.to]
  {
    assert [x, y][..1] == [x] && [x][..0] == [];
    assert Answered([x]) == [x.to];
  }

  lemma AnsweredTriple(x: Incoming, y: Incoming, z: Incoming)
    requires x.AnswerTo? && y.Unsolicited? && z.AnswerTo?
    ensures Answered([x, y, z]) == [x.to, z.to]
  {
    assert [x, y, z][..2] == [x, y] && [x, y][..1] == [x] && [x][..0] == [];
    assert Answered([x]) == [x.to];
  }
}
