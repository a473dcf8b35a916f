/** A run in which an orderly peer's refusal reaches the client as a success: the reply to a command that had timed
    out is still on the socket. */
module LateReply {
  import opened Wrappers
  import opened Text
  import opened Exchanges
  import opened Station
  import opened Invariant
  import opened Alignment
  import Deferral
  import Utf8

  /** A peer that refuses to reload its configuration and agrees to everything else. */
  function Refuses(sock: nat, n: nat, cmd: string): seq<byte> {
    Utf8.Encode(if cmd == "RECONFIGURE" then "FAIL" else "OK")
  }

  /** The peer is orderly, and the run ends in this state. */
  ghost predicate At(cfg: Config, inputs: seq<Input>, s: State) {
    Orderly(Refuses, cfg, inputs) && Exec(Init(cfg), inputs) == s
  }

  lemma Starts(cfg: Config)
    ensures At(cfg, [], Init(cfg))
  {
  }

  lemma Next(cfg: Config, inputs: seq<Input>, s: State, i: Input, s': State)
    requires At(cfg, inputs, s) && InOrder(Refuses, s, i) && Step(s, i) == s'
    ensures At(cfg, inputs + [i], s')
  {
    hide Step, InOrder, Init;
    Deferral.ExecSnoc(Init(cfg), inputs, i);
    var all := inputs + [i];
    forall n | 0 <= n < |all| ensures InOrder(Refuses, Exec(Init(cfg), all[..n]), all[n]) {
      assert n < |inputs| ==> all[..n] == inputs[..n];
      assert n == |inputs| ==> all[..n] == inputs;
    }
  }

  // ------ Start-up ----------------------------

  /** The loop, with nothing waiting, one socket and its history. */
  function Idle(cfg: Config, now: nat, issued: seq<Kind>, k: Sock, log: seq<Entry>): State {
    State(cfg, now, issued, [], Selecting, [], None, [k], log, [], [])
  }

  const START: seq<Input> := [] + [CallRun(true)] + [ConnectOk(true)] + [ConnectOk(true)] + [AttachSent]

  lemma Started(cfg: Config)
    ensures At(cfg, START, Idle(cfg, 0, [], Sock([], [], 0), []))
  {
    hide At;
    var s0 := Init(cfg);
    var s1 := s0.(phase := Opening(None, [], 0, 0, 0, false));
    var s2 := s1.(phase := Opening(Some([]), [], 0, 0, 0, false), socks := [Sock([], [], 0)]);
    var s3 := s2.(phase := Attaching([]));
    Starts(cfg);
    assert [] + [Sock([], [], 0)] == [Sock([], [], 0)];
    var none: seq<Request> := [];
    assert none + none == none;
    Next(cfg, [], s0, CallRun(true), s1);
    Next(cfg, [] + [CallRun(true)], s1, ConnectOk(true), s2);
    Next(cfg, [] + [CallRun(true)] + [ConnectOk(true)], s2, ConnectOk(true), s3);
    Next(cfg, [] + [CallRun(true)] + [ConnectOk(true)] + [ConnectOk(true)], s3, AttachSent,
         Idle(cfg, 0, [], Sock([], [], 0), []));
  }

  // ------ One request up to its wait ----------------------------

  function Waiting(s: State, kind: Kind): State
    requires s.socks != []
  {
    var r := Request(|s.issued|, kind);
    s.(issued := s.issued + [kind],
       phase := Busy(First(r), |LastSock(s).trace|, FirstCommand(kind), Awaiting(s.now)))
  }

  /** The request of the message at the front of the channel is begun. */
  lemma Taken(s: State, r: Request)
    requires s.phase == Selecting && s.queue == [Ask(r)] && s.socks != [] && !r.kind.SelectNetwork?
    ensures Step(s, TakeMessage)
         == s.(queue := [], phase := Busy(First(r), |LastSock(s).trace|, FirstCommand(r.kind), Sending))
  {
    hide FirstCommand;
    assert [Ask(r)][1..] == [];
  }

  lemma Sent(cfg: Config, inputs: seq<Input>, s: State, kind: Kind)
    requires At(cfg, inputs, s) && s.phase == Selecting && s.queue == [] && s.cfg.capacity >= 1 && s.socks != []
    requires kind.SaveConfig? || kind.ReloadConfig?
    ensures At(cfg, inputs + [ClientSend(kind)] + [TakeMessage] + [SendDone], Waiting(s, kind))
  {
    hide At, FirstCommand, Step, InOrder;
    var r := Request(|s.issued|, kind);
    var s1 := s.(queue := [Ask(r)], issued := s.issued + [kind]);
    var s2 := s1.(queue := [], phase := Busy(First(r), |LastSock(s).trace|, FirstCommand(kind), Sending));
    Queued(s, kind);
    Taken(s1, r);
    Out(s2);
    NoReply(s, ClientSend(kind));
    NoReply(s1, TakeMessage);
    NoReply(s2, SendDone);
    Next(cfg, inputs, s, ClientSend(kind), s1);
    Next(cfg, inputs + [ClientSend(kind)], s1, TakeMessage, s2);
    Next(cfg, inputs + [ClientSend(kind)] + [TakeMessage], s2, SendDone, Waiting(s, kind));
  }

  lemma NoReply(s: State, i: Input)
    requires !i.PeerReply?
    ensures InOrder(Refuses, s, i)
  {
  }

  lemma Queued(s: State, kind: Kind)
    requires s.queue == [] && s.cfg.capacity >= 1
    ensures Step(s, ClientSend(kind))
         == s.(queue := [Ask(Request(|s.issued|, kind))], issued := s.issued + [kind])
  {
    assert [] + [Ask(Request(|s.issued|, kind))] == [Ask(Request(|s.issued|, kind))];
  }

  lemma Out(s: State)
    requires s.phase.Busy? && s.phase.wait.Sending? && s.socks != []
    ensures Step(s, SendDone) == s.(phase := s.phase.(wait := Awaiting(s.now)))
  {
    hide Conclusion;
  }

  /** How a command without a result ends. */
  lemma Ends(s: State, outcome: Outcome)
    requires s.phase.Busy? && s.phase.task.First? && |s.socks| == 1
    requires s.phase.task.request.kind.SaveConfig? || s.phase.task.request.kind.ReloadConfig?
    ensures var x := Exchange(s.phase.cmd, outcome);
      Conclusion(s, outcome) == Respond(Pushed(s, outcome), s.phase.task.request, UnitAnswer(Conclude(x, AcceptOk)),
                                        Direct(Conv(0, s.phase.from, |s.socks[0].trace| + 1)))
  {
    hide Conclude;
  }

  // ------ The run ----------------------------

  /** SAVE_CONFIG times out, and its OK comes late; then RECONFIGURE is refused at once. */
  function LateRun(cfg: Config): seq<Input> {
    START + [ClientSend(SaveConfig)] + [TakeMessage] + [SendDone] + [Tick(cfg.commandTimeout)] + [CommandTimeout]
    + [PeerReply(Utf8.Encode("OK"))]
    + [ClientSend(ReloadConfig)] + [TakeMessage] + [SendDone] + [PeerReply(Utf8.Encode("FAIL"))] + [ReadReply]
  }

  /** After the timeout: the exchange was given up, and the client told so. */
  function GivenUp(cfg: Config): Exchange {
    Exchange("SAVE_CONFIG", TimedOut(0, cfg.commandTimeout))
  }

  const GAVE_UP := Answered(Request(0, SaveConfig), UnitAnswer(Err(Timeout)), Direct(Conv(0, 0, 1)))

  lemma SaveTimesOut(cfg: Config, inputs: seq<Input>)
    requires At(cfg, inputs, Waiting(Idle(cfg, 0, [], Sock([], [], 0), []), SaveConfig))
    ensures At(cfg, inputs + [Tick(cfg.commandTimeout)] + [CommandTimeout] + [PeerReply(Utf8.Encode("OK"))],
               Idle(cfg, cfg.commandTimeout, [SaveConfig], Sock([GivenUp(cfg)], [Utf8.Encode("OK")], 0), [GAVE_UP]))
  {
    hide At, Utf8.Encode, Conclusion;
    var (t, ok) := (cfg.commandTimeout, Utf8.Encode("OK"));
    var s := Waiting(Idle(cfg, 0, [], Sock([], [], 0), []), SaveConfig);
    var gone := Idle(cfg, t, [SaveConfig], Sock([GivenUp(cfg)], [], 0), [GAVE_UP]);
    Next(cfg, inputs, s, Tick(t), s.(now := t));
    assert [] + [GivenUp(cfg)] == [GivenUp(cfg)] && [] + [GAVE_UP] == [GAVE_UP];
    Ends(s.(now := t), TimedOut(0, t));
    Next(cfg, inputs + [Tick(t)], s.(now := t), CommandTimeout, gone);
    assert [] + [ok] == [ok];
    Next(cfg, inputs + [Tick(t)] + [CommandTimeout], gone, PeerReply(ok),
         gone.(socks := [Sock([GivenUp(cfg)], [ok], 0)]));
  }

  const TOLD := Answered(Request(1, ReloadConfig), UnitAnswer(Ok(())), Direct(Conv(0, 1, 2)))

  lemma ReloadIsMistaken(cfg: Config, inputs: seq<Input>)
    requires At(cfg, inputs,
      Waiting(Idle(cfg, cfg.commandTimeout, [SaveConfig], Sock([GivenUp(cfg)], [Utf8.Encode("OK")], 0), [GAVE_UP]),
              ReloadConfig))
    ensures At(cfg, inputs + [PeerReply(Utf8.Encode("FAIL"))] + [ReadReply],
      Idle(cfg, cfg.commandTimeout, [SaveConfig, ReloadConfig],
           Sock([GivenUp(cfg), Exchange("RECONFIGURE", Replied(0, Utf8.Encode("OK")))],
                [Utf8.Encode("OK"), Utf8.Encode("FAIL")], 1),
           [GAVE_UP, TOLD]))
  {
    hide At, Utf8.Encode, Conclusion, ParseResp;
    var (t, ok, fail) := (cfg.commandTimeout, Utf8.Encode("OK"), Utf8.Encode("FAIL"));
    var s := Waiting(Idle(cfg, t, [SaveConfig], Sock([GivenUp(cfg)], [ok], 0), [GAVE_UP]), ReloadConfig);
    var s' := s.(socks := [Sock([GivenUp(cfg)], [ok, fail], 0)]);
    assert [ok] + [fail] == [ok, fail];
    Next(cfg, inputs, s, PeerReply(fail), s');
    var x := Exchange("RECONFIGURE", Replied(0, ok));
    assert [GivenUp(cfg)] + [x] == [GivenUp(cfg), x] && [GAVE_UP] + [TOLD] == [GAVE_UP, TOLD];
    assert [SaveConfig] + [ReloadConfig] == [SaveConfig, ReloadConfig];
    OkAccepted();
    Ends(s', Replied(0, ok));
    Next(cfg, inputs + [PeerReply(fail)], s', ReadReply,
         Idle(cfg, t, [SaveConfig, ReloadConfig], Sock([GivenUp(cfg), x], [ok, fail], 1), [GAVE_UP, TOLD]));
  }

  /** With an orderly peer, one timeout is enough for a later request to be answered from another's reply: the client
      is told that the reload succeeded, which the peer refused. */
  lemma RefusalReadAsSuccess(cfg: Config)
    requires cfg.capacity >= 1
    ensures Orderly(Refuses, cfg, LateRun(cfg)) && Refuses(0, 1, "RECONFIGURE") == Utf8.Encode("FAIL")
    ensures Exec(Init(cfg), LateRun(cfg)).log
         == [Answered(Request(0, SaveConfig), UnitAnswer(Err(Timeout)), Direct(Conv(0, 0, 1))),
             Answered(Request(1, ReloadConfig), UnitAnswer(Ok(())), Direct(Conv(0, 1, 2)))]
    ensures var s := Exec(Init(cfg), LateRun(cfg));
      |s.socks| == 1 && s.socks[0].trace == [GivenUp(cfg), Exchange("RECONFIGURE", Replied(0, Utf8.Encode("OK")))]
  {
    hide Exec, Orderly, Utf8.Encode, Waiting;
    Started(cfg);
    var idle := Idle(cfg, 0, [], Sock([], [], 0), []);
    Sent(cfg, START, idle, SaveConfig);
    var saving := START + [ClientSend(SaveConfig)] + [TakeMessage] + [SendDone];
    SaveTimesOut(cfg, saving);
    var late := saving + [Tick(cfg.commandTimeout)] + [CommandTimeout] + [PeerReply(Utf8.Encode("OK"))];
    var idle' := Idle(cfg, cfg.commandTimeout, [SaveConfig], Sock([GivenUp(cfg)], [Utf8.Encode("OK")], 0), [GAVE_UP]);
    Sent(cfg, late, idle', ReloadConfig);
    ReloadIsMistaken(cfg, late + [ClientSend(ReloadConfig)] + [TakeMessage] + [SendDone]);
  }
}
