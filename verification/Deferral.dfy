/** Start-up: requests set aside while the sockets open, and their replay into the bounded channel. */
module Deferral {
  import opened Wrappers
  import opened Exchanges
  import opened Station
  import opened Conservation
  import opened Invariant

  // ------ Setting aside ----------------------------

  function Asks(rs: seq<Request>): (ms: seq<Message>)
    ensures |ms| == |rs|
  {
    seq(|rs|, i requires 0 <= i < |rs| => Ask(rs[i]))
  }

  /** What a client input puts into the channel, if there is room. */
  function Arriving(s: State, i: Input): seq<Message> {
    if |s.queue| >= s.cfg.capacity then []
    else match i
      case ClientSend(kind) => [Ask(Request(|s.issued|, kind))]
      case ClientShutdown => [Shutdown]
      case _ => []
  }

  /** Everything that arrives in the channel during a run, in order. */
  function Arrivals(s: State, inputs: seq<Input>): seq<Message> {
    if inputs == [] then []
    else
      var front := inputs[..|inputs| - 1];
      Arrivals(s, front) + Arriving(Exec(s, front), inputs[|inputs| - 1])
  }

  predicate StartingUp(p: Phase) {
    p.Opening? || p.Attaching?
  }

  /** The requests set aside so far, then the channel. */
  function Aside(s: State): seq<Message> {
    Asks(PhaseRequests(s.phase)) + s.queue
  }

  lemma AsksAppend(a: seq<Request>, b: seq<Request>)
    ensures Asks(a + b) == Asks(a) + Asks(b)
  {
  }

  lemma StartupStepKeepsOrder(s: State, i: Input)
    requires StartingUp(s.phase) && StartingUp(Step(s, i).phase)
    ensures Aside(Step(s, i)) == Aside(s) + Arriving(s, i)
  {
    hide Drops, Begin, HandleEvent, StepExchange, StepReplay;
    var s' := Step(s, i);
    if i.TakeMessage? && s.phase.Opening? && s.queue != [] && s.queue[0].Ask? {
      var r := s.queue[0].request;
      assert PhaseRequests(s'.phase) == PhaseRequests(s.phase) + [r];
      AsksAppend(PhaseRequests(s.phase), [r]);
      assert Asks([r]) == [s.queue[0]];
      assert s.queue == [s.queue[0]] + s.queue[1..];
    } else if i.ClientSend? || i.ClientShutdown? {
      assert s'.phase == s.phase;
    } else {
      assert PhaseRequests(s'.phase) == PhaseRequests(s.phase) && s'.queue == s.queue;
    }
  }

  /** All along, the run from `s` is still opening its sockets, or attaching the second. */
  predicate StaysOpening(s: State, inputs: seq<Input>) {
    forall n | 0 <= n < |inputs| :: StartingUp(Exec(s, inputs[..n]).phase)
  }

  /** The deferred list followed by the channel is what was in the channel followed by what arrived:
      the list is exactly the requests received during the two opens, in arrival order. */
  lemma {:induction false} DeferredInOrder(s: State, inputs: seq<Input>)
    requires StaysOpening(s, inputs) && StartingUp(Exec(s, inputs).phase) && StartingUp(s.phase)
    ensures Aside(Exec(s, inputs)) == Aside(s) + Arrivals(s, inputs)
  {
    if inputs != [] {
      var n := |inputs| - 1;
      assert StartingUp(Exec(s, inputs[..n]).phase);
      forall m | 0 <= m < n ensures StartingUp(Exec(s, inputs[..n][..m]).phase) {
        assert inputs[..n][..m] == inputs[..m];
      }
      DeferredInOrder(s, inputs[..n]);
      hide Step;
      StartupStepKeepsOrder(Exec(s, inputs[..n]), inputs[n]);
    }
  }

  // ------ Replay ----------------------------

  /** What is queued and what is still to be replayed do not fit the channel. */
  predicate Overfull(s: State) {
    s.phase.Replaying? && s.phase.rest != [] && |s.queue| + |s.phase.rest| > s.cfg.capacity
  }

  lemma OverfullStep(s: State, i: Input)
    requires Overfull(s) && Bounded(s)
    ensures Overfull(Step(s, i)) && Bounded(Step(s, i)) && Step(s, i).log == s.log
  {
    hide Stop, Begin, HandleEvent, StepExchange;
  }

  lemma {:induction false} OverfullOn(s: State, inputs: seq<Input>)
    requires Overfull(s) && Bounded(s)
    ensures var s' := Exec(s, inputs); Overfull(s') && Bounded(s') && s'.log == s.log
  {
    hide Step, Overfull, Bounded;
    if inputs != [] {
      OverfullOn(s, inputs[..|inputs| - 1]);
      OverfullStep(Exec(s, inputs[..|inputs| - 1]), inputs[|inputs| - 1]);
    }
  }

  /** In any run, once they do not fit, no sequence of inputs whatever ends the replay or resolves a request:
      the runner is stuck. */
  lemma OverfullForever(cfg: Config, past: seq<Input>, inputs: seq<Input>)
    requires Overfull(Exec(Init(cfg), past))
    ensures var (s, s') := (Exec(Init(cfg), past), Exec(Init(cfg), past + inputs));
      Overfull(s') && s'.log == s.log
  {
    hide Exec, Overfull;
    RunInv(cfg, past);
    ExecAppend(Init(cfg), past, inputs);
    OverfullOn(Exec(Init(cfg), past), inputs);
  }

  /** `m` is a merge of `a` and `b`: each keeps its own order. */
  ghost predicate Merge(m: seq<Message>, a: seq<Message>, b: seq<Message>) {
    if m == [] then a == [] && b == []
    else
      var last := m[|m| - 1];
      (a != [] && a[|a| - 1] == last && Merge(m[..|m| - 1], a[..|a| - 1], b))
      || (b != [] && b[|b| - 1] == last && Merge(m[..|m| - 1], a, b[..|b| - 1]))
  }

  lemma MergeLeft(m: seq<Message>, a: seq<Message>, b: seq<Message>, x: Message)
    requires Merge(m, a, b)
    ensures Merge(m + [x], a + [x], b)
  {
  }

  lemma MergeRight(m: seq<Message>, a: seq<Message>, b: seq<Message>, x: Message)
    requires Merge(m, a, b)
    ensures Merge(m + [x], a, b + [x])
  {
  }

  /** All along, the run from `s` is replaying. */
  predicate StaysReplaying(s: State, inputs: seq<Input>) {
    forall n | 0 <= n < |inputs| :: Exec(s, inputs[..n]).phase.Replaying?
  }

  /** What is left to replay; none once the loop has started. */
  function Left(s: State): seq<Request> {
    if s.phase.Replaying? then s.phase.rest else []
  }

  lemma ReplayStep(s: State, i: Input)
    requires s.phase.Replaying? && s.phase.rest != []
    ensures var s' := Step(s, i);
            (i.ReplayOne? && |s.queue| < s.cfg.capacity ==>
               s'.queue == s.queue + [Ask(s.phase.rest[0])] && Left(s') == s.phase.rest[1..])
            && (!(i.ReplayOne? && |s.queue| < s.cfg.capacity) ==>
                  s'.queue == s.queue + Arriving(s, i) && s'.phase == s.phase)
            && s'.cfg == s.cfg && s'.log == s.log && s'.waiters == s.waiters && s'.select == s.select
            && (s'.phase.Replaying? ==> s'.phase.rest != []) && (!s'.phase.Replaying? ==> s'.phase.Selecting?)
  {
  }

  /** From `s` to `t`, the first `done` requests were replayed and `arrived` came in, in some merge. */
  ghost predicate Replayed(s: State, t: State, done: nat, merged: seq<Message>, arrived: seq<Message>)
    requires s.phase.Replaying?
  {
    && done <= |s.phase.rest| && Left(t) == s.phase.rest[done..]
    && t.queue == s.queue + merged && |merged| == done + |arrived| && Merge(merged, Asks(s.phase.rest[..done]), arrived)
    && t.cfg == s.cfg && t.log == s.log
    && (if t.phase.Replaying? then t.phase.rest != [] else t.phase.Selecting?)
  }

  lemma ReplayedStep(s: State, t: State, i: Input, done: nat, merged: seq<Message>, arrived: seq<Message>)
    returns (done': nat, merged': seq<Message>)
    requires s.phase.Replaying? && t.phase.Replaying? && Replayed(s, t, done, merged, arrived)
    ensures Replayed(s, Step(t, i), done', merged', arrived + Arriving(t, i))
  {
    hide Step, Merge;
    ReplayStep(t, i);
    var rest := s.phase.rest;
    if i.ReplayOne? && |t.queue| < t.cfg.capacity {
      var x := Ask(t.phase.rest[0]);
      MergeLeft(merged, Asks(rest[..done]), arrived, x);
      assert Asks(rest[..done + 1]) == Asks(rest[..done]) + [x];
      assert rest[done..][1..] == rest[done + 1..];
      assert arrived + Arriving(t, i) == arrived;
      done', merged' := done + 1, merged + [x];
    } else if Arriving(t, i) != [] {
      var x := Arriving(t, i)[0];
      assert Arriving(t, i) == [x];
      MergeRight(merged, Asks(rest[..done]), arrived, x);
      done', merged' := done, merged + [x];
    } else {
      assert arrived + Arriving(t, i) == arrived && t.queue + [] == t.queue;
      done', merged' := done, merged;
    }
  }

  lemma {:induction false} ReplayMergesFrom(s: State, inputs: seq<Input>) returns (done: nat, merged: seq<Message>)
    requires s.phase.Replaying? && s.phase.rest != [] && StaysReplaying(s, inputs)
    ensures Replayed(s, Exec(s, inputs), done, merged, Arrivals(s, inputs))
  {
    if inputs == [] {
      done, merged := 0, [];
      assert s.queue + [] == s.queue;
    } else {
      var (front, i) := (inputs[..|inputs| - 1], inputs[|inputs| - 1]);
      forall m | 0 <= m < |front| ensures Exec(s, front[..m]).phase.Replaying? {
        assert front[..m] == inputs[..m];
      }
      done, merged := ReplayMergesFrom(s, front);
      hide Step, Replayed;
      done, merged := ReplayedStep(s, Exec(s, front), i, done, merged, Arrivals(s, front));
    }
  }

  /** There is something to replay for as long as the replay lasts. */
  lemma ReplayHasRest(cfg: Config, past: seq<Input>)
    requires Exec(Init(cfg), past).phase.Replaying?
    ensures Exec(Init(cfg), past).phase.rest != []
  {
    hide Exec, HistoryOk, TaskOk;
    RunInv(cfg, past);
  }

  /** In any run, during replay the channel grows by a merge of the requests replayed, in their order, and of what
      clients send meanwhile: nothing is lost or copied. */
  lemma ReplayMerges(cfg: Config, past: seq<Input>, inputs: seq<Input>) returns (done: nat, merged: seq<Message>)
    requires var s := Exec(Init(cfg), past); s.phase.Replaying? && StaysReplaying(s, inputs)
    ensures var s := Exec(Init(cfg), past);
      Replayed(s, Exec(s, inputs), done, merged, Arrivals(s, inputs))
  {
    hide Exec, Replayed, StaysReplaying;
    ReplayHasRest(cfg, past);
    done, merged := ReplayMergesFrom(Exec(Init(cfg), past), inputs);
  }

  /** If the deferred requests, the channel and what clients send meanwhile fit the capacity, the replay is never
      blocked, whatever the order of events. */
  lemma ReplayNeverBlocks(cfg: Config, past: seq<Input>, inputs: seq<Input>)
    requires var s := Exec(Init(cfg), past);
      && s.phase.Replaying? && StaysReplaying(s, inputs)
      && |s.queue| + |s.phase.rest| + |Arrivals(s, inputs)| <= s.cfg.capacity
    ensures var s' := Exec(Exec(Init(cfg), past), inputs); s'.phase.Replaying? ==> |s'.queue| < s'.cfg.capacity
  {
    hide Exec, StaysReplaying;
    var done, merged := ReplayMerges(cfg, past, inputs);
  }

  /** Once the second socket is attached, exactly the requests set aside are replayed, in their order. */
  lemma AttachedReplays(s: State)
    requires s.phase.Attaching?
    ensures var s' := Step(s, AttachSent);
      && s' == s.(phase := s'.phase) && Left(s') == s.phase.deferred
      && (if s.phase.deferred == [] then s'.phase == Selecting else s'.phase == Replaying(s.phase.deferred))
  {
  }

  /** Order over a whole start-up, from an open begun to the loop: what was in the channel and what arrived is first
      split, in order, into the requests set aside and the rest; these requests then come back in their order after
      that rest, among what arrives meanwhile. */
  lemma StartupOrder(cfg: Config, past: seq<Input>, opening: seq<Input>, replay: seq<Input>)
    returns (aside: seq<Request>, merged: seq<Message>)
    requires var s := Exec(Init(cfg), past);
      && s.phase.Opening? && StaysOpening(s, opening) && Exec(s, opening).phase.Attaching?
      && var t := Step(Exec(s, opening), AttachSent);
         StaysReplaying(t, replay) && Exec(t, replay).phase == Selecting
    ensures var s := Exec(Init(cfg), past);
      var a := Exec(s, opening);
      var t := Step(a, AttachSent);
      && Asks(aside) + a.queue == Asks(PhaseRequests(s.phase)) + s.queue + Arrivals(s, opening)
      && Exec(t, replay).queue == a.queue + merged && Merge(merged, Asks(aside), Arrivals(t, replay))
      && aside == a.phase.deferred
  {
    hide Exec, Step, StaysOpening, Arrivals, Merge;
    var s := Exec(Init(cfg), past);
    var a := Exec(s, opening);
    var t := Step(a, AttachSent);
    DeferredInOrder(s, opening);
    AttachedReplays(a);
    aside := a.phase.deferred;
    if aside == [] {
      merged := [];
      NothingToReplay(t, replay);
    } else {
      var done: nat;
      done, merged := ReplayMergesFrom(t, replay);
      assert aside[done..] == [] && aside[..done] == aside;
    }
  }

  lemma NothingToReplay(t: State, replay: seq<Input>)
    requires t.phase == Selecting && StaysReplaying(t, replay)
    ensures replay == [] && Exec(t, replay) == t && Merge([], Asks([]), Arrivals(t, replay))
  {
    assert replay[..0] == [] && Exec(t, []) == t;
  }

  /** That many replay steps in a row. */
  function Replays(n: nat): (inputs: seq<Input>)
    ensures |inputs| == n
  {
    seq(n, _ => ReplayOne)
  }

  lemma {:induction false} ReplayRuns(s: State, n: nat)
    requires s.phase.Replaying? && s.phase.rest != [] && n <= |s.phase.rest|
    requires |s.queue| + |s.phase.rest| <= s.cfg.capacity
    ensures Ran(s, Exec(s, Replays(n)), n)
  {
    hide Exec, Step, StepReplay, Asks;
    if n == 0 {
      RunsNone(s);
    } else {
      ReplayRuns(s, n - 1);
      assert Replays(n) == Replays(n - 1) + [ReplayOne];
      ExecSnoc(s, Replays(n - 1), ReplayOne);
      RunsOne(s, Exec(s, Replays(n - 1)), n);
    }
  }

  /** After `n` replay steps. */
  ghost predicate Ran(s: State, s': State, n: nat)
    requires s.phase.Replaying? && s.phase.rest != [] && n <= |s.phase.rest|
  {
    s'.queue == s.queue + Asks(s.phase.rest[..n]) && s'.cfg == s.cfg
    && s'.phase == (if n == |s.phase.rest| then Selecting else Replaying(s.phase.rest[n..]))
  }

  lemma RunsNone(s: State)
    requires s.phase.Replaying? && s.phase.rest != []
    ensures Ran(s, Exec(s, Replays(0)), 0)
  {
    hide Step;
    assert Replays(0) == [];
    assert s.queue + Asks(s.phase.rest[..0]) == s.queue && s.phase.rest[0..] == s.phase.rest;
  }

  lemma RunsOne(s: State, t: State, n: nat)
    requires s.phase.Replaying? && s.phase.rest != [] && 0 < n <= |s.phase.rest|
    requires |s.queue| + |s.phase.rest| <= s.cfg.capacity && Ran(s, t, n - 1)
    ensures Ran(s, Step(t, ReplayOne), n)
  {
  }

  /** In any run, the replay can end just when the deferred requests and the channel fit the capacity. */
  lemma ReplayEndsExactly(cfg: Config, past: seq<Input>)
    requires Exec(Init(cfg), past).phase.Replaying?
    ensures var s := Exec(Init(cfg), past);
      (exists inputs :: !Exec(s, inputs).phase.Replaying?) <==> |s.queue| + |s.phase.rest| <= s.cfg.capacity
  {
    hide Exec, Bounded;
    var s := Exec(Init(cfg), past);
    RunInv(cfg, past);
    ReplayHasRest(cfg, past);
    if |s.queue| + |s.phase.rest| <= s.cfg.capacity {
      ReplayRuns(s, |s.phase.rest|);
      assert !Exec(s, Replays(|s.phase.rest|)).phase.Replaying?;
    } else {
      forall inputs: seq<Input> ensures Exec(s, inputs).phase.Replaying? {
        OverfullOn(s, inputs);
      }
    }
  }

  // ------ The runner can get stuck ----------------------------

  /** One request is deferred, then clients fill the channel before the sockets open. */
  function FloodedStart(n: nat): seq<Input> {
    [CallRun(true), ClientSend(Status), TakeMessage] + seq(n, _ => ClientSend(Status))
  }

  /** After the flood the channel holds `n` requests, and the first one is still set aside. */
  ghost predicate Flooded(s: State, cfg: Config, n: nat) {
    && s.cfg == cfg && |s.queue| == n && s.now == 0 && s.log == []
    && s.phase == Opening(None, [Request(0, Status)], 0, 0, 0, false)
  }

  lemma FloodBegins(cfg: Config)
    requires 1 <= cfg.capacity
    ensures Flooded(Exec(Init(cfg), FloodedStart(0)), cfg, 0)
  {
    var i0: seq<Input> := [CallRun(true)];
    var i1 := i0 + [ClientSend(Status)];
    assert FloodedStart(0) == i1 + [TakeMessage];
    assert [] + i0 == i0;
    var s0 := Exec(Init(cfg), []);
    assert s0 == Init(cfg);
    ExecSnoc(Init(cfg), [], CallRun(true));
    ExecSnoc(Init(cfg), i0, ClientSend(Status));
    ExecSnoc(Init(cfg), i1, TakeMessage);
    hide Exec;
    assert Step(s0, CallRun(true)).phase == Opening(None, [], 0, 0, 0, false);
  }

  lemma {:induction false} Flood(cfg: Config, n: nat)
    requires 1 <= cfg.capacity && n <= cfg.capacity
    ensures Flooded(Exec(Init(cfg), FloodedStart(n)), cfg, n)
  {
    hide Exec, Init;
    if n == 0 {
      FloodBegins(cfg);
    } else {
      Flood(cfg, n - 1);
      assert FloodedStart(n) == FloodedStart(n - 1) + [ClientSend(Status)];
      ExecSnoc(Init(cfg), FloodedStart(n - 1), ClientSend(Status));
    }
  }

  lemma ExecSnoc(s: State, inputs: seq<Input>, i: Input)
    ensures Exec(s, inputs + [i]) == Step(Exec(s, inputs), i)
  {
  }

  lemma {:induction false} ExecAppend(s: State, a: seq<Input>, b: seq<Input>)
    ensures Exec(s, a + b) == Exec(Exec(s, a), b)
  {
    hide Step;
    if b == [] {
      assert a + b == a;
    } else {
      assert (a + b)[..|a + b| - 1] == a + b[..|b| - 1];
      ExecAppend(s, a, b[..|b| - 1]);
    }
  }

  function StuckStart(cfg: Config): seq<Input> {
    FloodedStart(cfg.capacity) + [ConnectOk(true)] + [ConnectOk(true)] + [AttachSent]
  }

  /** Whatever the capacity, a start-up with more requests than fit the channel never gets to the loop:
      the first request stays unanswered for good, and not even a shutdown is received. */
  lemma StartupCanStick(cfg: Config, more: seq<Input>)
    requires 1 <= cfg.capacity
    ensures var s := Exec(Init(cfg), StuckStart(cfg) + more);
            s.phase.Replaying? && Request(0, Status) in Held(s) && s.log == []
  {
    var a := FloodedStart(cfg.capacity);
    Flood(cfg, cfg.capacity);
    ExecSnoc(Init(cfg), a, ConnectOk(true));
    ExecSnoc(Init(cfg), a + [ConnectOk(true)], ConnectOk(true));
    ExecSnoc(Init(cfg), a + [ConnectOk(true)] + [ConnectOk(true)], AttachSent);
    var s := Exec(Init(cfg), StuckStart(cfg));
    assert s.phase == Replaying([Request(0, Status)]) by {
      assert [Request(0, Status)] + [] == [Request(0, Status)];
    }
    ExecAppend(Init(cfg), StuckStart(cfg), more);
    OverfullOn(s, more);
    StuckHolds(s, more);
  }

  lemma {:induction false} StuckHolds(s: State, more: seq<Input>)
    requires Overfull(s) && |s.queue| == s.cfg.capacity
    ensures var s' := Exec(s, more); s'.phase == s.phase && |s'.queue| == s'.cfg.capacity
  {
    if more != [] {
      StuckHolds(s, more[..|more| - 1]);
      hide Drops;
    }
  }
}
