/** When the factory's `Close` finishes: a liveness proof under fairness, and the converse. */
module PluginLiveness {
  import opened PluginShutdown

  // ----- when `close()` gets past its first send

  /** The heartbeat goroutine is at its select, or can still get there. */
  predicate CanReachSelect(d: Driver) {
    || d.hb.Selecting?
    || (d.hb.Calling? && d.server.Serving?)
    || (d.ctor.Handshake? && d.server.Serving?)
  }

  lemma {:induction false} NeverSelects(s: State, acts: seq<Action>, t: State)
    requires Inv(s) && s.closer.Sending? && Run(s, acts, t)
    requires !CanReachSelect(s.drivers[s.open[s.closer.k]])
    ensures t.closer == s.closer && t.finished == s.finished
    decreases |acts|
  {
    if acts != [] {
      assert AsExpected(s.closer, s.closer.k, s.closer.k, s.drivers[s.open[s.closer.k]]);
      assert Consistent(s.drivers[s.open[s.closer.k]]);
      StepKeepsInv(s, acts[0]);
      NeverSelects(Apply(s, acts[0]), acts[1..], t);
    }
  }

  ghost predicate CanPassSend(s: State)
    requires s.closer.Sending?
  {
    exists acts, t :: Run(s, acts, t) && t.closer == ClosingChannel(s.closer.k)
  }

  lemma SelectingPasses(s: State)
    requires Inv(s) && s.closer.Sending? && s.drivers[s.open[s.closer.k]].hb.Selecting?
    ensures Enabled(s, SendDone) && Apply(s, SendDone).closer == ClosingChannel(s.closer.k)
    ensures Run(s, [SendDone], Apply(s, SendDone))
  {
    assert AsExpected(s.closer, s.closer.k, s.closer.k, s.drivers[s.open[s.closer.k]]);
    RunAppend(s, [], s, SendDone);
    assert [] + [SendDone] == [SendDone];
  }

  /** One step brings the goroutine to its select, the next takes its value. */
  lemma ReturningPasses(s: State, a: Action)
    requires Inv(s) && s.closer.Sending? && Enabled(s, a)
    requires a == BeatOk(s.open[s.closer.k]) || a == HandshakeOk(s.open[s.closer.k])
    ensures CanPassSend(s)
  {
    var s' := Apply(s, a);
    StepKeepsInv(s, a);
    SelectingPasses(s');
    RunAppend(s, [], s, a);
    assert [] + [a] == [a];
    RunAppend(s, [a], s', SendDone);
  }

  /** `close()` can pass its first send exactly when a heartbeat goroutine is at, or can get back to,
      its select; otherwise `Close` is stuck there in every continuation. */
  lemma PassesSendIff(s: State)
    requires Inv(s) && s.closer.Sending?
    ensures CanPassSend(s) <==> CanReachSelect(s.drivers[s.open[s.closer.k]])
  {
    var d := s.open[s.closer.k];
    if s.drivers[d].hb.Selecting? {
      SelectingPasses(s);
    } else if CanReachSelect(s.drivers[d]) {
      ReturningPasses(s, if s.drivers[d].hb.Calling? then BeatOk(d) else HandshakeOk(d));
    } else {
      forall acts, t | Run(s, acts, t)
        ensures t.closer != ClosingChannel(s.closer.k)
      {
        NeverSelects(s, acts, t);
      }
    }
  }

  // ----- what makes `Close` impossible to finish

  /** The version handshake failed, the configuration failed, or a heartbeat call failed. */
  predicate Doomed(d: Driver) {
    d.ctor.HandshakeFailed? || d.ctor.ConfigFailed? || d.hb.SelfClosing?
  }

  lemma DoomedStep(s: State, k: nat, a: Action)
    requires Inv(s) && k < |s.open| && Doomed(s.drivers[s.open[k]]) && Enabled(s, a)
    ensures var t := Apply(s, a);
            t.finished == s.finished && k < |t.open| && t.open[k] == s.open[k] && Doomed(t.drivers[s.open[k]])
  {
    assert AsExpected(s.closer, Position(s), k, s.drivers[s.open[k]]);
    assert Consistent(s.drivers[s.open[k]]);
    if a.SendDone? || a.CloseDone? || a.CloseCall? || a.Stop? {
      assert s.open[s.closer.k] == s.open[k] ==> s.closer.k == k;
    }
  }

  /** One such driver in the open list, and no continuation ever finishes a `Close` again. */
  lemma {:induction false} StaysDoomed(s: State, k: nat, acts: seq<Action>, t: State)
    requires Inv(s) && k < |s.open| && Doomed(s.drivers[s.open[k]]) && Run(s, acts, t)
    ensures t.finished == s.finished && k < |t.open| && t.open[k] == s.open[k]
    decreases |acts|
  {
    if acts != [] {
      StepKeepsInv(s, acts[0]);
      DoomedStep(s, k, acts[0]);
      StaysDoomed(Apply(s, acts[0]), k, acts[1..], t);
    }
  }

  // ----- infinite behaviours

  /** At each instant one step is taken, or nothing happens. */
  datatype Event = Pause | Take(a: Action)

  ghost predicate StepAt(b: nat -> State, e: nat -> Event, t: nat) {
    match e(t)
    case Pause => b(t + 1) == b(t)
    case Take(a) => Enabled(b(t), a) && b(t + 1) == Apply(b(t), a)
  }

  ghost predicate Behaviour(b: nat -> State, e: nat -> Event) {
    forall t: nat :: StepAt(b, e, t)
  }

  /** Steps of goroutines that nothing but scheduling holds up. */
  predicate Scheduled(a: Action) {
    a.SendDone? || a.CloseDone? || a.CloseCall? || a.Stop? || a.Reset? || a.ExecReady? || a.ExecEnd?
  }

  ghost predicate DisabledOrTaken(b: nat -> State, e: nat -> Event, a: Action, u: nat) {
    !Enabled(b(u), a) || e(u) == Take(a)
  }

  ghost predicate EventuallyServed(b: nat -> State, e: nat -> Event, a: Action, t: nat) {
    exists u: nat :: t <= u && DisabledOrTaken(b, e, a, u)
  }

  /** Weak fairness: no scheduled step stays enabled for ever without being taken. */
  ghost predicate Fair(b: nat -> State, e: nat -> Event) {
    forall a: Action, t: nat :: Scheduled(a) ==> EventuallyServed(b, e, a, t)
  }

  ghost predicate NotCalling(s: State, d: nat) {
    d < |s.drivers| ==> !s.drivers[d].hb.Calling?
  }

  ghost predicate CallReturns(b: nat -> State, d: nat, t: nat) {
    exists u: nat :: t <= u && NotCalling(b(u), d)
  }

  /** Every heartbeat call returns, and none of them with an error. */
  ghost predicate HeartbeatsSucceed(b: nat -> State, e: nat -> Event) {
    && (forall d: nat, t: nat :: CallReturns(b, d, t))
    && (forall t: nat :: !(e(t).Take? && e(t).a.BeatFail?))
  }

  /** Every opened driver was constructed successfully and its heartbeat goroutine is not stuck. */
  ghost predicate Healthy(s: State) {
    forall k :: 0 <= k < |s.open| ==>
      s.open[k] < |s.drivers| && s.drivers[s.open[k]].ctor.Ready? && !s.drivers[s.open[k]].hb.SelfClosing?
  }

  ghost predicate Closing(s: State) {
    !s.closer.Idle? && !s.closer.Panicked?
  }

  function Rank(s: State): int {
    match s.closer
    case Sending(k) => 4 * (|s.open| - k) + 1
    case ClosingChannel(k) => 4 * (|s.open| - k)
    case CallingClose(k) => 4 * (|s.open| - k) - 1
    case Stopping(k) => 4 * (|s.open| - k) - 2
    case Resetting => 1
    case _ => 0
  }

  /** The closer's own next step. */
  function NextOf(c: Closer): Action {
    match c
    case Sending(_) => SendDone
    case ClosingChannel(_) => CloseDone
    case CallingClose(_) => CloseCall
    case Stopping(_) => Stop
    case _ => Reset
  }

  lemma ClosingStep(s: State, a: Action)
    requires Inv(s) && Healthy(s) && Closing(s) && Enabled(s, a) && !a.BeatFail?
    ensures var t := Apply(s, a);
            if a.Reset? then t.finished == s.finished + 1
            else
              && t.finished == s.finished && t.open == s.open && Healthy(t) && Closing(t)
              && 0 < Rank(t) <= Rank(s)
              && (a == NextOf(s.closer) ==> Rank(t) < Rank(s))
              && (a != NextOf(s.closer) ==> t.closer == s.closer)
              && (a != NextOf(s.closer) && Enabled(s, NextOf(s.closer)) ==> Enabled(t, NextOf(t.closer)))
  {
    if Local(a) {
      LocalClosingStep(s, a);
    } else if !s.closer.Resetting? {
      var k := s.closer.k;
      assert AsExpected(s.closer, k, k, s.drivers[s.open[k]]);
    }
  }

  lemma LocalClosingStep(s: State, a: Action)
    requires Inv(s) && Healthy(s) && Closing(s) && Enabled(s, a) && Local(a) && !a.BeatFail?
    ensures var t := Apply(s, a);
            && t.finished == s.finished && t.open == s.open && Healthy(t) && t.closer == s.closer && 0 < Rank(s)
            && (Enabled(s, NextOf(s.closer)) ==> Enabled(t, NextOf(t.closer)))
  {
    RankPositive(s);
    if !s.closer.Resetting? {
      var k := s.closer.k;
      assert AsExpected(s.closer, k, k, s.drivers[s.open[k]]);
    }
  }

  /** What holds from `t0` on, until the `Close` that is in progress at `t0` has finished. */
  lemma {:induction false} UntilFinished(b: nat -> State, e: nat -> Event, t0: nat, t: nat)
    requires Behaviour(b, e) && HeartbeatsSucceed(b, e)
    requires t0 <= t && Inv(b(t0)) && Healthy(b(t0)) && Closing(b(t0))
    ensures Inv(b(t)) && b(t).finished >= b(t0).finished
    ensures b(t).finished == b(t0).finished ==>
              && b(t).open == b(t0).open && Healthy(b(t)) && Closing(b(t)) && 0 < Rank(b(t)) <= Rank(b(t0))
              && (Rank(b(t)) == Rank(b(t0)) ==>
                    && b(t).closer == b(t0).closer
                    && (Enabled(b(t0), NextOf(b(t0).closer)) ==> Enabled(b(t), NextOf(b(t).closer))))
    decreases t - t0
  {
    if t0 < t {
      UntilFinished(b, e, t0, t - 1);
      assert StepAt(b, e, t - 1);
      if e(t - 1).Take? {
        StepKeepsInv(b(t - 1), e(t - 1).a);
        if b(t - 1).finished == b(t0).finished {
          ClosingStep(b(t - 1), e(t - 1).a);
        }
      }
      RankPositive(b(t0));
    } else {
      RankPositive(b(t0));
    }
  }

  lemma RankPositive(s: State)
    requires Inv(s) && Closing(s)
    ensures Rank(s) > 0
  {
  }

  lemma {:induction false} FindReset(b: nat -> State, e: nat -> Event, t: nat, u: nat) returns (v: nat)
    requires Behaviour(b, e) && t <= u && b(t).finished < b(u).finished
    ensures t <= v && e(v) == Take(Reset) && b(v).finished == b(t).finished
    decreases u - t
  {
    assert StepAt(b, e, t);
    if e(t) == Take(Reset) {
      v := t;
    } else {
      v := FindReset(b, e, t + 1, u);
    }
  }

  /** Once the closer's next step is enabled it is taken. */
  lemma EnabledMoves(b: nat -> State, e: nat -> Event, t: nat) returns (u: nat)
    requires Behaviour(b, e) && Fair(b, e) && HeartbeatsSucceed(b, e)
    requires Inv(b(t)) && Healthy(b(t)) && Closing(b(t)) && Enabled(b(t), NextOf(b(t).closer))
    ensures t < u && (b(u).finished > b(t).finished || Rank(b(u)) < Rank(b(t)))
  {
    var a := NextOf(b(t).closer);
    assert EventuallyServed(b, e, a, t);
    u :| t <= u && DisabledOrTaken(b, e, a, u);
    UntilFinished(b, e, t, u);
    if b(u).finished == b(t).finished && Rank(b(u)) == Rank(b(t)) {
      assert StepAt(b, e, u);
      ClosingStep(b(u), a);
      u := u + 1;
    }
  }

  lemma EnabledWhen(s: State)
    requires Inv(s) && Healthy(s) && Closing(s)
    requires s.closer.Sending? ==> NotCalling(s, s.open[s.closer.k])
    requires s.closer.Stopping? ==> !s.drivers[s.open[s.closer.k]].exec.Attaching?
    ensures Enabled(s, NextOf(s.closer))
  {
    if !s.closer.Resetting? {
      assert AsExpected(s.closer, s.closer.k, s.closer.k, s.drivers[s.open[s.closer.k]]);
      assert Consistent(s.drivers[s.open[s.closer.k]]);
    }
  }

  /** The `execServer` of the driver being stopped reaches its select. */
  lemma ReachesLoop(b: nat -> State, e: nat -> Event, t: nat, d: nat) returns (u: nat)
    requires Behaviour(b, e) && Fair(b, e)
    ensures t <= u && !Enabled(b(u), ExecReady(d))
  {
    assert EventuallyServed(b, e, ExecReady(d), t);
    u :| t <= u && DisabledOrTaken(b, e, ExecReady(d), u);
    if Enabled(b(u), ExecReady(d)) {
      assert StepAt(b, e, u);
      u := u + 1;
    }
  }

  /** The closer always gets to a point where its next step is enabled, or moves. */
  lemma BecomesEnabled(b: nat -> State, e: nat -> Event, t: nat) returns (u: nat)
    requires Behaviour(b, e) && Fair(b, e) && HeartbeatsSucceed(b, e)
    requires Inv(b(t)) && Healthy(b(t)) && Closing(b(t))
    ensures t <= u && Inv(b(u))
    ensures b(u).finished > b(t).finished || Rank(b(u)) < Rank(b(t)) || Enabled(b(u), NextOf(b(u).closer))
  {
    u := t;
    var c := b(t).closer;
    if c.Sending? {
      var d := b(t).open[c.k];
      assert CallReturns(b, d, t);
      u :| t <= u && NotCalling(b(u), d);
    } else if c.Stopping? {
      u := ReachesLoop(b, e, t, b(t).open[c.k]);
    }
    UntilFinished(b, e, t, u);
    if b(u).finished == b(t).finished && Rank(b(u)) == Rank(b(t)) {
      EnabledWhen(b(u));
    }
  }

  /** If every opened driver's constructor succeeded and no heartbeat call fails, a fair `Close` that has
      begun finishes: at its last step every driver ever opened is shut down, and the list becomes empty. */
  lemma {:induction false} CloseFinishes(b: nat -> State, e: nat -> Event, t: nat) returns (u: nat)
    requires Behaviour(b, e) && Fair(b, e) && HeartbeatsSucceed(b, e)
    requires Inv(b(t)) && Healthy(b(t)) && Closing(b(t))
    ensures t < u && b(u).finished == b(t).finished + 1 && b(u).closer.Idle? && b(u).open == []
    ensures |b(u).drivers| >= |b(t).drivers| && forall d :: 0 <= d < |b(u).drivers| ==> Shut(b(u).drivers[d])
    decreases Rank(b(t))
  {
    RankPositive(b(t));
    var v := BecomesEnabled(b, e, t);
    UntilFinished(b, e, t, v);
    if b(v).finished == b(t).finished && Rank(b(v)) == Rank(b(t)) {
      v := EnabledMoves(b, e, v);
      UntilFinished(b, e, t, v);
    }
    if b(v).finished == b(t).finished {
      u := CloseFinishes(b, e, v);
      DriversOnlyGrow(b, e, t, v);
    } else {
      u := AtReset(b, e, t, v);
    }
  }

  /** Between a `Close` in progress and one that has finished lies its last step. */
  lemma AtReset(b: nat -> State, e: nat -> Event, t: nat, v: nat) returns (u: nat)
    requires Behaviour(b, e) && HeartbeatsSucceed(b, e) && t <= v && b(t).finished < b(v).finished
    requires Inv(b(t)) && Healthy(b(t)) && Closing(b(t))
    ensures t < u && b(u).finished == b(t).finished + 1 && b(u).closer.Idle? && b(u).open == []
    ensures |b(u).drivers| >= |b(t).drivers| && forall d :: 0 <= d < |b(u).drivers| ==> Shut(b(u).drivers[d])
  {
    var w := FindReset(b, e, t, v);
    UntilFinished(b, e, t, w);
    assert StepAt(b, e, w);
    ResetKeepsInv(b(w));
    DriversOnlyGrow(b, e, t, w);
    u := w + 1;
  }

  lemma {:induction false} DriversOnlyGrow(b: nat -> State, e: nat -> Event, t: nat, u: nat)
    requires Behaviour(b, e) && t <= u
    ensures |b(t).drivers| <= |b(u).drivers|
    decreases u - t
  {
    if t < u {
      DriversOnlyGrow(b, e, t, u - 1);
      assert StepAt(b, e, u - 1);
    }
  }

  /** Every server that is gone was told to go. */
  ghost predicate AllTold(s: State) {
    forall d :: 0 <= d < |s.drivers| && s.drivers[d].server.Exited? ==> s.drivers[d].told
  }

  lemma {:induction false} StaysTold(b: nat -> State, e: nat -> Event, t: nat, u: nat)
    requires Behaviour(b, e) && t <= u && AllTold(b(t))
    requires forall v: nat :: t <= v < u ==> !(e(v).Take? && e(v).a.ServerTimeout?)
    ensures AllTold(b(u))
    decreases u - t
  {
    if t < u {
      StaysTold(b, e, t, u - 1);
      assert StepAt(b, e, u - 1);
    }
  }

  /** If moreover no server gives up waiting for a beat, then `Close` has told every server to close. */
  lemma CloseTellsEveryServer(b: nat -> State, e: nat -> Event, t: nat) returns (u: nat)
    requires Behaviour(b, e) && Fair(b, e) && HeartbeatsSucceed(b, e)
    requires Inv(b(t)) && Healthy(b(t)) && Closing(b(t)) && AllTold(b(t))
    requires forall v: nat :: t <= v ==> !(e(v).Take? && e(v).a.ServerTimeout?)
    ensures t < u && b(u).finished == b(t).finished + 1 && b(u).open == []
    ensures forall d :: 0 <= d < |b(u).drivers| ==> Shut(b(u).drivers[d]) && b(u).drivers[d].told
  {
    u := CloseFinishes(b, e, t);
    StaysTold(b, e, t, u);
  }

  /** After that, every `execServer` of a shut driver returns: its process is gone, so `Wait` comes back. */
  lemma ExecServerReturns(b: nat -> State, e: nat -> Event, t: nat, d: nat) returns (u: nat)
    requires Behaviour(b, e) && Fair(b, e) && Inv(b(t)) && d < |b(t).drivers| && Shut(b(t).drivers[d])
    ensures t <= u && d < |b(u).drivers| && b(u).drivers[d].exec.Ended?
  {
    assert EventuallyServed(b, e, ExecEnd(d), t);
    u :| t <= u && DisabledOrTaken(b, e, ExecEnd(d), u);
    StaysShut(b, e, t, u, d);
    if Enabled(b(u), ExecEnd(d)) {
      assert StepAt(b, e, u);
      u := u + 1;
    }
  }

  lemma {:induction false} StaysShut(b: nat -> State, e: nat -> Event, t: nat, u: nat, d: nat)
    requires Behaviour(b, e) && Inv(b(t)) && t <= u && d < |b(t).drivers| && Shut(b(t).drivers[d])
    ensures Inv(b(u)) && d < |b(u).drivers| && Shut(b(u).drivers[d])
    decreases u - t
  {
    if t < u {
      StaysShut(b, e, t, u - 1, d);
      assert StepAt(b, e, u - 1);
      if e(u - 1).Take? {
        StepKeepsInv(b(u - 1), e(u - 1).a);
        ShutStep(b(u - 1), e(u - 1).a, d);
      }
    }
  }

  lemma ShutStep(s: State, a: Action, d: nat)
    requires Inv(s) && Enabled(s, a) && d < |s.drivers| && Shut(s.drivers[d])
    ensures d < |Apply(s, a).drivers| && Shut(Apply(s, a).drivers[d])
  {
    if Local(a) {
      LocalStepKeepsDriver(s, a);
    } else if a.SendDone? || a.CloseDone? || a.CloseCall? || a.Stop? {
      assert AsExpected(s.closer, s.closer.k, s.closer.k, s.drivers[s.open[s.closer.k]]);
    }
  }

  /** `Close` itself may return before `execServer` does: it only waits for the stop message to be taken. */
  lemma CloseMayReturnBeforeExecServer() returns (acts: seq<Action>, t: State)
    ensures Run(INIT, acts, t) && t.finished == 1 && t.open == []
    ensures |t.drivers| == 1 && t.drivers[0].exec.Waiting? && t.drivers[0].told
  {
    var d := NEW_DRIVER.(ctor := Ready, hb := Selecting, exec := Looping);
    acts := OpenOne(d);
    acts := SendOne(d, acts);
    t, acts := StopOne(d.(hb := Returned, sends := 1, closes := 1), acts);
  }

  lemma StopOne(d: Driver, before: seq<Action>) returns (t: State, acts: seq<Action>)
    requires d.ctor.Ready? && d.server.Serving? && d.exec.Looping? && Run(INIT, before, One(d, CallingClose(0), 0))
    ensures Run(INIT, acts, t) && t.finished == 1 && t.open == []
    ensures |t.drivers| == 1 && t.drivers[0].exec.Waiting? && t.drivers[0].told
  {
    var d1 := d.(server := Exited, told := true);
    t, acts := ExtendOne(before, One(d, CallingClose(0), 0), CloseCall, One(d1, Stopping(0), 0));
    t, acts := ExtendOne(acts, t, Stop, One(d1.(exec := Waiting), Resetting, 0));
    t, acts := Extend(acts, t, Reset);
  }

  lemma SendOne(d: Driver, before: seq<Action>) returns (acts: seq<Action>)
    requires d.hb.Selecting? && d.sends == d.closes == 0 && Run(INIT, before, One(d, Idle, 0))
    ensures Run(INIT, acts, One(d.(hb := Returned, sends := 1, closes := 1), CallingClose(0), 0))
  {
    var t: State;
    t, acts := ExtendOne(before, One(d, Idle, 0), BeginClose, One(d, Sending(0), 0));
    var d1 := d.(hb := Returned, sends := 1);
    t, acts := ExtendOne(acts, t, SendDone, One(d1, ClosingChannel(0), 0));
    t, acts := ExtendOne(acts, t, CloseDone, One(d1.(closes := 1), CallingClose(0), 0));
  }

  lemma OpenOne(d: Driver) returns (acts: seq<Action>)
    requires d == NEW_DRIVER.(ctor := Ready, hb := Selecting, exec := Looping)
    ensures Run(INIT, acts, One(d, Idle, 0))
  {
    var t: State;
    t, acts := Extend([], INIT, Register);
    assert t == One(NEW_DRIVER, Idle, 0);
    var d1 := NEW_DRIVER.(exec := Looping);
    t, acts := ExtendOne(acts, t, ExecReady(0), One(d1, Idle, 0));
    t, acts := ExtendOne(acts, t, HandshakeOk(0), One(d.(ctor := Configuring), Idle, 0));
    t, acts := ExtendOne(acts, t, ConfigOk(0), One(d, Idle, 0));
  }

  /** A factory with one driver. */
  function One(d: Driver, c: Closer, finished: nat): State {
    State([d], [0], c, finished)
  }

  lemma ExtendOne(before: seq<Action>, s: State, a: Action, want: State) returns (t: State, after: seq<Action>)
    requires Run(INIT, before, s) && Enabled(s, a) && Apply(s, a) == want
    ensures t == want && Run(INIT, after, t)
  {
    t, after := Extend(before, s, a);
  }

  lemma Extend(before: seq<Action>, s: State, a: Action) returns (t: State, after: seq<Action>)
    requires Run(INIT, before, s) && Enabled(s, a)
    ensures t == Apply(s, a) && Run(INIT, after, t)
  {
    t, after := Apply(s, a), before + [a];
    RunAppend(INIT, before, s, a);
  }

  lemma {:induction false} RunAppend(s: State, acts: seq<Action>, t: State, a: Action)
    requires Run(s, acts, t) && Enabled(t, a)
    ensures Run(s, acts + [a], Apply(t, a))
    decreases |acts|
  {
    if acts == [] {
      assert [a][1..] == [];
      assert Run(Apply(t, a), [], Apply(t, a));
      assert acts + [a] == [a];
    } else {
      RunAppend(Apply(s, acts[0]), acts[1..], t, a);
      assert (acts + [a])[1..] == acts[1..] + [a];
    }
  }
}
