/** What the states of the shutdown protocol say about the past: each driver's constructor, heartbeat, server and
    `execServer` are where the events of the run have brought them. */
module PluginHistory {
  import opened PluginShutdown
  import opened PluginLiveness
  import opened PluginFinish

  // ----- runs, from their last step

  lemma {:induction false} LastStep(s: State, acts: seq<Action>, t: State) returns (u: State)
    requires acts != [] && Run(s, acts, t)
    ensures var n := |acts| - 1; Run(s, acts[..n], u) && Enabled(u, acts[n]) && t == Apply(u, acts[n])
    decreases |acts|
  {
    var n := |acts| - 1;
    if n == 0 {
      u := s;
      assert acts[1..] == [] && acts[..0] == [];
    } else {
      u := LastStep(Apply(s, acts[0]), acts[1..], t);
      assert acts[1..][n - 1] == acts[n] && acts[1..][..n - 1] == acts[..n][1..];
    }
  }

  // ----- the record of one driver

  ghost function Times(acts: seq<Action>, a: Action): nat {
    multiset(acts)[a]
  }

  /** What the constructor's outcome says. */
  ghost predicate ConstructorRecorded(acts: seq<Action>, d: nat, dr: Driver) {
    && (dr.ctor.HandshakeFailed? <==> HandshakeFail(d) in acts)
    && (dr.ctor.ConfigFailed? <==> ConfigFail(d) in acts)
    && (dr.ctor.Ready? <==> ConfigOk(d) in acts)
    && (dr.ctor.Configuring? ==> HandshakeOk(d) in acts)
    && (dr.ctor.Handshake? ==> HandshakeOk(d) !in acts)
  }

  /** The heartbeat goroutine exists since the handshake, is in a call between a tick and its outcome, and blocks itself
      after a failed beat. */
  ghost predicate HeartbeatRecorded(acts: seq<Action>, d: nat, dr: Driver) {
    && (dr.hb.NotStarted? <==> HandshakeOk(d) !in acts)
    && (dr.hb.SelfClosing? <==> BeatFail(d) in acts)
    && Times(acts, Tick(d)) == Times(acts, BeatOk(d)) + Times(acts, BeatFail(d)) + if dr.hb.Calling? then 1 else 0
  }

  /** The server is gone exactly if it timed out or was told to close. */
  ghost predicate ProcessRecorded(acts: seq<Action>, d: nat, dr: Driver) {
    && (dr.server.Exited? <==> ServerTimeout(d) in acts || dr.told)
    && (dr.exec.Attaching? <==> ExecReady(d) !in acts)
    && (dr.exec.Ended? <==> ExecEnd(d) in acts)
  }

  ghost predicate Recorded(acts: seq<Action>, d: nat, dr: Driver) {
    ConstructorRecorded(acts, d, dr) && HeartbeatRecorded(acts, d, dr) && ProcessRecorded(acts, d, dr)
  }

  /** No event of a driver that does not exist. */
  ghost predicate OnlyExisting(acts: seq<Action>, n: nat) {
    forall i :: 0 <= i < |acts| && Local(acts[i]) ==> acts[i].d < n
  }

  lemma Longer(acts: seq<Action>, a: Action, b: Action)
    ensures b in acts + [a] <==> b in acts || b == a
    ensures Times(acts + [a], b) == Times(acts, b) + if a == b then 1 else 0
  {
  }

  /** Only a driver's own events change its constructor; only they and the closer the rest. */
  lemma Unaffected(s: State, a: Action, d: nat)
    requires Enabled(s, a) && Inv(s) && d < |s.drivers| && !(Local(a) && a.d == d)
    ensures d < |Apply(s, a).drivers|
    ensures var dr, dr' := s.drivers[d], Apply(s, a).drivers[d];
            && dr'.ctor == dr.ctor
            && (dr'.hb == dr.hb || (dr.hb.Selecting? && dr'.hb.Returned?))
            && (dr'.server == dr.server || (dr'.server.Exited? && dr'.told)) && (dr.told ==> dr'.told)
            && (dr'.told && !dr.told ==> dr'.server.Exited?)
            && (dr'.exec == dr.exec || (dr.exec.Looping? && dr'.exec.Waiting?))
  {
    if a.Stop? {
      assert AsExpected(s.closer, s.closer.k, s.closer.k, s.drivers[s.open[s.closer.k]]);
    }
  }

  lemma ConstructorStep(acts: seq<Action>, s: State, a: Action, d: nat)
    requires Enabled(s, a) && Inv(s) && d < |s.drivers| && ConstructorRecorded(acts, d, s.drivers[d])
    ensures d < |Apply(s, a).drivers| && ConstructorRecorded(acts + [a], d, Apply(s, a).drivers[d])
  {
    Longer(acts, a, HandshakeFail(d));
    Longer(acts, a, ConfigFail(d));
    Longer(acts, a, ConfigOk(d));
    Longer(acts, a, HandshakeOk(d));
    if !(Local(a) && a.d == d) { Unaffected(s, a, d); }
  }

  lemma HeartbeatStep(acts: seq<Action>, s: State, a: Action, d: nat)
    requires Enabled(s, a) && Inv(s) && d < |s.drivers| && HeartbeatRecorded(acts, d, s.drivers[d])
    ensures d < |Apply(s, a).drivers| && HeartbeatRecorded(acts + [a], d, Apply(s, a).drivers[d])
  {
    Longer(acts, a, HandshakeOk(d));
    Longer(acts, a, BeatFail(d));
    Longer(acts, a, BeatOk(d));
    Longer(acts, a, Tick(d));
    if Local(a) && a.d == d { assert Consistent(s.drivers[d]); } else { Unaffected(s, a, d); }
  }

  lemma ProcessStep(acts: seq<Action>, s: State, a: Action, d: nat)
    requires Enabled(s, a) && Inv(s) && d < |s.drivers| && ProcessRecorded(acts, d, s.drivers[d])
    ensures d < |Apply(s, a).drivers| && ProcessRecorded(acts + [a], d, Apply(s, a).drivers[d])
  {
    Longer(acts, a, ServerTimeout(d));
    Longer(acts, a, ExecReady(d));
    Longer(acts, a, ExecEnd(d));
    if !(Local(a) && a.d == d) { Unaffected(s, a, d); }
  }

  lemma NewDriver(acts: seq<Action>, d: nat)
    requires OnlyExisting(acts, d)
    ensures Recorded(acts + [Register], d, NEW_DRIVER)
  {
    var all := acts + [Register];
    forall b: Action | Local(b) && b.d == d
      ensures b !in all && Times(all, b) == 0
    {
      Longer(acts, Register, b);
    }
  }

  lemma RecordStep(acts: seq<Action>, s: State, a: Action, d: nat)
    requires Enabled(s, a) && Inv(s) && OnlyExisting(acts, |s.drivers|) && d < |Apply(s, a).drivers|
    requires d < |s.drivers| ==> Recorded(acts, d, s.drivers[d])
    ensures Recorded(acts + [a], d, Apply(s, a).drivers[d])
  {
    if d < |s.drivers| {
      ConstructorStep(acts, s, a, d);
      HeartbeatStep(acts, s, a, d);
      ProcessStep(acts, s, a, d);
    } else {
      NewDriver(acts, d);
    }
  }

  ghost predicate Counted(acts: seq<Action>, t: State) {
    OnlyExisting(acts, |t.drivers|) && |t.drivers| == Times(acts, Register) && t.finished == Times(acts, Reset)
  }

  lemma CountStep(acts: seq<Action>, s: State, a: Action)
    requires Enabled(s, a) && Counted(acts, s)
    ensures Counted(acts + [a], Apply(s, a))
  {
    Longer(acts, a, Register);
    Longer(acts, a, Reset);
  }

  /** In every run: the record of every driver, and how often a driver was registered and a `Close` finished. */
  lemma {:induction false} History(acts: seq<Action>, t: State)
    requires Run(INIT, acts, t)
    ensures Inv(t) && Counted(acts, t)
    ensures forall d: nat :: d < |t.drivers| ==> Recorded(acts, d, t.drivers[d])
    decreases |acts|
  {
    if acts != [] {
      var n := |acts| - 1;
      var front, a := acts[..n], acts[n];
      var u := LastStep(INIT, acts, t);
      History(front, u);
      assert acts == front + [a];
      StepKeepsInv(u, a);
      CountStep(front, u, a);
      forall d: nat | d < |t.drivers|
        ensures Recorded(acts, d, t.drivers[d])
      {
        RecordStep(front, u, a, d);
      }
    }
  }

  // ----- what a failure in the past means for `Close`

  /** The version handshake with the driver's plugin failed, its configuration failed, or a heartbeat call did. */
  ghost predicate Failed(acts: seq<Action>, d: nat) {
    HandshakeFail(d) in acts || ConfigFail(d) in acts || BeatFail(d) in acts
  }

  /** After any of these, as long as the driver is in the open list, no continuation ever finishes a `Close`. */
  lemma DoomedNeverFinishes(acts: seq<Action>, s: State, k: nat, more: seq<Action>, t: State)
    requires Run(INIT, acts, s) && k < |s.open| && Failed(acts, s.open[k]) && Run(s, more, t)
    ensures t.finished == s.finished && k < |t.open| && t.open[k] == s.open[k]
  {
    History(acts, s);
    assert Recorded(acts, s.open[k], s.drivers[s.open[k]]);
    StaysDoomed(s, k, more, t);
  }

  /** And the other two do happen, as the failed handshake does (`FailedHandshakeExample`). */
  lemma FailedConfigExample() returns (t: State)
    ensures Run(INIT, [Register] + [HandshakeOk(0)] + [ConfigFail(0)], t) && !CanFinish(t)
    ensures t == One(NEW_DRIVER.(ctor := ConfigFailed, hb := Selecting), Idle, 0)
  {
    t := Opened();
    RunAppend(INIT, [Register] + [HandshakeOk(0)], t, ConfigFail(0));
    t := Apply(t, ConfigFail(0));
    RunKeepsInv(INIT, [Register] + [HandshakeOk(0)] + [ConfigFail(0)], t);
    CannotFinish(t, 0);
  }

  lemma FailedBeatExample() returns (t: State)
    ensures Run(INIT, [Register] + [HandshakeOk(0)] + [ConfigOk(0)] + [Tick(0)] + [BeatFail(0)], t)
    ensures t.open == [0] && !CanFinish(t)
  {
    var acts := [Register] + [HandshakeOk(0)];
    t := Ticked();
    RunAppend(INIT, acts + [ConfigOk(0)] + [Tick(0)], t, BeatFail(0));
    t := Apply(t, BeatFail(0));
    RunKeepsInv(INIT, acts + [ConfigOk(0)] + [Tick(0)] + [BeatFail(0)], t);
    CannotFinish(t, 0);
  }

  lemma CannotFinish(t: State, k: nat)
    requires Inv(t) && k < |t.open| && !Closable(t.drivers[t.open[k]])
    ensures !CanFinish(t)
  {
    CanFinishIff(t);
  }

  /** A driver that is making a heartbeat call. */
  lemma Ticked() returns (t: State)
    ensures Run(INIT, [Register] + [HandshakeOk(0)] + [ConfigOk(0)] + [Tick(0)], t)
    ensures t == One(NEW_DRIVER.(ctor := Ready, hb := Calling), Idle, 0)
  {
    var acts := [Register] + [HandshakeOk(0)];
    t := Opened();
    RunAppend(INIT, acts, t, ConfigOk(0));
    t := Apply(t, ConfigOk(0));
    RunAppend(INIT, acts + [ConfigOk(0)], t, Tick(0));
    t := Apply(t, Tick(0));
  }

  /** A driver that has passed its handshake. */
  lemma Opened() returns (t: State)
    ensures Run(INIT, [Register] + [HandshakeOk(0)], t)
    ensures t == One(NEW_DRIVER.(ctor := Configuring, hb := Selecting), Idle, 0)
  {
    RunAppend(INIT, [], INIT, Register);
    assert [] + [Register] == [Register];
    t := Apply(INIT, Register);
    RunAppend(INIT, [Register], t, HandshakeOk(0));
    t := Apply(t, HandshakeOk(0));
  }

  /** A server that has given up waiting for beats is not told to close, and `Close` finishes all the same: the
      hypothesis of `CloseTellsEveryServer` is needed. */
  lemma UntoldExample() returns (acts: seq<Action>, t: State)
    ensures Run(INIT, acts, t) && ServerTimeout(0) in acts
    ensures t.finished == 1 && |t.drivers| == 1 && Shut(t.drivers[0]) && !t.drivers[0].told
  {
    var d := NEW_DRIVER.(ctor := Ready, hb := Selecting, exec := Looping);
    acts := OpenOne(d);
    var gone := d.(server := Exited);
    t, acts := ExtendOne(acts, One(d, Idle, 0), ServerTimeout(0), One(gone, Idle, 0));
    acts := SendOne(gone, acts);
    t, acts := StopGone(gone.(hb := Returned, sends := 1, closes := 1), acts);
    History(acts, t);
    assert Recorded(acts, 0, t.drivers[0]);
  }

  lemma StopGone(d: Driver, before: seq<Action>) returns (t: State, acts: seq<Action>)
    requires d.ctor.Ready? && d.server.Exited? && !d.told && d.exec.Looping?
    requires Run(INIT, before, One(d, CallingClose(0), 0))
    ensures Run(INIT, acts, t) && t == State([d.(exec := Waiting)], [], Idle, 1)
  {
    t, acts := ExtendOne(before, One(d, CallingClose(0), 0), CloseCall, One(d, Stopping(0), 0));
    t, acts := ExtendOne(acts, t, Stop, One(d.(exec := Waiting), Resetting, 0));
    t, acts := Extend(acts, t, Reset);
  }

  /** And a `Close` that gets to a driver whose configuration failed does not block there: it panics. */
  lemma NilPluginExample() returns (acts: seq<Action>, t: State)
    ensures Run(INIT, acts, t) && ConfigFail(0) in acts && t.closer == Panicked(0, NilPlugin)
  {
    var d := NEW_DRIVER.(ctor := ConfigFailed, hb := Selecting);
    t := FailedConfigExample();
    acts := [Register] + [HandshakeOk(0)] + [ConfigFail(0)];
    assert t == One(d, Idle, 0);
    acts := SendOne(d, acts);
    var closed := d.(hb := Returned, sends := 1, closes := 1);
    var told := closed.(server := Exited, told := true);
    t, acts := ExtendOne(acts, One(closed, CallingClose(0), 0), CloseCall, One(told, Stopping(0), 0));
    t, acts := Extend(acts, t, Stop);
    History(acts, t);
    assert Recorded(acts, 0, t.drivers[0]);
  }
}
