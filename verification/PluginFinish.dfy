/** Exactly when the factory's `Close` can still finish, in terms of the drivers it has opened. */
module PluginFinish {
  import opened PluginShutdown
  import opened PluginLiveness

  /** The driver has been constructed, or still can be; and its heartbeat goroutine has taken the done message, is at
      its select, or can still get there. */
  predicate Closable(d: Driver) {
    && (d.ctor.Ready? || ((d.ctor.Handshake? || d.ctor.Configuring?) && d.server.Serving?))
    && (d.hb.Returned? || CanReachSelect(d))
  }

  ghost predicate AllClosable(s: State) {
    && !s.closer.Panicked?
    && forall k :: 0 <= k < |s.open| ==> s.open[k] < |s.drivers| && Closable(s.drivers[s.open[k]])
  }

  ghost predicate CanFinish(s: State) {
    exists acts, t :: Run(s, acts, t) && t.finished > s.finished
  }

  // ----- one driver that is not closable is enough

  lemma StaysUnclosable(s: State, k: nat, a: Action)
    requires Inv(s) && k < |s.open| && !Closable(s.drivers[s.open[k]]) && Enabled(s, a)
    ensures var t := Apply(s, a);
            t.finished == s.finished && k < |t.open| && t.open[k] == s.open[k] && !Closable(t.drivers[s.open[k]])
  {
    assert AsExpected(s.closer, Position(s), k, s.drivers[s.open[k]]);
    assert Consistent(s.drivers[s.open[k]]);
    if a.SendDone? || a.CloseDone? || a.CloseCall? || a.Stop? {
      assert s.open[s.closer.k] == s.open[k] ==> s.closer.k == k;
    }
  }

  lemma {:induction false} UnclosableNeverFinishes(s: State, k: nat, acts: seq<Action>, t: State)
    requires Inv(s) && k < |s.open| && !Closable(s.drivers[s.open[k]]) && Run(s, acts, t)
    ensures t.finished == s.finished
    decreases |acts|
  {
    if acts != [] {
      StepKeepsInv(s, acts[0]);
      StaysUnclosable(s, k, acts[0]);
      UnclosableNeverFinishes(Apply(s, acts[0]), k, acts[1..], t);
    }
  }

  lemma {:induction false} PanickedNeverFinishes(s: State, acts: seq<Action>, t: State)
    requires s.closer.Panicked? && Run(s, acts, t)
    ensures t.finished == s.finished
    decreases |acts|
  {
    if acts != [] { PanickedNeverFinishes(Apply(s, acts[0]), acts[1..], t); }
  }

  // ----- and otherwise there is a way

  /** What the driver at the closer's position still has to do before the closer can go on. */
  function Due(d: Driver): nat {
    (if d.ctor.Handshake? then 2 else if d.ctor.Configuring? then 1 else 0)
    + (if d.hb.Calling? then 1 else 0) + (if d.exec.Attaching? then 1 else 0)
  }

  function DueAt(s: State): nat
    requires Inv(s)
  {
    if s.closer.Idle? || s.closer.Resetting? then 0 else Due(s.drivers[s.open[s.closer.k]])
  }

  /** A step towards the end. */
  function Towards(s: State): Action
    requires Inv(s)
  {
    if s.closer.Idle? then BeginClose
    else if s.closer.Resetting? then Reset
    else
      var d := s.open[s.closer.k];
      var dr := s.drivers[d];
      if dr.ctor.Handshake? then HandshakeOk(d)
      else if dr.ctor.Configuring? then ConfigOk(d)
      else if dr.hb.Calling? then BeatOk(d)
      else if dr.exec.Attaching? then ExecReady(d)
      else NextOf(s.closer)
  }

  ghost predicate Nearer(s: State, t: State) {
    && Inv(s) && Inv(t) && AllClosable(t) && Closing(t) && t.finished == s.finished
    && (Rank(t) < Rank(s) || (Rank(t) == Rank(s) && DueAt(t) < DueAt(s)))
  }

  /** While something is due, the driver at the closer's position does it. */
  lemma DriverTowards(s: State)
    requires Inv(s) && AllClosable(s) && Closing(s) && !s.closer.Resetting? && DueAt(s) > 0
    ensures Enabled(s, Towards(s)) && Nearer(s, Apply(s, Towards(s)))
  {
    var k, a := s.closer.k, Towards(s);
    assert AsExpected(s.closer, k, k, s.drivers[s.open[k]]);
    assert Consistent(s.drivers[s.open[k]]);
    DueIsDone(s.closer, s.drivers[s.open[k]], s, a);
    LocalStepKeepsDriver(s, a);
    LocalStepKeepsInv(s, a);
  }

  lemma DueIsDone(c: Closer, dr: Driver, s: State, a: Action)
    requires Inv(s) && AllClosable(s) && Closing(s) && !s.closer.Resetting? && DueAt(s) > 0
    requires c == s.closer && dr == s.drivers[s.open[c.k]] && a == Towards(s) && InProgress(c, dr) && Consistent(dr)
    ensures Local(a) && Enabled(s, a) && a.d == s.open[c.k]
    ensures var dr' := Apply(s, a).drivers[a.d]; Closable(dr') && Due(dr') < Due(dr)
  {
  }

  /** Then the closer goes on. */
  lemma CloserTowards(s: State)
    requires Inv(s) && AllClosable(s) && Closing(s) && !s.closer.Resetting? && DueAt(s) == 0
    ensures Enabled(s, Towards(s)) && Nearer(s, Apply(s, Towards(s)))
  {
    var k, a := s.closer.k, Towards(s);
    assert AsExpected(s.closer, k, k, s.drivers[s.open[k]]);
    assert Consistent(s.drivers[s.open[k]]);
    StepKeepsInv(s, a);
    assert Closable(Apply(s, a).drivers[s.open[k]]);
  }

  /** No `execServer` has returned in between. */
  ghost predicate NoneEnds(s: State, t: State) {
    && |s.drivers| <= |t.drivers|
    && forall d :: 0 <= d < |s.drivers| && t.drivers[d].exec.Ended? ==> s.drivers[d].exec.Ended?
  }

  lemma TowardsEndsNone(s: State)
    requires Inv(s) && Enabled(s, Towards(s))
    ensures NoneEnds(s, Apply(s, Towards(s)))
  {
  }

  lemma {:induction false} Finish(s: State) returns (acts: seq<Action>, t: State)
    requires Inv(s) && AllClosable(s) && Closing(s)
    ensures Run(s, acts, t) && t.finished == s.finished + 1 && NoneEnds(s, t)
    decreases Rank(s), DueAt(s)
  {
    RankPositive(s);
    var a := Towards(s);
    if s.closer.Resetting? {
      TowardsEndsNone(s);
      t := Apply(s, a);
      acts := [a];
      assert Run(t, acts[1..], t);
    } else {
      if DueAt(s) > 0 { DriverTowards(s); } else { CloserTowards(s); }
      TowardsEndsNone(s);
      RankPositive(Apply(s, a));
      var rest;
      rest, t := Finish(Apply(s, a));
      acts := [a] + rest;
      assert acts[1..] == rest;
    }
  }

  /** A `Close`, in progress or yet to come, can still finish exactly when no opened driver stands in its way. */
  lemma CanFinishIff(s: State)
    requires Inv(s)
    ensures CanFinish(s) <==> AllClosable(s)
  {
    if AllClosable(s) {
      var acts, t;
      if s.closer.Idle? {
        var s1 := Apply(s, BeginClose);
        StepKeepsInv(s, BeginClose);
        acts, t := Finish(s1);
        assert ([BeginClose] + acts)[1..] == acts;
        assert Run(s, [BeginClose] + acts, t);
      } else {
        acts, t := Finish(s);
      }
    } else {
      forall acts, t | Run(s, acts, t)
        ensures t.finished == s.finished
      {
        if s.closer.Panicked? {
          PanickedNeverFinishes(s, acts, t);
        } else {
          var k: nat :| k < |s.open| && !Closable(s.drivers[s.open[k]]);
          UnclosableNeverFinishes(s, k, acts, t);
        }
      }
    }
  }

  /** Two steps from the start to a factory that cannot be closed: the handshake with the first plugin fails. */
  lemma FailedHandshakeExample() returns (acts: seq<Action>, t: State)
    ensures acts == [Register, HandshakeFail(0)]
    ensures Run(INIT, acts, t) && Inv(t) && t.open == [0] && |t.drivers| == 1 && t.drivers[0].ctor.HandshakeFailed?
    ensures !CanFinish(t)
  {
    var s := Apply(INIT, Register);
    t := Apply(s, HandshakeFail(0));
    acts := [Register, HandshakeFail(0)];
    assert acts[1..] == [HandshakeFail(0)] && acts[1..][1..] == [];
    assert Run(t, [], t);
    assert Run(s, [HandshakeFail(0)], t);
    RunKeepsInv(INIT, acts, t);
    CanFinishIff(t);
  }

  // ----- whether `Close` waits for `execServer`

  ghost predicate AllEnded(s: State, open: seq<nat>) {
    forall k :: 0 <= k < |open| ==> open[k] < |s.drivers| && s.drivers[open[k]].exec.Ended?
  }

  /** Whenever the `Close` that is in progress has finished, the `execServer` of every driver it closed has returned. */
  ghost predicate WaitsForExec(s: State) {
    forall acts, t :: Run(s, acts, t) && t.finished == s.finished + 1 ==> AllEnded(t, s.open)
  }

  lemma EndedStays(s: State, a: Action, d: nat)
    requires Inv(s) && Enabled(s, a) && d < |s.drivers| && s.drivers[d].exec.Ended?
    ensures d < |Apply(s, a).drivers| && Apply(s, a).drivers[d].exec.Ended?
  {
    if a.Stop? {
      assert AsExpected(s.closer, s.closer.k, s.closer.k, s.drivers[s.open[s.closer.k]]);
    }
  }

  lemma {:induction false} AllEndedStays(s: State, open: seq<nat>, acts: seq<Action>, t: State)
    requires Inv(s) && AllEnded(s, open) && Run(s, acts, t)
    ensures AllEnded(t, open)
    decreases |acts|
  {
    if acts != [] {
      var s' := Apply(s, acts[0]);
      StepKeepsInv(s, acts[0]);
      forall k | 0 <= k < |open|
        ensures open[k] < |s'.drivers| && s'.drivers[open[k]].exec.Ended?
      {
        EndedStays(s, acts[0], open[k]);
      }
      AllEndedStays(s', open, acts[1..], t);
    }
  }

  /** A `Close` in progress that can finish waits for the `execServer` loops exactly if all of them have returned
      already. */
  lemma WaitsForExecIff(s: State)
    requires Inv(s) && AllClosable(s) && Closing(s)
    ensures WaitsForExec(s) <==> AllEnded(s, s.open)
  {
    if AllEnded(s, s.open) {
      forall acts, t | Run(s, acts, t) && t.finished == s.finished + 1
        ensures AllEnded(t, s.open)
      {
        AllEndedStays(s, s.open, acts, t);
      }
    } else {
      var acts, t := Finish(s);
      assert Run(s, acts, t) && NoneEnds(s, t);
    }
  }

  /** So one that is about to begin waits for them exactly if nothing has been opened. */
  lemma CloseWaitsForExecIff(s: State)
    requires Inv(s) && AllClosable(s) && s.closer.Idle?
    ensures WaitsForExec(Apply(s, BeginClose)) <==> s.open == []
  {
    var s' := Apply(s, BeginClose);
    StepKeepsInv(s, BeginClose);
    WaitsForExecIff(s');
    if s.open != [] {
      assert AsExpected(s.closer, 0, 0, s.drivers[s.open[0]]);
    }
  }
}
