/** The plugin RPC shutdown protocol: the client's heartbeat goroutine, the plugin server's select loop,
    the `execServer` loop and the factory's `Close`, all joined by unbuffered channels. */
module PluginShutdown {

  /** How far `NewRPCClientDriver` got. A driver is in the open list from `Handshake` on, its heartbeat
      goroutine exists from `Configuring` on, and its `plugin` field is set only in `Ready`. */
  datatype Constructor = Handshake | HandshakeFailed | Configuring | ConfigFailed | Ready

  /** The heartbeat goroutine. `SelfClosing` is the goroutine blocked in `close()`, sending on the
      channel of which it is itself the only receiver. */
  datatype Heartbeat = NotStarted | Selecting | Calling | SelfClosing | Returned

  datatype Server = Serving | Exited

  /** `execServer`: before its loop, in its select, in `cmd.Wait`, returned. */
  datatype Exec = Attaching | Looping | Waiting | Ended

  datatype Driver = Driver(
    ctor: Constructor,
    hb: Heartbeat,
    sends: nat,       // values received from heartbeatDoneCh
    closes: nat,      // times heartbeatDoneCh was closed
    server: Server,
    told: bool,       // the server's loop received the Close message
    exec: Exec)

  datatype Panic = NilPlugin | SendOnClosed | CloseOfClosed

  /** The goroutine in `DefaultRPCClientDriverFactory.Close`, working on the k-th opened driver. */
  datatype Closer =
    | Idle
    | Sending(k: nat)
    | ClosingChannel(k: nat)
    | CallingClose(k: nat)
    | Stopping(k: nat)
    | Resetting
    | Panicked(k: nat, why: Panic)

  datatype State = State(drivers: seq<Driver>, open: seq<nat>, closer: Closer, finished: nat)

  datatype Action =
    | Register
    | HandshakeOk(d: nat)
    | HandshakeFail(d: nat)
    | ConfigOk(d: nat)
    | ConfigFail(d: nat)
    | Tick(d: nat)
    | BeatOk(d: nat)
    | BeatFail(d: nat)
    | ServerTimeout(d: nat)
    | ExecReady(d: nat)
    | ExecEnd(d: nat)
    | BeginClose
    | SendDone
    | CloseDone
    | CloseCall
    | Stop
    | Reset

  const INIT := State([], [], Idle, 0)
  const NEW_DRIVER := Driver(Handshake, NotStarted, 0, 0, Serving, false, Attaching)

  /** The opened driver the closer is working on. */
  predicate At(s: State, k: nat) {
    k < |s.open| && s.open[k] < |s.drivers|
  }

  predicate Enabled(s: State, a: Action) {
    match a
    case Register => s.closer.Idle?
    case HandshakeOk(d) => d < |s.drivers| && s.drivers[d].ctor.Handshake? && s.drivers[d].server.Serving?
    case HandshakeFail(d) => d < |s.drivers| && s.drivers[d].ctor.Handshake?
    case ConfigOk(d) => d < |s.drivers| && s.drivers[d].ctor.Configuring? && s.drivers[d].server.Serving?
    case ConfigFail(d) => d < |s.drivers| && s.drivers[d].ctor.Configuring?
    // a parked select takes a waiting sender as soon as there is one, so its timer cannot fire first
    case Tick(d) =>
      && d < |s.drivers| && s.drivers[d].hb.Selecting?
      && !(s.closer.Sending? && At(s, s.closer.k) && s.open[s.closer.k] == d)
    case BeatOk(d) => d < |s.drivers| && s.drivers[d].hb.Calling? && s.drivers[d].server.Serving?
    case BeatFail(d) => d < |s.drivers| && s.drivers[d].hb.Calling?
    case ServerTimeout(d) => d < |s.drivers| && s.drivers[d].server.Serving?
    case ExecReady(d) => d < |s.drivers| && s.drivers[d].exec.Attaching?
    case ExecEnd(d) => d < |s.drivers| && s.drivers[d].exec.Waiting? && s.drivers[d].server.Exited?
    case BeginClose => s.closer.Idle?
    case SendDone =>
      && s.closer.Sending? && At(s, s.closer.k)
      && (s.drivers[s.open[s.closer.k]].hb.Selecting? || s.drivers[s.open[s.closer.k]].closes > 0)
    case CloseDone => s.closer.ClosingChannel? && At(s, s.closer.k)
    case CloseCall => s.closer.CallingClose? && At(s, s.closer.k)
    case Stop =>
      && s.closer.Stopping? && At(s, s.closer.k)
      && (s.drivers[s.open[s.closer.k]].ctor.Ready? ==> s.drivers[s.open[s.closer.k]].exec.Looping?)
    case Reset => s.closer.Resetting?
  }

  function Put(s: State, d: nat, dr: Driver): State
    requires d < |s.drivers|
  {
    s.(drivers := s.drivers[d := dr])
  }

  function Visit(s: State, k: nat): Closer {
    if k < |s.open| then Sending(k) else Resetting
  }

  function Apply(s: State, a: Action): State
    requires Enabled(s, a)
  {
    match a
    case Register => s.(drivers := s.drivers + [NEW_DRIVER], open := s.open + [|s.drivers|])
    case HandshakeOk(d) => Put(s, d, s.drivers[d].(ctor := Configuring, hb := Selecting))
    case HandshakeFail(d) => Put(s, d, s.drivers[d].(ctor := HandshakeFailed))
    case ConfigOk(d) => Put(s, d, s.drivers[d].(ctor := Ready))
    case ConfigFail(d) => Put(s, d, s.drivers[d].(ctor := ConfigFailed))
    case Tick(d) => Put(s, d, s.drivers[d].(hb := Calling))
    case BeatOk(d) => Put(s, d, s.drivers[d].(hb := Selecting))
    case BeatFail(d) => Put(s, d, s.drivers[d].(hb := SelfClosing))
    case ServerTimeout(d) => Put(s, d, s.drivers[d].(server := Exited))
    case ExecReady(d) => Put(s, d, s.drivers[d].(exec := Looping))
    case ExecEnd(d) => Put(s, d, s.drivers[d].(exec := Ended))
    case BeginClose => s.(closer := Visit(s, 0))
    case SendDone =>
      var k := s.closer.k;
      var d := s.open[k];
      if s.drivers[d].closes > 0 then s.(closer := Panicked(k, SendOnClosed))
      else Put(s, d, s.drivers[d].(hb := Returned, sends := s.drivers[d].sends + 1)).(closer := ClosingChannel(k))
    case CloseDone =>
      var k := s.closer.k;
      var d := s.open[k];
      if s.drivers[d].closes > 0 then s.(closer := Panicked(k, CloseOfClosed))
      else Put(s, d, s.drivers[d].(closes := s.drivers[d].closes + 1)).(closer := CallingClose(k))
    case CloseCall =>    // the call fails, and the error is only logged, when the server is gone already
      var k := s.closer.k;
      var d := s.open[k];
      Put(s, d, s.drivers[d].(server := Exited, told := s.drivers[d].told || s.drivers[d].server.Serving?))
      .(closer := Stopping(k))
    case Stop =>
      var k := s.closer.k;
      var d := s.open[k];
      if !s.drivers[d].ctor.Ready? then s.(closer := Panicked(k, NilPlugin))
      else Put(s, d, s.drivers[d].(exec := Waiting)).(closer := Visit(s, k + 1))
    case Reset => s.(open := [], closer := Idle, finished := s.finished + 1)
  }

  ghost predicate Run(s: State, acts: seq<Action>, t: State)
    decreases |acts|
  {
    if acts == [] then s == t else Enabled(s, acts[0]) && Run(Apply(s, acts[0]), acts[1..], t)
  }

  // ----- what every step keeps

  /** Nothing of `close()` has happened to the driver. */
  predicate Untouched(d: Driver) {
    d.sends == 0 && d.closes == 0 && !d.hb.Returned? && (d.exec.Attaching? || d.exec.Looping?)
  }

  /** The driver is shut down: goroutine returned, channel closed once, server gone, exec loop left. */
  predicate Shut(d: Driver) {
    && d.ctor.Ready? && d.hb.Returned? && d.sends == 1 && d.closes == 1 && d.server.Exited?
    && (d.exec.Waiting? || d.exec.Ended?)
  }

  /** The driver at the closer's current position, by the closer's own program counter. */
  predicate InProgress(c: Closer, d: Driver) {
    match c
    case Idle => Untouched(d)
    case Sending(_) => Untouched(d)
    case ClosingChannel(_) => d.hb.Returned? && d.sends == 1 && d.closes == 0 && (d.exec.Attaching? || d.exec.Looping?)
    case CallingClose(_) => d.hb.Returned? && d.sends == 1 && d.closes == 1 && (d.exec.Attaching? || d.exec.Looping?)
    case Stopping(_) =>
      d.hb.Returned? && d.sends == 1 && d.closes == 1 && d.server.Exited? && (d.exec.Attaching? || d.exec.Looping?)
    case Resetting => true
    case Panicked(_, why) => why.NilPlugin? && d.sends == 1 && d.closes == 1 && d.hb.Returned?
  }

  function Position(s: State): nat {
    match s.closer
    case Idle => 0
    case Resetting => |s.open|
    case c => c.k
  }

  predicate Consistent(dr: Driver) {
    && (dr.hb.NotStarted? <==> dr.ctor.Handshake? || dr.ctor.HandshakeFailed?)
    && (dr.hb.Returned? <==> dr.sends == 1)
    && dr.closes <= dr.sends <= 1
  }

  /** The k-th opened driver, when the closer is at position `pos`. */
  predicate AsExpected(c: Closer, pos: nat, k: nat, d: Driver) {
    if k < pos then Shut(d) else if k == pos then InProgress(c, d) else Untouched(d)
  }

  ghost predicate Inv(s: State) {
    && (forall d :: 0 <= d < |s.drivers| ==> Consistent(s.drivers[d]))
    && (forall k :: 0 <= k < |s.open| ==> s.open[k] < |s.drivers|)
    && (forall j, k :: 0 <= j < k < |s.open| ==> s.open[j] != s.open[k])
    && Position(s) <= |s.open|
    && (!s.closer.Idle? && !s.closer.Resetting? ==> Position(s) < |s.open|)
    && (forall k :: 0 <= k < |s.open| ==> AsExpected(s.closer, Position(s), k, s.drivers[s.open[k]]))
    && (forall d :: 0 <= d < |s.drivers| && d !in s.open ==> Shut(s.drivers[d]))
  }

  /** The steps of one driver's own processes. */
  predicate Local(a: Action) {
    !a.Register? && !a.BeginClose? && !a.SendDone? && !a.CloseDone? && !a.CloseCall? && !a.Stop? && !a.Reset?
  }

  lemma LocalStepKeepsDriver(s: State, a: Action)
    requires Local(a) && Enabled(s, a) && Consistent(s.drivers[a.d])
    ensures Apply(s, a) == Put(s, a.d, Apply(s, a).drivers[a.d])
    ensures Consistent(Apply(s, a).drivers[a.d])
    ensures Untouched(s.drivers[a.d]) ==> Untouched(Apply(s, a).drivers[a.d])
    ensures Shut(s.drivers[a.d]) ==> Shut(Apply(s, a).drivers[a.d])
    ensures InProgress(s.closer, s.drivers[a.d]) ==> InProgress(s.closer, Apply(s, a).drivers[a.d])
  {
  }

  /** One driver and the closer's program counter change together. */
  lemma PutKeepsInv(s: State, d: nat, dr: Driver, c: Closer)
    requires Inv(s) && d < |s.drivers| && Consistent(dr)
    requires d !in s.open ==> Shut(dr)
    requires var t := Put(s, d, dr).(closer := c);
             && Position(t) <= |s.open|
             && (!c.Idle? && !c.Resetting? ==> Position(t) < |s.open|)
             && (forall k :: 0 <= k < |s.open| && s.open[k] != d ==>
                   AsExpected(s.closer, Position(s), k, s.drivers[s.open[k]]) ==>
                   AsExpected(c, Position(t), k, s.drivers[s.open[k]]))
             && (forall k :: 0 <= k < |s.open| && s.open[k] == d ==> AsExpected(c, Position(t), k, dr))
    ensures Inv(Put(s, d, dr).(closer := c))
  {
  }

  lemma LocalStepKeepsInv(s: State, a: Action)
    requires Inv(s) && Local(a) && Enabled(s, a)
    ensures Inv(Apply(s, a))
  {
    LocalStepKeepsDriver(s, a);
    PutKeepsInv(s, a.d, Apply(s, a).drivers[a.d], s.closer);
  }

  lemma RegisterKeepsInv(s: State)
    requires Inv(s) && s.closer.Idle?
    ensures Inv(Apply(s, Register))
  {
    var t := Apply(s, Register);
    assert t.open[|s.open|] == |s.drivers|;
    forall d | 0 <= d < |t.drivers| && d !in t.open
      ensures Shut(t.drivers[d])
    {
      assert forall k :: 0 <= k < |s.open| ==> t.open[k] == s.open[k];
      assert d < |s.drivers| && d !in s.open;
    }
  }

  lemma CloserStepKeepsInv(s: State, a: Action)
    requires Inv(s) && Enabled(s, a) && (a.BeginClose? || a.SendDone? || a.CloseDone? || a.CloseCall? || a.Stop?)
    ensures Inv(Apply(s, a))
  {
    var t := Apply(s, a);
    if !a.BeginClose? {
      var k := s.closer.k;
      var d := s.open[k];
      assert AsExpected(s.closer, k, k, s.drivers[d]);
      assert Consistent(s.drivers[d]);
      assert t == Put(s, d, t.drivers[d]).(closer := t.closer);
      PutKeepsInv(s, d, t.drivers[d], t.closer);
    }
  }

  lemma ResetKeepsInv(s: State)
    requires Inv(s) && s.closer.Resetting?
    ensures Inv(Apply(s, Reset))
    ensures forall d :: 0 <= d < |s.drivers| ==> Shut(s.drivers[d])
  {
    forall d | 0 <= d < |s.drivers|
      ensures Shut(s.drivers[d])
    {
      if d in s.open {
        var k :| 0 <= k < |s.open| && s.open[k] == d;
      }
    }
  }

  lemma StepKeepsInv(s: State, a: Action)
    requires Inv(s) && Enabled(s, a)
    ensures Inv(Apply(s, a))
  {
    if Local(a) {
      LocalStepKeepsInv(s, a);
    } else if a.Register? {
      RegisterKeepsInv(s);
    } else if a.Reset? {
      ResetKeepsInv(s);
    } else {
      CloserStepKeepsInv(s, a);
    }
  }

  lemma {:induction false} RunKeepsInv(s: State, acts: seq<Action>, t: State)
    requires Inv(s) && Run(s, acts, t)
    ensures Inv(t)
    decreases |acts|
  {
    if acts != [] {
      StepKeepsInv(s, acts[0]);
      RunKeepsInv(Apply(s, acts[0]), acts[1..], t);
    }
  }

  /** In every run the done channel is used as Go allows: it is closed at most once, only after its one
      value was received, and neither `Close` nor a heartbeat goroutine ever sends on it afterwards. */
  lemma DoneChannelDiscipline(acts: seq<Action>, t: State)
    requires Run(INIT, acts, t)
    ensures t.closer.Panicked? ==> t.closer.why.NilPlugin?
    ensures forall d :: 0 <= d < |t.drivers| ==>
              && t.drivers[d].closes <= t.drivers[d].sends <= 1
              && (t.drivers[d].closes == 1 ==> t.drivers[d].hb.Returned?)
    ensures t.closer.Sending? ==> At(t, t.closer.k) && t.drivers[t.open[t.closer.k]].closes == 0
  {
    RunKeepsInv(INIT, acts, t);
    assert forall d :: 0 <= d < |t.drivers| ==> Consistent(t.drivers[d]);
    if t.closer.Sending? || t.closer.Panicked? {
      assert AsExpected(t.closer, t.closer.k, t.closer.k, t.drivers[t.open[t.closer.k]]);
    }
  }
}
