/** Why the machines of a command have to be distinct: for every list of names with a repetition there is a run of
    `stop` whose errors are not those of the plain loop, so distinctness is exactly what the refinement needs. */
module DuplicateNames {
  import opened Basics
  import opened HostActions
  import opened ActionRunner

  /** A driver that does what it is told; the machine is its state. */
  function Obedient(op: Op, d: VmState): (VmState, Reply) {
    if op == StopOp then (Stopped, Reply(Stopped, None)) else (d, Reply(d, None))
  }

  function StopProgram(attempts: nat): Program {
    CheckActPoll(StopOp, Stopped, attempts, Return(None))
  }

  /** The machines that are named, each in state `d`, but those named among the first `k` in state `e`. */
  ghost function Vms(ns: seq<string>, k: nat, d: VmState, e: VmState): (vms: map<string, VmState>)
    requires k <= |ns|
  {
    map n | n in ns :: if Met(ns, k, n) then e else d
  }

  /** The name is among the first `k`. */
  ghost predicate Met<N>(ns: seq<N>, k: nat, name: N)
    requires k <= |ns|
  {
    exists i :: 0 <= i < k && ns[i] == name
  }

  /** `stop` with the names `ns`, of machines that all run; `serial` says which of them are VirtualBox hosts. */
  ghost function StopAll(ns: seq<string>, serial: seq<bool>, attempts: nat): (c: Config<VmState>)
    requires |serial| == |ns|
    ensures |c.hosts| == |ns| && c.vms.Keys == set n | n in ns
    ensures forall i :: 0 <= i < |ns| ==> c.hosts[i] == Host(ns[i], serial[i], StopProgram(attempts))
    ensures c.drv == Obedient && c.vms == Vms(ns, 0, Running, Running)
  {
    Config(seq(|ns|, i requires 0 <= i < |ns| => Host(ns[i], serial[i], StopProgram(attempts))),
           Obedient, Vms(ns, 0, Running, Running))
  }

  /** Where the command is when the first `k` goroutines have `q` left to run and the others `p`. */
  ghost function Mixed(ns: seq<string>, p: Program, q: Program, d: VmState, e: VmState, k: nat): State<VmState>
    requires k <= |ns|
  {
    State(Vms(ns, k, d, e), seq(|ns|, i => if i < k then Idle(q) else Idle(p)), None, Receiving, |ns|, 0, [], false, 0)
  }

  ghost predicate Reaches(c: Config<VmState>, s: State<VmState>) {
    |Init(c).workers| == |c.hosts| && exists acts :: Run(c, Init(c), acts, s)
  }

  lemma Go(c: Config<VmState>, s: State<VmState>, a: Action)
    requires Reaches(c, s)
    ensures |s.workers| == |c.hosts| && (Enabled(c, s, a) ==> Reaches(c, Apply(c, s, a)))
  {
    var acts :| Run(c, Init(c), acts, s);
    RunExtend(c, Init(c), acts, s, a);
    if Enabled(c, s, a) { assert Run(c, Init(c), acts + [a], Apply(c, s, a)); }
  }

  // ----- the schedule: all check, then all stop, then all poll

  ghost function Spawned(ns: seq<string>, p: Program, k: nat): State<VmState>
    requires k <= |ns|
  {
    State(Vms(ns, 0, Running, Running), seq(|ns|, i => if i < k then Idle(p) else NotStarted),
          None, Spawning, k, 0, [], false, 0)
  }

  lemma {:induction false} SpawnAll(ns: seq<string>, serial: seq<bool>, attempts: nat, k: nat)
    requires |serial| == |ns| && k <= |ns|
    ensures Reaches(StopAll(ns, serial, attempts), Spawned(ns, StopProgram(attempts), k))
  {
    var c, p := StopAll(ns, serial, attempts), StopProgram(attempts);
    if k == 0 {
      assert Run(c, Init(c), [], Init(c));
      assert Init(c).workers == Spawned(ns, p, 0).workers;
    } else {
      SpawnAll(ns, serial, attempts, k - 1);
      var s := Spawned(ns, p, k - 1);
      Go(c, s, Spawn);
      assert Apply(c, s, Spawn).workers == Spawned(ns, p, k).workers;
    }
  }

  /** One goroutine makes the next call of its program, under the lock if its driver is serial. */
  lemma OneCall(c: Config<VmState>, s: State<VmState>, i: nat)
    requires Reaches(c, s) && |s.workers| == |c.hosts| && i < |c.hosts| && c.hosts[i].name in s.vms
    requires s.lock == None && s.workers[i].Idle? && !s.workers[i].p.Return?
    ensures var p, name := s.workers[i].p, c.hosts[i].name;
            var (d, r) := c.drv(p.Pending(), s.vms[name]);
            Reaches(c, s.(vms := s.vms[name := d], workers := s.workers[i := Idle(p.Resume(r))]))
  {
    var p, name := s.workers[i].p, c.hosts[i].name;
    var (d, r) := c.drv(p.Pending(), s.vms[name]);
    var done := s.(vms := s.vms[name := d], workers := s.workers[i := Idle(p.Resume(r))]);
    if c.NeedsLock(i, p) {
      Go(c, s, Acquire(i));
      var s1 := Apply(c, s, Acquire(i));
      Go(c, s1, Enter(i));
      var s2 := Apply(c, s1, Enter(i));
      Go(c, s2, Answer(i));
      var s3 := Apply(c, s2, Answer(i));
      Go(c, s3, Release(i));
      assert Apply(c, s3, Release(i)) == done;
    } else {
      Go(c, s, Enter(i));
      var s1 := Apply(c, s, Enter(i));
      Go(c, s1, Answer(i));
      assert Apply(c, s1, Answer(i)) == done;
    }
  }

  /** Whether its machine was served before or not, the call leads from `p` to `q` and leaves the machine in `e`. */
  predicate Uniform(p: Program, q: Program, d: VmState, e: VmState) {
    && !p.Return?
    && Obedient(p.Pending(), d).0 == e == Obedient(p.Pending(), e).0
    && p.Resume(Obedient(p.Pending(), d).1) == q == p.Resume(Obedient(p.Pending(), e).1)
  }

  lemma {:induction false} Round(ns: seq<string>, c: Config<VmState>, p: Program, q: Program, d: VmState, e: VmState,
                                 k: nat)
    requires |c.hosts| == |ns| && c.drv == Obedient && (forall i :: 0 <= i < |ns| ==> c.hosts[i].name == ns[i])
    requires Uniform(p, q, d, e) && k <= |ns| && Reaches(c, Mixed(ns, p, q, d, e, 0))
    ensures Reaches(c, Mixed(ns, p, q, d, e, k))
  {
    if k > 0 {
      var i := k - 1;
      Round(ns, c, p, q, d, e, i);
      var s := Mixed(ns, p, q, d, e, i);
      OneCall(c, s, i);
      assert s.workers[i := Idle(q)] == Mixed(ns, p, q, d, e, k).workers;
      NextVms(ns, i, d, e);
    }
  }

  lemma MetNext<N>(ns: seq<N>, i: nat, name: N)
    requires i < |ns|
    ensures Met(ns, i + 1, name) <==> Met(ns, i, name) || name == ns[i]
  {
    if j :| 0 <= j < i && ns[j] == name { assert Met(ns, i + 1, name); }
    if name == ns[i] { assert Met(ns, i + 1, name); }
  }

  lemma NextVms(ns: seq<string>, i: nat, d: VmState, e: VmState)
    requires i < |ns|
    ensures Vms(ns, i, d, e)[ns[i] := e] == Vms(ns, i + 1, d, e)
  {
    forall n | n in ns
      ensures Met(ns, i + 1, n) <==> Met(ns, i, n) || n == ns[i]
    {
      MetNext(ns, i, n);
    }
  }

  lemma Relabel(ns: seq<string>, p: Program, q: Program, r: Program, d: VmState, e: VmState, f: VmState)
    ensures Mixed(ns, p, q, d, e, |ns|) == Mixed(ns, q, r, e, f, 0)
  {
    assert Vms(ns, |ns|, d, e) == Vms(ns, 0, e, f) by {
      assert forall n :: n in ns ==> Met(ns, |ns|, n) && !Met(ns, 0, n);
    }
    assert Mixed(ns, p, q, d, e, |ns|).workers == Mixed(ns, q, r, e, f, 0).workers;
  }

  /** All goroutines have returned without an error. */
  lemma AllReturn(ns: seq<string>, serial: seq<bool>, attempts: nat)
    requires |serial| == |ns| && attempts > 0
    ensures Reaches(StopAll(ns, serial, attempts), Mixed(ns, Return(None), Return(None), Stopped, Stopped, 0))
  {
    var c, p := StopAll(ns, serial, attempts), StopProgram(attempts);
    var q := p.no;
    SpawnAll(ns, serial, attempts, |ns|);
    var s := Spawned(ns, p, |ns|);
    Go(c, s, Spawn);
    assert Apply(c, s, Spawn).workers == Mixed(ns, p, q, Running, Running, 0).workers;
    Round(ns, c, p, q, Running, Running, |ns|);
    Relabel(ns, p, q, q.next, Running, Running, Stopped);
    Round(ns, c, q, q.next, Running, Stopped, |ns|);
    Relabel(ns, q, q.next, Return(None), Running, Stopped, Stopped);
    Round(ns, c, q.next, Return(None), Stopped, Stopped, |ns|);
    Relabel(ns, q.next, Return(None), Return(None), Stopped, Stopped, Stopped);
  }

  ghost function Delivered(ns: seq<string>, k: nat): State<VmState>
    requires k <= |ns|
  {
    State(Vms(ns, 0, Stopped, Stopped), seq(|ns|, i => if i < k then Sent else Idle(Return(None))),
          None, Receiving, |ns|, k, [], false, 0)
  }

  lemma {:induction false} DeliverAll(ns: seq<string>, c: Config<VmState>, k: nat)
    requires |c.hosts| == |ns| && k <= |ns| && Reaches(c, Delivered(ns, 0))
    ensures Reaches(c, Delivered(ns, k))
  {
    if k > 0 {
      DeliverAll(ns, c, k - 1);
      var s := Delivered(ns, k - 1);
      Go(c, s, Deliver(k - 1));
      assert s.workers[k - 1 := Sent] == Delivered(ns, k).workers;
    }
  }

  /** A run of `stop` that ends without any error, whatever the names. */
  lemma NoErrors(ns: seq<string>, serial: seq<bool>, attempts: nat) returns (acts: seq<Action>, t: State<VmState>)
    requires |serial| == |ns| && attempts > 0
    ensures var c := StopAll(ns, serial, attempts);
            |Init(c).workers| == |c.hosts| && Run(c, Init(c), acts, t) && t.closed && t.errs == []
  {
    var c := StopAll(ns, serial, attempts);
    AllReturn(ns, serial, attempts);
    assert Delivered(ns, 0).workers == Mixed(ns, Return(None), Return(None), Stopped, Stopped, 0).workers;
    DeliverAll(ns, c, |ns|);
    Go(c, Delivered(ns, |ns|), CloseChannel);
    t := Apply(c, Delivered(ns, |ns|), CloseChannel);
    acts :| Run(c, Init(c), acts, t);
  }

  // ----- the loop

  lemma Alone(attempts: nat)
    requires attempts > 0
    ensures RunAlone(Obedient, Running, StopProgram(attempts)) == (Stopped, None)
    ensures RunAlone(Obedient, Stopped, StopProgram(attempts)) == (Stopped, Some(AlreadyInState(Stopped)))
  {
    var p := StopProgram(attempts);
    var q := p.no;
    assert RunAlone(Obedient, Stopped, q.next) == (Stopped, None);
    assert RunAlone(Obedient, Running, q) == (Stopped, None);
    assert RunAlone(Obedient, Stopped, p.yes) == (Stopped, Some(AlreadyInState(Stopped)));
  }

  type Effect = VmState -> (VmState, Option<Error>)

  /** The state of one machine, `d` at first, after the first `k` names. */
  ghost function StateAfter<N>(f: Effect, ns: seq<N>, k: nat, d: VmState, name: N): VmState
    requires k <= |ns|
  {
    if k == 0 then d
    else if ns[k - 1] == name then f(StateAfter(f, ns, k - 1, d, name)).0
    else StateAfter(f, ns, k - 1, d, name)
  }

  lemma {:induction false} LoopStates(c: Config<VmState>, p: Program, f: Effect, k: nat, name: string)
    requires c.Valid() && k <= |c.hosts| && name in c.vms
    requires forall i :: 0 <= i < |c.hosts| ==> c.hosts[i].program == p
    requires forall d :: f(d) == RunAlone(c.drv, d, p)
    ensures Sequential(c, k).0[name] == StateAfter(f, Names(c), k, c.vms[name], name)
  {
    if k > 0 { LoopStates(c, p, f, k - 1, name); }
  }

  ghost function Names(c: Config<VmState>): (ns: seq<string>)
    ensures |ns| == |c.hosts| && forall i :: 0 <= i < |ns| ==> ns[i] == c.hosts[i].name
  {
    seq(|c.hosts|, i requires 0 <= i < |c.hosts| => c.hosts[i].name)
  }

  ghost predicate Repeated<N>(ns: seq<N>, j: nat) {
    j < |ns| && Met(ns, j, ns[j])
  }

  /** The effect is to stop a machine, or to complain if it has been stopped. */
  ghost predicate Stops(f: Effect) {
    f(Running) == (Stopped, None) && f(Stopped) == (Stopped, Some(AlreadyInState(Stopped)))
  }

  lemma {:induction false} StoppedOnceMet<N>(f: Effect, ns: seq<N>, k: nat, name: N)
    requires Stops(f) && k <= |ns|
    ensures StateAfter(f, ns, k, Running, name) == if Met(ns, k, name) then Stopped else Running
  {
    if k > 0 {
      StoppedOnceMet(f, ns, k - 1, name);
      MetNext(ns, k - 1, name);
    }
  }

  /** The loop complains about each name that it meets again. */
  lemma {:induction false} LoopComplains(c: Config<VmState>, p: Program, f: Effect, k: nat, j: nat)
    requires c.Valid()
    requires forall i :: 0 <= i < |c.hosts| ==> c.hosts[i].program == p && c.vms[c.hosts[i].name] == Running
    requires (forall d :: f(d) == RunAlone(c.drv, d, p)) && Stops(f) && j < k <= |c.hosts| && Repeated(Names(c), j)
    ensures Sequential(c, k).1 != []
  {
    if j < k - 1 {
      LoopComplains(c, p, f, k - 1, j);
    } else {
      var name := c.hosts[j].name;
      LoopStates(c, p, f, j, name);
      StoppedOnceMet(f, Names(c), j, name);
      assert f(Sequential(c, j).0[name]).1 == Some(AlreadyInState(Stopped));
    }
  }

  // ----- exactly when the refinement holds

  ghost predicate NamesOf(c: Config<VmState>, ns: seq<string>, serial: seq<bool>)
    requires |serial| == |ns|
  {
    |c.hosts| == |ns| && forall i :: 0 <= i < |ns| ==> c.hosts[i].name == ns[i] && c.hosts[i].serial == serial[i]
  }

  /** Whatever the machines and the actions, every run collects the errors of the loop. */
  ghost predicate AlwaysAsTheLoop(ns: seq<string>, serial: seq<bool>)
    requires |serial| == |ns|
  {
    forall c: Config<VmState>, acts, t :: NamesOf(c, ns, serial) && c.Valid() && RunsTo(c, acts, t) ==>
      multiset(t.errs) == multiset(Sequential(c, |c.hosts|).1)
  }

  ghost predicate RunsTo(c: Config<VmState>, acts: seq<Action>, t: State<VmState>) {
    |Init(c).workers| == |c.hosts| && Run(c, Init(c), acts, t) && t.closed
  }

  /** So it is exactly when no name is repeated. */
  lemma DistinctIff(ns: seq<string>, serial: seq<bool>)
    requires |serial| == |ns|
    ensures AlwaysAsTheLoop(ns, serial) <==> forall i, j :: 0 <= i < j < |ns| ==> ns[i] != ns[j]
  {
    if forall i, j :: 0 <= i < j < |ns| ==> ns[i] != ns[j] {
      forall c: Config<VmState>, acts, t | NamesOf(c, ns, serial) && c.Valid() && RunsTo(c, acts, t)
        ensures multiset(t.errs) == multiset(Sequential(c, |c.hosts|).1)
      {
        EveryInterleavingRefinesTheLoop(c, acts, t);
      }
    } else {
      var i, j :| 0 <= i < j < |ns| && ns[i] == ns[j];
      assert Met(ns, j, ns[j]);
      RepetitionLosesErrors(ns, serial, MAX_ATTEMPTS, j);
    }
  }

  lemma RepetitionLosesErrors(ns: seq<string>, serial: seq<bool>, attempts: nat, j: nat)
    requires |serial| == |ns| && attempts > 0 && Repeated(ns, j)
    ensures !AlwaysAsTheLoop(ns, serial)
  {
    var c := StopAll(ns, serial, attempts);
    var acts, t := NoErrors(ns, serial, attempts);
    var p := StopProgram(attempts);
    var f := (d: VmState) => RunAlone(Obedient, d, p);
    Alone(attempts);
    assert Names(c) == ns;
    LoopComplains(c, p, f, |ns|, j);
    var errs := Sequential(c, |ns|).1;
    assert errs[0] in multiset(errs);
    assert NamesOf(c, ns, serial) && RunsTo(c, acts, t);
  }
}
