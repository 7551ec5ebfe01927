/** `runActionForeachMachine` as a step system: one goroutine per machine, the mutex that every
    VirtualBox `SerialDriver` shares, the unbuffered error channel and the collecting main goroutine,
    followed by the loop that saves the hosts. */
module ActionRunner {
  import opened Basics
  import opened HostActions

  /** `serial` says that the host's driver is wrapped in a `SerialDriver` (VirtualBox hosts). */
  datatype Host = Host(name: string, serial: bool, program: Program)

  datatype Config<!D> = Config(hosts: seq<Host>, drv: Driver<D>, vms: map<string, D>) {
    ghost predicate Valid() {
      forall i :: 0 <= i < |hosts| ==> hosts[i].name in vms
    }

    ghost predicate Distinct() {
      forall i, j :: 0 <= i < j < |hosts| ==> hosts[i].name != hosts[j].name
    }

    /** A driver method of a serial driver runs under the lock; a guest probe never does. */
    predicate NeedsLock(i: nat, p: Program)
      requires i < |hosts|
    {
      hosts[i].serial && !p.Return? && p.Pending() != Ssh
    }
  }

  /** Where a goroutine is. `Idle` covers computing, sleeping between polls and, once the program has
      returned, waiting to send its result. */
  datatype Worker =
    | NotStarted
    | Idle(p: Program)
    | Locked(p: Program)      // holds the lock, inner call not yet made
    | Inside(p: Program)      // inner driver call in progress
    | Leaving(p: Program)     // inner call returned, deferred unlock pending
    | Sent

  datatype Main =
    | Spawning
    | Receiving
    | Saving(host: nat)
    | Marshalling(host: nat)  // inside the unlocked MarshalJSON of a host
    | Failed                  // returned the consolidated errors, or a save error
    | Succeeded

  datatype State<!D> = State(
    vms: map<string, D>,
    workers: seq<Worker>,
    lock: Option<nat>,
    main: Main,
    spawned: nat,
    received: nat,
    errs: seq<Error>,
    closed: bool,
    saved: nat)

  datatype Action =
    | Spawn
    | Acquire(i: nat)
    | Enter(i: nat)
    | Answer(i: nat)
    | Release(i: nat)
    | Deliver(i: nat)
    | CloseChannel
    | BeginMarshal
    | FinishSave(ok: bool)

  function Init<D>(c: Config<D>): State<D> {
    State(c.vms, seq(|c.hosts|, i => NotStarted), None, Spawning, 0, 0, [], false, 0)
  }

  predicate Enabled<D>(c: Config<D>, s: State<D>, a: Action)
    requires |s.workers| == |c.hosts|
  {
    match a
    case Spawn => s.main.Spawning?
    case Acquire(i) => i < |c.hosts| && s.workers[i].Idle? && c.NeedsLock(i, s.workers[i].p) && s.lock == None
    case Enter(i) =>
      && i < |c.hosts|
      && (s.workers[i].Locked?
          || (s.workers[i].Idle? && !s.workers[i].p.Return? && !c.NeedsLock(i, s.workers[i].p)))
    case Answer(i) => i < |c.hosts| && s.workers[i].Inside? && !s.workers[i].p.Return? && c.hosts[i].name in s.vms
    case Release(i) => i < |c.hosts| && s.workers[i].Leaving?
    case Deliver(i) =>
      && i < |c.hosts| && s.workers[i].Idle? && s.workers[i].p.Return?
      && s.main.Receiving? && s.received < |c.hosts|
    case CloseChannel => s.main.Receiving? && s.received == |c.hosts|
    case BeginMarshal => s.main.Saving? && s.main.host < |c.hosts|
    case FinishSave(ok) => s.main.Marshalling?
  }

  function Append(errs: seq<Error>, e: Option<Error>): seq<Error> {
    if e.Some? then errs + [e.value] else errs
  }

  /** The next point of the loop over the hosts to save. */
  function SaveFrom<D>(c: Config<D>, i: nat): Main {
    if i < |c.hosts| then Saving(i) else Succeeded
  }

  function Apply<D>(c: Config<D>, s: State<D>, a: Action): (s': State<D>)
    requires |s.workers| == |c.hosts| && Enabled(c, s, a)
    ensures |s'.workers| == |c.hosts|
  {
    match a
    case Spawn =>
      if s.spawned < |c.hosts| then
        s.(workers := s.workers[s.spawned := Idle(c.hosts[s.spawned].program)], spawned := s.spawned + 1)
      else s.(main := Receiving)
    case Acquire(i) => s.(workers := s.workers[i := Locked(s.workers[i].p)], lock := Some(i))
    case Enter(i) => s.(workers := s.workers[i := Inside(s.workers[i].p)])
    case Answer(i) =>
      var p, name := s.workers[i].p, c.hosts[i].name;
      var (d, r) := c.drv(p.Pending(), s.vms[name]);
      s.(vms := s.vms[name := d],
         workers := s.workers[i := if c.NeedsLock(i, p) then Leaving(p.Resume(r)) else Idle(p.Resume(r))])
    case Release(i) => s.(workers := s.workers[i := Idle(s.workers[i].p)], lock := None)
    case Deliver(i) =>
      s.(workers := s.workers[i := Sent], errs := Append(s.errs, s.workers[i].p.err), received := s.received + 1)
    case CloseChannel => s.(closed := true, main := if s.errs != [] then Failed else SaveFrom(c, 0))
    case BeginMarshal => s.(main := Marshalling(s.main.host))
    case FinishSave(ok) =>
      if ok then s.(saved := s.saved + 1, main := SaveFrom(c, s.main.host + 1)) else s.(main := Failed)
  }

  /** `acts` is a run from `s` that ends in `t`. */
  ghost predicate Run<D>(c: Config<D>, s: State<D>, acts: seq<Action>, t: State<D>)
    requires |s.workers| == |c.hosts|
    decreases |acts|
  {
    if acts == [] then s == t
    else Enabled(c, s, acts[0]) && Run(c, Apply(c, s, acts[0]), acts[1..], t)
  }

  ghost predicate Finished<D>(s: State<D>) {
    s.main.Failed? || s.main.Succeeded?
  }

  // ----- what every step keeps

  predicate Holds(w: Worker) {
    w.Locked? || w.Inside? || w.Leaving?
  }

  /** Worker `i` is between `Lock` and `Unlock` of its serial driver. */
  predicate InCriticalSection<D>(c: Config<D>, s: State<D>, i: nat)
    requires |s.workers| == |c.hosts|
  {
    i < |c.hosts| && (s.workers[i].Locked? || s.workers[i].Leaving?
                      || (s.workers[i].Inside? && c.NeedsLock(i, s.workers[i].p)))
  }

  function CountSent(ws: seq<Worker>, n: nat): nat
    requires n <= |ws|
  {
    if n == 0 then 0 else CountSent(ws, n - 1) + if ws[n - 1].Sent? then 1 else 0
  }

  predicate WorkerOk<D>(c: Config<D>, s: State<D>, i: nat)
    requires |s.workers| == |c.hosts| && i < |c.hosts|
  {
    && (s.workers[i].NotStarted? <==> i >= s.spawned)
    && (s.workers[i].Locked? ==> c.NeedsLock(i, s.workers[i].p))
    && (s.workers[i].Inside? ==> !s.workers[i].p.Return?)
  }

  ghost predicate Inv<D>(c: Config<D>, s: State<D>) {
    && |s.workers| == |c.hosts| && s.spawned <= |c.hosts|
    && s.vms.Keys == c.vms.Keys && c.Valid()
    && (forall i: nat {:trigger WorkerOk(c, s, i)} :: i < |c.hosts| ==> WorkerOk(c, s, i))
    && (forall i: nat {:trigger InCriticalSection(c, s, i)} :: InCriticalSection(c, s, i) <==> s.lock == Some(i))
    && s.received == CountSent(s.workers, |c.hosts|)
    && (s.main.Spawning? ==> s.received == 0)
    && (!s.main.Spawning? ==> s.spawned == |c.hosts|)
    && (s.closed <==> !s.main.Spawning? && !s.main.Receiving?)
    && (s.closed ==> s.received == |c.hosts|)
    && (s.main.Saving? || s.main.Marshalling? ==> s.errs == [] && s.main.host < |c.hosts| && s.saved == s.main.host)
    && (s.main.Succeeded? ==> s.errs == [] && s.saved == |c.hosts|)
    && (s.saved > 0 ==> s.errs == [] && s.closed)
  }

  lemma {:induction false} CountSentUpdate(ws: seq<Worker>, n: nat, i: nat, w: Worker)
    requires n <= |ws| && i < |ws|
    ensures CountSent(ws[i := w], n) ==
            if i < n then CountSent(ws, n) - (if ws[i].Sent? then 1 else 0) + (if w.Sent? then 1 else 0)
            else CountSent(ws, n)
  {
    if n > 0 { CountSentUpdate(ws, n - 1, i, w); }
  }

  lemma {:induction false} AllSent(ws: seq<Worker>, n: nat)
    requires n <= |ws|
    ensures CountSent(ws, n) <= n
    ensures CountSent(ws, n) == n <==> forall i :: 0 <= i < n ==> ws[i].Sent?
    ensures CountSent(ws, n) == 0 <==> forall i :: 0 <= i < n ==> !ws[i].Sent?
  {
    if n > 0 { AllSent(ws, n - 1); }
  }

  lemma InitInv<D>(c: Config<D>)
    requires c.Valid()
    ensures Inv(c, Init(c))
  {
    assert forall i :: 0 <= i < |c.hosts| ==> Init(c).workers[i] == NotStarted;
    AllSent(Init(c).workers, |c.hosts|);
  }

  lemma StepKeepsInv<D>(c: Config<D>, s: State<D>, a: Action)
    requires Inv(c, s) && Enabled(c, s, a)
    ensures Inv(c, Apply(c, s, a))
  {
    var t := Apply(c, s, a);
    StepKeepsCount(c, s, a);
    AllSent(s.workers, |c.hosts|);
    forall i: nat | i < |c.hosts|
      ensures WorkerOk(c, t, i)
    {
      StepKeepsWorker(c, s, a, i);
    }
    forall i: nat
      ensures InCriticalSection(c, t, i) <==> t.lock == Some(i)
    {
      StepKeepsLock(c, s, a, i);
    }
  }

  /** The number of results received is the number of workers that have sent. */
  lemma StepKeepsCount<D>(c: Config<D>, s: State<D>, a: Action)
    requires Inv(c, s) && Enabled(c, s, a)
    ensures var t := Apply(c, s, a); t.received == CountSent(t.workers, |c.hosts|)
  {
    var t := Apply(c, s, a);
    if a.Spawn? && s.spawned < |c.hosts| {
      assert WorkerOk(c, s, s.spawned);
      CountSentUpdate(s.workers, |c.hosts|, s.spawned, t.workers[s.spawned]);
    } else if a.Acquire? || a.Enter? || a.Answer? || a.Release? || a.Deliver? {
      CountSentUpdate(s.workers, |c.hosts|, a.i, t.workers[a.i]);
    }
  }

  lemma StepKeepsWorker<D>(c: Config<D>, s: State<D>, a: Action, i: nat)
    requires Inv(c, s) && Enabled(c, s, a) && i < |c.hosts|
    ensures WorkerOk(c, Apply(c, s, a), i)
  {
    assert WorkerOk(c, s, i);
  }

  /** Holding the lock is the same as being between lock and unlock, for each worker. */
  lemma StepKeepsLock<D>(c: Config<D>, s: State<D>, a: Action, i: nat)
    requires Inv(c, s) && Enabled(c, s, a)
    ensures var t := Apply(c, s, a); InCriticalSection(c, t, i) <==> t.lock == Some(i)
  {
    assert InCriticalSection(c, s, i) <==> s.lock == Some(i);
    assert i < |c.hosts| ==> WorkerOk(c, s, i);
    if a.Release? { assert InCriticalSection(c, s, a.i); }
  }

  lemma {:induction false} RunKeepsInv<D>(c: Config<D>, s: State<D>, acts: seq<Action>, t: State<D>)
    requires Inv(c, s) && Run(c, s, acts, t)
    ensures Inv(c, t)
    decreases |acts|
  {
    if acts != [] {
      StepKeepsInv(c, s, acts[0]);
      RunKeepsInv(c, Apply(c, s, acts[0]), acts[1..], t);
    }
  }

  // ----- safety of every run

  ghost predicate Safe<D>(c: Config<D>, s: State<D>)
    requires |s.workers| == |c.hosts|
  {
    // at most one inner call of a serial driver is in progress
    && (forall i, j | 0 <= i < |c.hosts| && 0 <= j < |c.hosts| && c.hosts[i].serial && c.hosts[j].serial
          && s.workers[i].Inside? && c.NeedsLock(i, s.workers[i].p)
          && s.workers[j].Inside? && c.NeedsLock(j, s.workers[j].p) :: i == j)
    // nobody holds the lock while sleeping, computing, sending a result, or afterwards
    && (forall i | 0 <= i < |c.hosts| && (s.workers[i].Idle? || s.workers[i].Sent?) :: s.lock != Some(i))
    // nothing is left to send once the channel is closed
    && (s.closed ==> forall i | 0 <= i < |c.hosts| :: s.workers[i].Sent?)
    // the unlocked MarshalJSON of the save loop overlaps no driver call and no lock holder
    && (s.main.Marshalling? ==> s.lock == None && forall i | 0 <= i < |c.hosts| :: !Holds(s.workers[i]))
    // nothing is saved unless every action succeeded
    && (s.saved > 0 || s.main.Succeeded? ==> s.errs == [] && s.received == |c.hosts|)
  }

  /** Safety over whole runs; host names need not be distinct. */
  lemma EveryRunIsSafe<D>(c: Config<D>, acts: seq<Action>, t: State<D>)
    requires c.Valid() && Run(c, Init(c), acts, t)
    ensures |t.workers| == |c.hosts| && Safe(c, t)
  {
    InitInv(c);
    RunKeepsInv(c, Init(c), acts, t);
    AllSent(t.workers, |c.hosts|);
    forall i, j | 0 <= i < |c.hosts| && 0 <= j < |c.hosts|
      && t.workers[i].Inside? && c.NeedsLock(i, t.workers[i].p)
      && t.workers[j].Inside? && c.NeedsLock(j, t.workers[j].p)
      ensures i == j
    {
      assert InCriticalSection(c, t, i) && InCriticalSection(c, t, j);
    }
    forall i | 0 <= i < |c.hosts| && (t.workers[i].Idle? || t.workers[i].Sent?)
      ensures t.lock != Some(i)
    {
      assert !InCriticalSection(c, t, i);
    }
    assert t.lock.Some? ==> InCriticalSection(c, t, t.lock.value);
  }

  // ----- no deadlock, and every run ends

  /** The step that some goroutine can make in an unfinished state. */
  ghost function Progress<D>(c: Config<D>, s: State<D>): (a: Action)
    requires Inv(c, s) && !Finished(s)
    ensures Enabled(c, s, a)
  {
    if s.main.Spawning? then Spawn
    else if s.main.Saving? then BeginMarshal
    else if s.main.Marshalling? then FinishSave(true)
    else if s.received == |c.hosts| then CloseChannel
    else if s.lock.Some? then
      var i := s.lock.value;
      assert InCriticalSection(c, s, i);
      assert WorkerOk(c, s, i);
      if s.workers[i].Locked? then Enter(i) else if s.workers[i].Inside? then Answer(i) else Release(i)
    else
      AllSent(s.workers, |c.hosts|);
      var i :| 0 <= i < |c.hosts| && !s.workers[i].Sent?;
      assert !InCriticalSection(c, s, i);
      assert WorkerOk(c, s, i);
      var w := s.workers[i];
      if w.Inside? then Answer(i)
      else if w.p.Return? then Deliver(i)
      else if c.NeedsLock(i, w.p) then Acquire(i) else Enter(i)
  }

  function WorkerRank(w: Worker, initial: Program): nat {
    match w
    case NotStarted => 4 * initial.Height() + 2
    case Idle(p) => 4 * p.Height() + 1
    case Locked(p) => 4 * p.Height()
    case Inside(p) => if p.Height() == 0 then 0 else 4 * p.Height() - 1
    case Leaving(p) => 4 * p.Height() + 2
    case Sent => 0
  }

  function TotalRank<D>(c: Config<D>, ws: seq<Worker>, n: nat): nat
    requires n <= |ws| == |c.hosts|
  {
    if n == 0 then 0 else TotalRank(c, ws, n - 1) + WorkerRank(ws[n - 1], c.hosts[n - 1].program)
  }

  function MainRank<D>(c: Config<D>, m: Main): int {
    match m
    case Spawning => 2 * |c.hosts| + 3
    case Receiving => 2 * |c.hosts| + 2
    case Saving(i) => 2 * (|c.hosts| - i) + 1
    case Marshalling(i) => 2 * (|c.hosts| - i)
    case Failed => 0
    case Succeeded => 0
  }

  function Rank<D>(c: Config<D>, s: State<D>): int
    requires |s.workers| == |c.hosts|
  {
    TotalRank(c, s.workers, |c.hosts|) + MainRank(c, s.main)
  }

  lemma {:induction false} TotalRankUpdate<D>(c: Config<D>, ws: seq<Worker>, n: nat, i: nat, w: Worker)
    requires i < |ws| && n <= |ws| == |c.hosts|
    ensures TotalRank(c, ws[i := w], n) ==
            if i < n then
              TotalRank(c, ws, n) - WorkerRank(ws[i], c.hosts[i].program) + WorkerRank(w, c.hosts[i].program)
            else TotalRank(c, ws, n)
  {
    if n > 0 { TotalRankUpdate(c, ws, n - 1, i, w); }
  }

  lemma StepLowersRank<D>(c: Config<D>, s: State<D>, a: Action)
    requires Inv(c, s) && Enabled(c, s, a)
    ensures 0 <= Rank(c, Apply(c, s, a)) < Rank(c, s)
  {
    if a.Acquire? || a.Enter? || a.Answer? || a.Release? || a.Deliver? {
      WorkerStepLowersRank(c, s, a);
    } else {
      var t := Apply(c, s, a);
      if a.Spawn? && s.spawned < |c.hosts| {
        assert WorkerOk(c, s, s.spawned);
        TotalRankUpdate(c, s.workers, |c.hosts|, s.spawned, t.workers[s.spawned]);
      }
    }
    StepKeepsInv(c, s, a);
    RankNonNegative(c, Apply(c, s, a));
  }

  lemma WorkerStepLowersRank<D>(c: Config<D>, s: State<D>, a: Action)
    requires Inv(c, s) && Enabled(c, s, a) && (a.Acquire? || a.Enter? || a.Answer? || a.Release? || a.Deliver?)
    ensures Rank(c, Apply(c, s, a)) < Rank(c, s)
  {
    var t, i := Apply(c, s, a), a.i;
    assert WorkerOk(c, s, i);
    assert t.main == s.main && t.workers == s.workers[i := t.workers[i]];
    TotalRankUpdate(c, s.workers, |c.hosts|, i, t.workers[i]);
  }

  /** No run is longer than the rank of the initial state, whatever the drivers answer, and a run that
      cannot be continued has finished. */
  lemma {:induction false} EveryRunEnds<D>(c: Config<D>, s: State<D>, acts: seq<Action>, t: State<D>)
    requires Inv(c, s) && Run(c, s, acts, t)
    ensures |acts| <= Rank(c, s)
    ensures |t.workers| == |c.hosts| && ((forall a :: !Enabled(c, t, a)) ==> Finished(t))
    decreases |acts|
  {
    if acts == [] {
      if !Finished(t) {
        var a := Progress(c, t);
        assert Enabled(c, t, a);
      }
    } else {
      StepKeepsInv(c, s, acts[0]);
      StepLowersRank(c, s, acts[0]);
      EveryRunEnds(c, Apply(c, s, acts[0]), acts[1..], t);
    }
    RankNonNegative(c, s);
  }

  lemma RankNonNegative<D>(c: Config<D>, s: State<D>)
    requires Inv(c, s)
    ensures Rank(c, s) >= 0
  {
  }

  // ----- the plain loop that every interleaving refines

  /** Machine states and errors after running the first `k` programs one after another. */
  ghost function Sequential<D>(c: Config<D>, k: nat): (r: (map<string, D>, seq<Error>))
    requires c.Valid() && k <= |c.hosts|
    ensures r.0.Keys == c.vms.Keys
  {
    if k == 0 then (c.vms, [])
    else
      var (vms, errs) := Sequential(c, k - 1);
      var name := c.hosts[k - 1].name;
      var (d, e) := RunAlone(c.drv, vms[name], c.hosts[k - 1].program);
      (vms[name := d], Append(errs, e))
  }

  /** What machine `i` ends with when nothing else runs. */
  ghost function Alone<D>(c: Config<D>, i: nat): (D, Option<Error>)
    requires c.Valid() && i < |c.hosts|
  {
    RunAlone(c.drv, c.vms[c.hosts[i].name], c.hosts[i].program)
  }

  ghost function Bag(e: Option<Error>): multiset<Error> {
    if e.Some? then multiset{e.value} else multiset{}
  }

  /** The errors of the machines, each run alone. */
  ghost function Bags<D>(c: Config<D>): (bags: seq<multiset<Error>>)
    requires c.Valid()
    ensures |bags| == |c.hosts| && forall i :: 0 <= i < |bags| ==> bags[i] == Bag(Alone(c, i).1)
  {
    seq(|c.hosts|, i requires 0 <= i < |c.hosts| => Bag(Alone(c, i).1))
  }

  /** What is in the bags of the first `n` workers that have not sent. */
  ghost function Outstanding(bags: seq<multiset<Error>>, ws: seq<Worker>, n: nat): multiset<Error>
    requires n <= |ws| == |bags|
  {
    if n == 0 then multiset{}
    else Outstanding(bags, ws, n - 1) + if ws[n - 1].Sent? then multiset{} else bags[n - 1]
  }

  lemma {:induction false} OutstandingUpdate(bags: seq<multiset<Error>>, ws: seq<Worker>, n: nat, i: nat, w: Worker)
    requires i < |ws| && n <= |ws| == |bags| && !ws[i].Sent?
    ensures Outstanding(bags, ws, n) ==
            Outstanding(bags, ws[i := w], n) + if i < n && w.Sent? then bags[i] else multiset{}
  {
    if n > 0 { OutstandingUpdate(bags, ws, n - 1, i, w); }
  }

  lemma {:induction false} NothingOutstanding(bags: seq<multiset<Error>>, ws: seq<Worker>, n: nat)
    requires n <= |ws| == |bags| && forall i :: 0 <= i < n ==> ws[i].Sent?
    ensures Outstanding(bags, ws, n) == multiset{}
  {
    if n > 0 { NothingOutstanding(bags, ws, n - 1); }
  }

  /** Errors that the first `n` workers have yet to deliver. */
  ghost function Owed<D>(c: Config<D>, ws: seq<Worker>, n: nat): multiset<Error>
    requires c.Valid() && n <= |ws| == |c.hosts|
  {
    Outstanding(Bags(c), ws, n)
  }

  lemma OwedUpdate<D>(c: Config<D>, ws: seq<Worker>, n: nat, i: nat, w: Worker)
    requires c.Valid() && i < |ws| && n <= |ws| == |c.hosts| && !ws[i].Sent?
    ensures Owed(c, ws, n) == Owed(c, ws[i := w], n) + if i < n && w.Sent? then Bag(Alone(c, i).1) else multiset{}
  {
    OutstandingUpdate(Bags(c), ws, n, i, w);
  }

  lemma OwedDone<D>(c: Config<D>, ws: seq<Worker>, n: nat)
    requires c.Valid() && n <= |ws| == |c.hosts| && CountSent(ws, n) == n
    ensures Owed(c, ws, n) == multiset{}
  {
    AllSent(ws, n);
    NothingOutstanding(Bags(c), ws, n);
  }

  /** The loop leaves each machine it has dealt with as if it had run alone, and all others as they were. */
  lemma {:induction false} SequentialIsPerMachine<D>(c: Config<D>, k: nat)
    requires c.Valid() && c.Distinct() && k <= |c.hosts|
    ensures forall i :: 0 <= i < k ==> Sequential(c, k).0[c.hosts[i].name] == Alone(c, i).0
    ensures forall i :: k <= i < |c.hosts| ==> Sequential(c, k).0[c.hosts[i].name] == c.vms[c.hosts[i].name]
    ensures OthersUntouched(c, Sequential(c, k).0)
  {
    if k > 0 { SequentialIsPerMachine(c, k - 1); }
  }

  lemma SequentialStep<D>(c: Config<D>, k: nat)
    requires c.Valid() && c.Distinct() && 0 < k <= |c.hosts|
    ensures Sequential(c, k).1 == Append(Sequential(c, k - 1).1, Alone(c, k - 1).1)
  {
    SequentialIsPerMachine(c, k - 1);
  }

  lemma AppendBag(errs: seq<Error>, e: Option<Error>)
    ensures multiset(Append(errs, e)) == multiset(errs) + Bag(e)
  {
  }

  /** And it collects the errors of those machines, each run alone. */
  lemma {:induction false} SequentialErrors<D>(c: Config<D>, k: nat, ws: seq<Worker>)
    requires c.Valid() && c.Distinct() && k <= |c.hosts| == |ws|
    requires forall i :: 0 <= i < |ws| ==> ws[i].NotStarted?
    ensures multiset(Sequential(c, k).1) == Owed(c, ws, k)
  {
    if k == 0 {
      assert Sequential(c, 0).1 == [];
    } else {
      SequentialErrors(c, k - 1, ws);
      SequentialStep(c, k);
      AppendBag(Sequential(c, k - 1).1, Alone(c, k - 1).1);
      OwedStep(c, ws, k);
    }
  }

  lemma OwedStep<D>(c: Config<D>, ws: seq<Worker>, n: nat)
    requires c.Valid() && 0 < n <= |ws| == |c.hosts| && !ws[n - 1].Sent?
    ensures Owed(c, ws, n) == Owed(c, ws, n - 1) + Bag(Alone(c, n - 1).1)
  {
  }

  /** What is still to come for worker `i`, run alone from where it is, is what it was at the start. */
  ghost predicate OnTrack<D>(c: Config<D>, s: State<D>, i: nat)
    requires c.Valid() && |s.workers| == |c.hosts| && i < |c.hosts| && s.vms.Keys == c.vms.Keys
  {
    var d := s.vms[c.hosts[i].name];
    match s.workers[i]
    case NotStarted => d == c.vms[c.hosts[i].name]
    case Sent => d == Alone(c, i).0
    case w => RunAlone(c.drv, d, w.p) == Alone(c, i)
  }

  ghost predicate Named<D>(c: Config<D>, name: string) {
    exists i :: 0 <= i < |c.hosts| && c.hosts[i].name == name
  }

  ghost predicate OthersUntouched<D>(c: Config<D>, vms: map<string, D>)
    requires vms.Keys == c.vms.Keys
  {
    forall name :: name in c.vms && !Named(c, name) ==> vms[name] == c.vms[name]
  }

  /** Errors collected plus errors owed are the errors of all machines, each run alone. */
  ghost predicate ErrorsConserved<D>(c: Config<D>, s: State<D>)
    requires c.Valid() && |s.workers| == |c.hosts|
  {
    multiset(s.errs) + Owed(c, s.workers, |c.hosts|) == Owed(c, Init(c).workers, |c.hosts|)
  }

  ghost predicate Refines<D>(c: Config<D>, s: State<D>) {
    && Inv(c, s)
    && (forall i: nat {:trigger OnTrack(c, s, i)} :: i < |c.hosts| ==> OnTrack(c, s, i))
    && OthersUntouched(c, s.vms)
    && ErrorsConserved(c, s)
  }

  lemma StepKeepsOnTrack<D>(c: Config<D>, s: State<D>, a: Action, i: nat)
    requires Inv(c, s) && c.Distinct() && Enabled(c, s, a) && i < |c.hosts| && OnTrack(c, s, i)
    ensures Apply(c, s, a).vms.Keys == c.vms.Keys && OnTrack(c, Apply(c, s, a), i)
  {
    assert WorkerOk(c, s, i);
    if a.Answer? && a.i != i {
      assert c.hosts[a.i].name != c.hosts[i].name;
    }
  }

  lemma DeliverConservesErrors<D>(c: Config<D>, s: State<D>, i: nat)
    requires Inv(c, s) && ErrorsConserved(c, s) && Enabled(c, s, Deliver(i)) && OnTrack(c, s, i)
    ensures ErrorsConserved(c, Apply(c, s, Deliver(i)))
  {
    var e := s.workers[i].p.err;
    assert e == Alone(c, i).1;
    OwedUpdate(c, s.workers, |c.hosts|, i, Sent);
    AppendBag(s.errs, e);
  }

  lemma UnsentConservesErrors<D>(c: Config<D>, s: State<D>, t: State<D>, i: nat)
    requires c.Valid() && |s.workers| == |c.hosts| && i < |c.hosts| && ErrorsConserved(c, s)
    requires t.errs == s.errs && |t.workers| == |c.hosts| && t.workers == s.workers[i := t.workers[i]]
    requires !s.workers[i].Sent? && !t.workers[i].Sent?
    ensures ErrorsConserved(c, t)
  {
    OwedUpdate(c, s.workers, |c.hosts|, i, t.workers[i]);
    assert Owed(c, t.workers, |c.hosts|) == Owed(c, s.workers, |c.hosts|);
  }

  lemma StepConservesErrors<D>(c: Config<D>, s: State<D>, a: Action)
    requires Inv(c, s) && ErrorsConserved(c, s) && Enabled(c, s, a)
    requires a.Deliver? ==> OnTrack(c, s, a.i)
    ensures ErrorsConserved(c, Apply(c, s, a))
  {
    if a.Deliver? {
      DeliverConservesErrors(c, s, a.i);
    } else {
      var t := Apply(c, s, a);
      if a.Spawn? && s.spawned < |c.hosts| {
        assert WorkerOk(c, s, s.spawned);
        UnsentConservesErrors(c, s, t, s.spawned);
      } else if a.Acquire? || a.Enter? || a.Answer? || a.Release? {
        UnsentConservesErrors(c, s, t, a.i);
      }
    }
  }

  lemma StepKeepsRefines<D>(c: Config<D>, s: State<D>, a: Action)
    requires c.Distinct() && Refines(c, s) && Enabled(c, s, a)
    ensures Refines(c, Apply(c, s, a))
  {
    StepKeepsInv(c, s, a);
    StepConservesErrors(c, s, a);
    StepLeavesOthers(c, s, a);
    forall i: nat | i < |c.hosts|
      ensures OnTrack(c, Apply(c, s, a), i)
    {
      StepKeepsOnTrack(c, s, a, i);
    }
  }

  lemma StepLeavesOthers<D>(c: Config<D>, s: State<D>, a: Action)
    requires Inv(c, s) && OthersUntouched(c, s.vms) && Enabled(c, s, a)
    ensures Apply(c, s, a).vms.Keys == c.vms.Keys && OthersUntouched(c, Apply(c, s, a).vms)
  {
    if a.Answer? { assert Named(c, c.hosts[a.i].name); }
  }

  lemma {:induction false} RunKeepsRefines<D>(c: Config<D>, s: State<D>, acts: seq<Action>, t: State<D>)
    requires c.Distinct() && Refines(c, s) && Run(c, s, acts, t)
    ensures Refines(c, t)
    decreases |acts|
  {
    if acts != [] {
      StepKeepsRefines(c, s, acts[0]);
      RunKeepsRefines(c, Apply(c, s, acts[0]), acts[1..], t);
    }
  }

  lemma FinalMachine<D>(c: Config<D>, t: State<D>, i: nat)
    requires Refines(c, t) && t.closed && i < |c.hosts|
    ensures c.hosts[i].name in t.vms && t.vms[c.hosts[i].name] == Alone(c, i).0
  {
    AllSent(t.workers, |c.hosts|);
    assert OnTrack(c, t, i) && t.workers[i] == Sent;
  }

  lemma FinalMachines<D>(c: Config<D>, t: State<D>)
    requires c.Distinct() && Refines(c, t) && t.closed
    ensures t.vms == Sequential(c, |c.hosts|).0
  {
    SequentialIsPerMachine(c, |c.hosts|);
    var vms := Sequential(c, |c.hosts|).0;
    forall name | name in t.vms
      ensures t.vms[name] == vms[name]
    {
      if Named(c, name) {
        var i: nat :| i < |c.hosts| && c.hosts[i].name == name;
        FinalMachine(c, t, i);
      }
    }
  }

  lemma FinalErrors<D>(c: Config<D>, t: State<D>)
    requires c.Distinct() && Refines(c, t) && t.closed
    ensures multiset(t.errs) == multiset(Sequential(c, |c.hosts|).1)
  {
    SequentialErrors(c, |c.hosts|, Init(c).workers);
    OwedDone(c, t.workers, |c.hosts|);
    assert ErrorsConserved(c, t);
  }

  /** Every interleaving ends with the machine states and the bag of errors of the plain loop, and the
      command succeeds only if that loop has no error. */
  lemma EveryInterleavingRefinesTheLoop<D>(c: Config<D>, acts: seq<Action>, t: State<D>)
    requires c.Valid() && c.Distinct() && Run(c, Init(c), acts, t) && t.closed
    ensures t.vms == Sequential(c, |c.hosts|).0
    ensures multiset(t.errs) == multiset(Sequential(c, |c.hosts|).1)
    ensures t.main.Succeeded? ==> Sequential(c, |c.hosts|).1 == []
  {
    InitInv(c);
    RunKeepsRefines(c, Init(c), acts, t);
    FinalMachines(c, t);
    FinalErrors(c, t);
    var errs := Sequential(c, |c.hosts|).1;
    assert errs != [] ==> errs[0] in multiset(errs);
  }

  // ----- when the command succeeds

  /** Saving a host fails. */
  const SAVE_FAILS := FinishSave(false)

  /** Errors, once collected, make the command fail, and so does a failed save; nothing else does. */
  lemma {:induction false} HowItEnds<D>(c: Config<D>, s: State<D>, acts: seq<Action>, t: State<D>)
    requires Inv(c, s) && Run(c, s, acts, t) && !s.main.Failed?
    ensures t.main.Failed? <==> (t.closed && t.errs != []) || SAVE_FAILS in acts
    decreases |acts|
  {
    if acts != [] {
      StepKeepsInv(c, s, acts[0]);
      var s' := Apply(c, s, acts[0]);
      if s'.main.Failed? {
        FailedIsFinal(c, s', acts[1..], t);
      } else {
        HowItEnds(c, s', acts[1..], t);
      }
    }
  }

  lemma {:induction false} FailedIsFinal<D>(c: Config<D>, s: State<D>, acts: seq<Action>, t: State<D>)
    requires Inv(c, s) && Run(c, s, acts, t) && s.main.Failed?
    ensures t.main.Failed? && t.errs == s.errs && t.closed == s.closed && SAVE_FAILS !in acts
    decreases |acts|
  {
    if acts != [] {
      StepKeepsInv(c, s, acts[0]);
      AllSent(s.workers, |c.hosts|);
      FailedIsFinal(c, Apply(c, s, acts[0]), acts[1..], t);
    }
  }

  /** The command succeeds, with every host saved, exactly when no action returned an error and no save failed. */
  lemma SucceedsIff<D>(c: Config<D>, acts: seq<Action>, t: State<D>)
    requires c.Valid() && Run(c, Init(c), acts, t) && Finished(t)
    ensures t.main.Succeeded? <==> t.errs == [] && SAVE_FAILS !in acts
    ensures t.main.Succeeded? ==> t.saved == |c.hosts|
  {
    InitInv(c);
    RunKeepsInv(c, Init(c), acts, t);
    HowItEnds(c, Init(c), acts, t);
  }

  /** With distinct machines: exactly when the plain loop has no error and no save failed. */
  lemma SucceedsAsTheLoop<D>(c: Config<D>, acts: seq<Action>, t: State<D>)
    requires c.Valid() && c.Distinct() && Run(c, Init(c), acts, t) && Finished(t)
    ensures t.main.Succeeded? <==> Sequential(c, |c.hosts|).1 == [] && SAVE_FAILS !in acts
    ensures t.main.Succeeded? ==> t.saved == |c.hosts|
  {
    InitInv(c);
    RunKeepsInv(c, Init(c), acts, t);
    SucceedsIff(c, acts, t);
    EveryInterleavingRefinesTheLoop(c, acts, t);
    SameEmptiness(t.errs, Sequential(c, |c.hosts|).1);
  }

  lemma SameEmptiness(a: seq<Error>, b: seq<Error>)
    requires multiset(a) == multiset(b)
    ensures a == [] <==> b == []
  {
    assert a != [] ==> a[0] in multiset(a);
    assert b != [] ==> b[0] in multiset(b);
  }

  // ----- putting runs together

  lemma {:induction false} RunExtend<D>(c: Config<D>, s: State<D>, acts: seq<Action>, t: State<D>, a: Action)
    requires |s.workers| == |c.hosts| && Run(c, s, acts, t)
    ensures |t.workers| == |c.hosts|
    ensures Enabled(c, t, a) ==> Run(c, s, acts + [a], Apply(c, t, a))
    decreases |acts|
  {
    if acts == [] {
      assert Enabled(c, t, a) ==> Run(c, Apply(c, t, a), [], Apply(c, t, a));
    } else {
      RunExtend(c, Apply(c, s, acts[0]), acts[1..], t, a);
      assert (acts + [a])[1..] == acts[1..] + [a];
    }
  }
}
