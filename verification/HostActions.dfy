/** What one goroutine of a multi-machine command does: the check/act/poll programs that
    `host.Start`, `Stop`, `Kill`, `Restart` and `printIP` run against one driver. */
module HostActions {
  import opened Basics

  datatype Error = AlreadyInState(desired: VmState) | RetriesExceeded | DriverError(code: nat)

  /** Driver methods, and `Ssh`, a command that talks to the guest without calling the driver. */
  datatype Op =
    | GetState | StartOp | StopOp | KillOp | RestartOp | GetIP
    | SshHostname | SshPort | SshKeyPath | SshUsername | Ssh

  datatype Reply = Reply(state: VmState, err: Option<Error>)

  /** A driver whose calls read and write the state of one machine only. */
  type Driver<!D> = (Op, D) -> (D, Reply)

  /** A sequential program of driver calls. `InState` is `drivers.MachineInState`, which looks at the
      state only; `Do` returns a failing call's error; `Attempt` goes on either way. */
  datatype Program =
    | Return(err: Option<Error>)
    | InState(desired: VmState, yes: Program, no: Program)
    | Do(op: Op, next: Program)
    | Attempt(op: Op, ok: Program, failed: Program)
  {
    /** An upper bound on the number of calls the program can still make. */
    function Height(): nat {
      match this
      case Return(_) => 0
      case InState(_, yes, no) => 1 + Max(yes.Height(), no.Height())
      case Do(_, next) => 1 + next.Height()
      case Attempt(_, ok, failed) => 1 + Max(ok.Height(), failed.Height())
    }

    /** The call the program makes next. */
    function Pending(): Op
      requires !Return?
    {
      if InState? then GetState else op
    }

    /** The program that is left once that call has answered. */
    function Resume(r: Reply): (rest: Program)
      requires !Return?
      ensures rest.Height() < Height()
    {
      match this
      case InState(desired, yes, no) => if r.state == desired then yes else no
      case Do(_, next) => if r.err.Some? then Return(r.err) else next
      case Attempt(_, ok, failed) => if r.err.Some? then failed else ok
    }
  }

  function Max(a: nat, b: nat): nat {
    if a < b then b else a
  }

  /** The machine state and the error after running `p` alone, to its end. */
  function RunAlone<D>(drv: Driver<D>, d: D, p: Program): (D, Option<Error>)
    decreases p.Height()
  {
    if p.Return? then (d, p.err)
    else
      var (d', r) := drv(p.Pending(), d);
      RunAlone(drv, d', p.Resume(r))
  }

  /** Every call `p` makes when it runs alone, with its answer. */
  function Calls<D>(drv: Driver<D>, d: D, p: Program): seq<(Op, Reply)>
    decreases p.Height()
  {
    if p.Return? then []
    else
      var (d', r) := drv(p.Pending(), d);
      [(p.Pending(), r)] + Calls(drv, d', p.Resume(r))
  }

  // ----- the programs of libmachine/host/host.go

  const MAX_ATTEMPTS: nat := 60        // mcnutils.WaitFor
  const PODMAN_ATTEMPTS: nat := 10     // provision.WaitForPodman

  /** `mcnutils.WaitForSpecific(MachineInState(d, desired), left, ...)`, then `after`. */
  function Poll(left: nat, desired: VmState, after: Program): Program {
    if left == 0 then Return(Some(RetriesExceeded))
    else InState(desired, after, Poll(left - 1, desired, after))
  }

  function CheckActPoll(act: Op, desired: VmState, attempts: nat, after: Program): Program {
    InState(desired, Return(Some(AlreadyInState(desired))), Do(act, Poll(attempts, desired, after)))
  }

  function RunActionForState(act: Op, desired: VmState, after: Program): Program {
    CheckActPoll(act, desired, MAX_ATTEMPTS, after)
  }

  /** A driver call that cannot report an error. */
  function Ask(op: Op, next: Program): Program {
    Attempt(op, next, next)
  }

  /** `RunSSHCommandFromDriver`: the parameters from the driver, then the command on the guest. */
  function SshCommand(ok: Program, failed: Program): Program {
    Attempt(SshHostname,
            Attempt(SshPort, Ask(SshKeyPath, Ask(SshUsername, Attempt(Ssh, ok, failed))), failed),
            failed)
  }

  /** The same where an error is returned. */
  function SshCommandOrReturn(next: Program): Program {
    Do(SshHostname, Do(SshPort, Ask(SshKeyPath, Ask(SshUsername, Do(Ssh, next)))))
  }

  /** A command on the guest, tried `left` times; whatever goes wrong in an attempt is swallowed. */
  function AwaitSsh(left: nat, after: Program): Program {
    if left == 0 then Return(Some(RetriesExceeded)) else SshCommand(after, AwaitSsh(left - 1, after))
  }

  /** `Host.WaitForPodman`: wait for ssh, read /etc/os-release to find the provisioner (a guest that is not known counts
      as a failed command), and wait for Podman's socket. */
  function WaitForPodman(ssh: nat, podman: nat): Program {
    AwaitSsh(ssh, SshCommandOrReturn(AwaitSsh(podman, Return(None))))
  }

  const WAIT_FOR_PODMAN := WaitForPodman(MAX_ATTEMPTS, PODMAN_ATTEMPTS)

  const STOP := RunActionForState(StopOp, Stopped, Return(None))
  const KILL := RunActionForState(KillOp, Stopped, Return(None))
  const START := RunActionForState(StartOp, Running, WAIT_FOR_PODMAN)
  const PRINT_IP := Do(GetIP, Return(None))

  /** `Start` waits for podman itself, and `Restart` does so once more afterwards. */
  const RESTART :=
    InState(Stopped,
            RunActionForState(StartOp, Running, Sequence(WAIT_FOR_PODMAN, WAIT_FOR_PODMAN)),
            InState(Running,
                    Do(RestartOp, Poll(MAX_ATTEMPTS, Running, WAIT_FOR_PODMAN)),
                    WAIT_FOR_PODMAN))

  /** `p`, and `q` after it when `p` returns no error. */
  function Sequence(p: Program, q: Program): Program {
    match p
    case Return(err) => if err.Some? then p else q
    case InState(desired, yes, no) => InState(desired, Sequence(yes, q), Sequence(no, q))
    case Do(op, next) => Do(op, Sequence(next, q))
    case Attempt(op, ok, failed) => Attempt(op, Sequence(ok, q), Sequence(failed, q))
  }

  // ----- what those programs promise, for every driver

  lemma {:induction false} SequenceRunsBoth<D>(drv: Driver<D>, d: D, p: Program, q: Program)
    ensures var (d1, e) := RunAlone(drv, d, p);
            RunAlone(drv, d, Sequence(p, q)) == if e.Some? then (d1, e) else RunAlone(drv, d1, q)
    decreases p.Height()
  {
    if !p.Return? {
      var (d', r) := drv(p.Pending(), d);
      SequenceRunsBoth(drv, d', p.Resume(r), q);
      assert Sequence(p, q).Resume(r) == Sequence(p.Resume(r), q);
    }
  }

  predicate OnlyPolls(calls: seq<(Op, Reply)>) {
    forall i :: 0 <= i < |calls| ==> calls[i].0 == GetState
  }

  /** Polling asks for the state at most `left` times, gives up only when no answer was the desired
      state, and stops at the first answer that is. */
  predicate Polled(calls: seq<(Op, Reply)>, err: Option<Error>, left: nat, desired: VmState) {
    && OnlyPolls(calls) && |calls| <= left
    && (forall i :: 0 <= i < |calls| - 1 ==> calls[i].1.state != desired)
    && (err == None <==> calls != [] && calls[|calls| - 1].1.state == desired)
    && (err != None ==> |calls| == left && err == Some(RetriesExceeded))
  }

  lemma OnePoll<D>(drv: Driver<D>, d: D, left: nat, desired: VmState)
    requires left > 0
    ensures var (d', r) := drv(GetState, d);
            var next := if r.state == desired then Return(None) else Poll(left - 1, desired, Return(None));
            && Calls(drv, d, Poll(left, desired, Return(None))) == [(GetState, r)] + Calls(drv, d', next)
            && RunAlone(drv, d, Poll(left, desired, Return(None))) == RunAlone(drv, d', next)
  {
  }

  lemma PolledOnceMore(r: Reply, rest: seq<(Op, Reply)>, err: Option<Error>, left: nat, desired: VmState)
    requires Polled(rest, err, left, desired) && r.state != desired
    ensures Polled([(GetState, r)] + rest, err, left + 1, desired)
  {
    var calls := [(GetState, r)] + rest;
    assert rest != [] ==> calls[|calls| - 1] == rest[|rest| - 1];
  }

  lemma {:induction false} PollOutcome<D>(drv: Driver<D>, d: D, left: nat, desired: VmState)
    ensures var p := Poll(left, desired, Return(None));
            Polled(Calls(drv, d, p), RunAlone(drv, d, p).1, left, desired)
  {
    if left > 0 {
      var (d', r) := drv(GetState, d);
      OnePoll(drv, d, left, desired);
      if r.state != desired {
        PollOutcome(drv, d', left - 1, desired);
        var p := Poll(left - 1, desired, Return(None));
        PolledOnceMore(r, Calls(drv, d', p), RunAlone(drv, d', p).1, left - 1, desired);
      }
    }
  }

  /** The machine is looked at first; if it is already where it should be nothing else is called; otherwise the action
      is called exactly once, its error is returned as it is, and success means that the last state the driver reported
      is the desired one. */
  ghost predicate ActedAndPolled(calls: seq<(Op, Reply)>, err: Option<Error>, act: Op, desired: VmState,
                                 attempts: nat) {
    && calls != [] && calls[0].0 == GetState && |calls| <= 2 + attempts
    && (err == Some(AlreadyInState(desired)) && |calls| == 1 <==> calls[0].1.state == desired)
    && (calls[0].1.state != desired ==>
          && |calls| >= 2 && calls[1].0 == act
          && OnlyPolls(calls[2..])
          && (calls[1].1.err.Some? ==> err == calls[1].1.err && |calls| == 2))
    && (err == None <==> |calls| >= 3 && calls[|calls| - 1].1.state == desired)
  }

  lemma ActionOutcome<D>(drv: Driver<D>, d: D, act: Op, desired: VmState, attempts: nat)
    ensures var p := CheckActPoll(act, desired, attempts, Return(None));
            ActedAndPolled(Calls(drv, d, p), RunAlone(drv, d, p).1, act, desired, attempts)
  {
    var p := CheckActPoll(act, desired, attempts, Return(None));
    var (d1, r1) := drv(GetState, d);
    if r1.state == desired {
      assert Calls(drv, d, p) == [(GetState, r1)];
    } else {
      var q := p.no;
      var (d2, r2) := drv(act, d1);
      if r2.err.Some? {
        assert Calls(drv, d1, q) == [(act, r2)];
        assert Calls(drv, d, p) == [(GetState, r1), (act, r2)];
        assert RunAlone(drv, d1, q) == (d2, r2.err);
      } else {
        PollOutcome(drv, d2, attempts, desired);
        var rest := Calls(drv, d2, q.next);
        assert Calls(drv, d1, q) == [(act, r2)] + rest;
        assert Calls(drv, d, p) == [(GetState, r1), (act, r2)] + rest;
      }
    }
  }

  // ----- the same as statements, on a driver whose state is updated step by step

  /** What polling comes to. */
  ghost predicate PollsTo<D>(drv: Driver<D>, d: D, left: nat, desired: VmState, end: D, err: Option<Error>) {
    RunAlone(drv, d, Poll(left, desired, Return(None))) == (end, err)
  }

  lemma PollsToStep<D>(drv: Driver<D>, d: D, left: nat, desired: VmState, end: D, err: Option<Error>)
    requires left > 0
    ensures var (d', r) := drv(GetState, d);
            PollsTo(drv, d, left, desired, end, err) <==>
            if r.state == desired then (end, err) == (d', None) else PollsTo(drv, d', left - 1, desired, end, err)
  {
    OnePoll(drv, d, left, desired);
  }

  /** The loop of `WaitForSpecificOrError` around `MachineInState`. */
  method WaitForState<D>(drv: Driver<D>, start: D, maxAttempts: nat, desired: VmState)
    returns (d: D, err: Option<Error>)
    ensures PollsTo(drv, start, maxAttempts, desired, d, err)
  {
    d := start;
    for i := 0 to maxAttempts
      invariant forall end, e ::
                  PollsTo(drv, d, maxAttempts - i, desired, end, e) ==>
                  PollsTo(drv, start, maxAttempts, desired, end, e)
    {
      var (d', r) := drv(GetState, d);
      forall end, e
        ensures PollsTo(drv, d, maxAttempts - i, desired, end, e) <==>
                if r.state == desired then (end, e) == (d', None)
                else PollsTo(drv, d', maxAttempts - i - 1, desired, end, e)
      {
        PollsToStep(drv, d, maxAttempts - i, desired, end, e);
      }
      if r.state == desired {
        assert PollsTo(drv, d, maxAttempts - i, desired, d', None);
        return d', None;
      }
      d := d';
    }
    err := Some(RetriesExceeded);
    assert PollsTo(drv, d, 0, desired, d, err);
  }

  /** `runActionForState` (`attempts` is 60), which `Stop` and `Kill` are calls of: it does what the program
      `CheckActPoll` says. */
  method PerformAction<D>(drv: Driver<D>, start: D, act: Op, desired: VmState, attempts: nat)
    returns (d: D, err: Option<Error>)
    ensures (d, err) == RunAlone(drv, start, CheckActPoll(act, desired, attempts, Return(None)))
  {
    ghost var p := CheckActPoll(act, desired, attempts, Return(None));
    var (d1, r1) := drv(GetState, start);
    assert RunAlone(drv, start, p) == RunAlone(drv, d1, if r1.state == desired then p.yes else p.no);
    if r1.state == desired {
      return d1, Some(AlreadyInState(desired));
    }
    var (d2, r2) := drv(act, d1);
    assert RunAlone(drv, d1, p.no) == RunAlone(drv, d2, if r2.err.Some? then Return(r2.err) else p.no.next);
    if r2.err.Some? {
      return d2, r2.err;
    }
    d, err := WaitForState(drv, d2, attempts, desired);
  }
}
