/** `Start` and `Restart` of a host, on any driver: what a success means, and which driver operations are called. */
module HostCommands {
  import opened Basics
  import opened HostActions

  type Trace = seq<(Op, Reply)>

  // ----- success means that Podman answered

  /** The only way to return without an error is a guest probe that has just succeeded. */
  predicate EndsInProbe(p: Program) {
    match p
    case Return(err) => err.Some?
    case InState(_, yes, no) => EndsInProbe(yes) && EndsInProbe(no)
    case Do(_, next) => EndsInProbe(next)
    case Attempt(op, ok, failed) => ((op == Ssh && ok == Return(None)) || EndsInProbe(ok)) && EndsInProbe(failed)
  }

  predicate Probed(calls: Trace) {
    calls != [] && var last := calls[|calls| - 1]; last.0 == Ssh && last.1.err == None
  }

  lemma {:induction false} SuccessIsProbed<D>(drv: Driver<D>, d: D, p: Program)
    requires EndsInProbe(p)
    ensures RunAlone(drv, d, p).1 == None ==> Probed(Calls(drv, d, p))
    decreases p.Height()
  {
    if !p.Return? {
      var (d', r) := drv(p.Pending(), d);
      var rest := p.Resume(r);
      if EndsInProbe(rest) {
        SuccessIsProbed(drv, d', rest);
        var more := Calls(drv, d', rest);
        assert more != [] ==> ([(p.Pending(), r)] + more)[|more|] == more[|more| - 1];
      } else {
        assert rest == Return(None);
        assert Calls(drv, d, p) == [(p.Pending(), r)] + [];
      }
    }
  }

  lemma {:induction false} PollEndsInProbe(left: nat, desired: VmState, after: Program)
    requires EndsInProbe(after)
    ensures EndsInProbe(Poll(left, desired, after))
  {
    if left > 0 { PollEndsInProbe(left - 1, desired, after); }
  }

  lemma {:induction false} AwaitEndsInProbe(left: nat, after: Program)
    requires after == Return(None) || EndsInProbe(after)
    ensures EndsInProbe(AwaitSsh(left, after))
  {
    if left > 0 {
      AwaitEndsInProbe(left - 1, after);
      CommandEndsInProbe(after, AwaitSsh(left - 1, after));
    }
  }

  lemma CommandEndsInProbe(ok: Program, failed: Program)
    requires (ok == Return(None) || EndsInProbe(ok)) && EndsInProbe(failed)
    ensures EndsInProbe(SshCommand(ok, failed))
  {
    var probe := Attempt(Ssh, ok, failed);
    assert EndsInProbe(probe);
    assert EndsInProbe(Ask(SshUsername, probe));
    assert EndsInProbe(Ask(SshKeyPath, Ask(SshUsername, probe)));
  }

  lemma CommandOrReturnEndsInProbe(next: Program)
    requires EndsInProbe(next)
    ensures EndsInProbe(SshCommandOrReturn(next))
  {
    var probe := Do(Ssh, next);
    assert EndsInProbe(Ask(SshUsername, probe));
    assert EndsInProbe(Ask(SshKeyPath, Ask(SshUsername, probe)));
  }

  /** Whatever comes before, if what comes last ends in a probe, so does the whole. */
  lemma {:induction false} SequenceEndsInProbe(p: Program, q: Program)
    requires EndsInProbe(q)
    ensures EndsInProbe(Sequence(p, q))
  {
    match p
    case Return(_) =>
    case InState(_, yes, no) =>
      SequenceEndsInProbe(yes, q);
      SequenceEndsInProbe(no, q);
    case Do(_, next) => SequenceEndsInProbe(next, q);
    case Attempt(_, ok, failed) =>
      SequenceEndsInProbe(ok, q);
      SequenceEndsInProbe(failed, q);
  }

  // ----- the operations that a program can call

  function Uses(p: Program): set<Op> {
    match p
    case Return(_) => {}
    case InState(_, yes, no) => {GetState} + Uses(yes) + Uses(no)
    case Do(op, next) => {op} + Uses(next)
    case Attempt(op, ok, failed) => {op} + Uses(ok) + Uses(failed)
  }

  ghost predicate CallsOnly(calls: Trace, ops: set<Op>) {
    forall i :: 0 <= i < |calls| ==> calls[i].0 in ops
  }

  lemma {:induction false} OnlyWhatItUses<D>(drv: Driver<D>, d: D, p: Program, ops: set<Op>)
    requires Uses(p) <= ops
    ensures CallsOnly(Calls(drv, d, p), ops)
    decreases p.Height()
  {
    if !p.Return? {
      var (d', r) := drv(p.Pending(), d);
      OnlyWhatItUses(drv, d', p.Resume(r), ops);
    }
  }

  lemma {:induction false} PollUses(left: nat, desired: VmState, after: Program)
    ensures Uses(Poll(left, desired, after)) <= {GetState} + Uses(after)
  {
    if left > 0 { PollUses(left - 1, desired, after); }
  }

  lemma {:induction false} AwaitUses(left: nat, after: Program)
    ensures Uses(AwaitSsh(left, after)) <= PROBING + Uses(after)
  {
    if left > 0 {
      AwaitUses(left - 1, after);
      CommandUses(after, AwaitSsh(left - 1, after));
    }
  }

  lemma CommandUses(ok: Program, failed: Program)
    ensures Uses(SshCommand(ok, failed)) <= PROBING + Uses(ok) + Uses(failed)
    ensures Uses(SshCommandOrReturn(ok)) <= PROBING + Uses(ok)
  {
    var probe, strict := Attempt(Ssh, ok, failed), Do(Ssh, ok);
    assert Uses(Ask(SshUsername, probe)) == {SshUsername} + Uses(probe);
    assert Uses(Ask(SshKeyPath, Ask(SshUsername, probe))) == {SshKeyPath} + Uses(Ask(SshUsername, probe));
    assert Uses(Ask(SshUsername, strict)) == {SshUsername} + Uses(strict);
    assert Uses(Ask(SshKeyPath, Ask(SshUsername, strict))) == {SshKeyPath} + Uses(Ask(SshUsername, strict));
  }

  lemma {:induction false} SequenceUses(p: Program, q: Program)
    ensures Uses(Sequence(p, q)) <= Uses(p) + Uses(q)
  {
    match p
    case Return(_) =>
    case InState(_, yes, no) =>
      SequenceUses(yes, q);
      SequenceUses(no, q);
    case Do(_, next) => SequenceUses(next, q);
    case Attempt(_, ok, failed) =>
      SequenceUses(ok, q);
      SequenceUses(failed, q);
  }

  const PROBING: set<Op> := {SshHostname, SshPort, SshKeyPath, SshUsername, Ssh}
  const LOOKING: set<Op> := {GetState, SshHostname, SshPort, SshKeyPath, SshUsername, Ssh}

  // ----- the two commands

  /** Look; if the machine is where it should be, that is an error; otherwise act, and then only ask. */
  ghost predicate Acted(calls: Trace, err: Option<Error>, act: Op, desired: VmState) {
    && calls != [] && calls[0].0 == GetState
    && (calls[0].1.state == desired ==> calls == [calls[0]] && err == Some(AlreadyInState(desired)))
    && (calls[0].1.state != desired ==> |calls| >= 2 && calls[1].0 == act && CallsOnly(calls[2..], LOOKING))
  }

  /** A program that looks, acts, polls and then does something more. */
  lemma ActThenMore<D>(drv: Driver<D>, d: D, act: Op, desired: VmState, attempts: nat, more: Program)
    requires Harmless(more)
    ensures var p := CheckActPoll(act, desired, attempts, more);
            var calls := Calls(drv, d, p);
            && (RunAlone(drv, d, p).1 == None ==> Probed(calls))
            && Acted(calls, RunAlone(drv, d, p).1, act, desired)
  {
    var p := CheckActPoll(act, desired, attempts, more);
    PollEndsInProbe(attempts, desired, more);
    SuccessIsProbed(drv, d, p);
    var (d1, r1) := drv(GetState, d);
    OneLook(drv, d, p);
    if r1.state != desired {
      ActAndLook(drv, d1, act, Poll(attempts, desired, more));
      PollUses(attempts, desired, more);
      ActCalls(drv, d1, act, Poll(attempts, desired, more));
      assert Calls(drv, d, p)[2..] == Calls(drv, d1, p.no)[1..];
    }
  }

  lemma ActAndLook<D>(drv: Driver<D>, d: D, act: Op, next: Program)
    ensures var calls := Calls(drv, d, Do(act, next)); calls != [] && calls[0].0 == act
  {
  }

  lemma ActCalls<D>(drv: Driver<D>, d: D, act: Op, next: Program)
    requires Uses(next) <= LOOKING
    ensures CallsOnly(Calls(drv, d, Do(act, next))[1..], LOOKING)
  {
    var (d', r) := drv(act, d);
    var rest := Do(act, next).Resume(r);
    OnlyWhatItUses(drv, d', rest, LOOKING);
    assert Calls(drv, d, Do(act, next)) == [(act, r)] + Calls(drv, d', rest);
  }

  /** `Start`: nothing but an error on a machine that runs; otherwise one call of the driver's `Start`, and after it
      only questions; success means that the last of them was answered by the guest. */
  lemma StartOutcome<D>(drv: Driver<D>, d: D)
    ensures var calls := Calls(drv, d, START);
            && (RunAlone(drv, d, START).1 == None ==> Probed(calls))
            && Acted(calls, RunAlone(drv, d, START).1, StartOp, Running)
  {
    WaitIsHarmless(MAX_ATTEMPTS, PODMAN_ATTEMPTS);
    ActThenMore(drv, d, StartOp, Running, MAX_ATTEMPTS, WAIT_FOR_PODMAN);
  }

  /** A program that ends in a probe and calls nothing that acts on the machine. */
  ghost predicate Harmless(p: Program) {
    EndsInProbe(p) && Uses(p) <= LOOKING
  }

  lemma WaitIsHarmless(ssh: nat, podman: nat)
    ensures Harmless(WaitForPodman(ssh, podman))
  {
    var last := AwaitSsh(podman, Return(None));
    AwaitEndsInProbe(podman, Return(None));
    CommandOrReturnEndsInProbe(last);
    AwaitEndsInProbe(ssh, SshCommandOrReturn(last));
    AwaitUses(podman, Return(None));
    CommandUses(last, Return(None));
    AwaitUses(ssh, SshCommandOrReturn(last));
  }

  lemma TwiceIsHarmless(p: Program)
    requires Harmless(p)
    ensures Harmless(Sequence(p, p))
  {
    SequenceEndsInProbe(p, p);
    SequenceUses(p, p);
  }

  ghost predicate RestartedIfRunning(calls: Trace) {
    && calls != [] && calls[0].0 == GetState
    && (calls[0].1.state == Running ==> |calls| >= 2 && calls[1].0 == RestartOp && CallsOnly(calls[2..], LOOKING))
    && (calls[0].1.state != Running ==> CallsOnly(calls, LOOKING))
  }

  /** What `Restart` does once it has seen that the machine is not stopped. */
  lemma NotStopped<D>(drv: Driver<D>, d: D, attempts: nat, more: Program)
    requires Harmless(more)
    ensures RestartedIfRunning(Calls(drv, d, InState(Running, Do(RestartOp, Poll(attempts, Running, more)), more)))
  {
    var p := InState(Running, Do(RestartOp, Poll(attempts, Running, more)), more);
    var (d1, r1) := drv(GetState, d);
    if r1.state == Running {
      ActAndLook(drv, d1, RestartOp, p.yes.next);
      PollUses(attempts, Running, more);
      ActCalls(drv, d1, RestartOp, p.yes.next);
      assert Calls(drv, d, p) == [(GetState, r1)] + Calls(drv, d1, p.yes);
      assert Calls(drv, d, p)[2..] == Calls(drv, d1, p.yes)[1..];
    } else {
      OnlyWhatItUses(drv, d1, more, LOOKING);
      assert Calls(drv, d, p) == [(GetState, r1)] + Calls(drv, d1, more);
    }
  }

  /** `Restart`: a stopped machine is started as `Start` would, a running one restarted by its driver, in both cases
      with one call of the driver and only questions after it; in any other state the driver is only asked. Success
      means that the guest answered the last question. */
  ghost predicate Restarted(calls: Trace, err: Option<Error>) {
    && (err == None ==> Probed(calls))
    && |calls| >= 2 && calls[0].0 == GetState == calls[1].0
    && (calls[0].1.state == Stopped && calls[1].1.state != Running ==>
          |calls| >= 3 && calls[2].0 == StartOp && CallsOnly(calls[3..], LOOKING))
    && (calls[0].1.state == Stopped && calls[1].1.state == Running ==>
          |calls| == 2 && err == Some(AlreadyInState(Running)))
    && (calls[0].1.state != Stopped && calls[1].1.state == Running ==>
          |calls| >= 3 && calls[2].0 == RestartOp && CallsOnly(calls[3..], LOOKING))
    && (calls[0].1.state != Stopped && calls[1].1.state != Running ==> CallsOnly(calls, LOOKING))
  }

  lemma RestartOutcome<D>(drv: Driver<D>, d: D)
    ensures Restarted(Calls(drv, d, RESTART), RunAlone(drv, d, RESTART).1)
  {
    WaitIsHarmless(MAX_ATTEMPTS, PODMAN_ATTEMPTS);
    TwiceIsHarmless(WAIT_FOR_PODMAN);
    RestartWith(drv, d, MAX_ATTEMPTS, WAIT_FOR_PODMAN, Sequence(WAIT_FOR_PODMAN, WAIT_FOR_PODMAN));
  }

  /** The same for any number of attempts and anything to do at the end. */
  lemma RestartWith<D>(drv: Driver<D>, d: D, attempts: nat, once: Program, twice: Program)
    requires Harmless(once) && Harmless(twice)
    ensures var p := InState(Stopped, CheckActPoll(StartOp, Running, attempts, twice),
                             InState(Running, Do(RestartOp, Poll(attempts, Running, once)), once));
            Restarted(Calls(drv, d, p), RunAlone(drv, d, p).1)
  {
    var p := InState(Stopped, CheckActPoll(StartOp, Running, attempts, twice),
                     InState(Running, Do(RestartOp, Poll(attempts, Running, once)), once));
    PollEndsInProbe(attempts, Running, twice);
    PollEndsInProbe(attempts, Running, once);
    SuccessIsProbed(drv, d, p);
    OneLook(drv, d, p);
    var (d1, r1) := drv(GetState, d);
    if r1.state == Stopped {
      ActThenMore(drv, d1, StartOp, Running, attempts, twice);
      LookThenStart((GetState, r1), Calls(drv, d1, p.yes), RunAlone(drv, d1, p.yes).1);
    } else {
      NotStopped(drv, d1, attempts, once);
      LookThenRestart((GetState, r1), Calls(drv, d1, p.no), RunAlone(drv, d1, p.no).1);
    }
  }

  lemma LookThenStart(look: (Op, Reply), more: Trace, err: Option<Error>)
    requires look.0 == GetState && look.1.state == Stopped && Acted(more, err, StartOp, Running)
    requires err == None ==> Probed([look] + more)
    ensures Restarted([look] + more, err)
  {
    var calls := [look] + more;
    assert |more| >= 2 ==> calls[3..] == more[2..];
  }

  lemma LookThenRestart(look: (Op, Reply), more: Trace, err: Option<Error>)
    requires look.0 == GetState && look.1.state != Stopped && RestartedIfRunning(more)
    requires err == None ==> Probed([look] + more)
    ensures Restarted([look] + more, err)
  {
    var calls := [look] + more;
    assert |more| >= 2 ==> calls[3..] == more[2..];
  }

  lemma OneLook<D>(drv: Driver<D>, d: D, p: Program)
    requires p.InState?
    ensures var (d1, r1) := drv(GetState, d);
            var rest := if r1.state == p.desired then p.yes else p.no;
            && Calls(drv, d, p) == [(GetState, r1)] + Calls(drv, d1, rest)
            && RunAlone(drv, d, p) == RunAlone(drv, d1, rest)
  {
  }

  // ----- all commands of `machineCommand` that are modelled

  datatype Command = Start | Stop | Restart | Kill | Ip

  function ProgramOf(cmd: Command): Program {
    match cmd
    case Start => START
    case Stop => STOP
    case Restart => RESTART
    case Kill => KILL
    case Ip => PRINT_IP
  }

  /** `Stop` and `Kill` check, act and poll, and nothing more. */
  lemma StopAndKillOutcome<D>(drv: Driver<D>, d: D)
    ensures ActedAndPolled(Calls(drv, d, STOP), RunAlone(drv, d, STOP).1, StopOp, Stopped, MAX_ATTEMPTS)
    ensures ActedAndPolled(Calls(drv, d, KILL), RunAlone(drv, d, KILL).1, KillOp, Stopped, MAX_ATTEMPTS)
  {
    ActionOutcome(drv, d, StopOp, Stopped, MAX_ATTEMPTS);
    ActionOutcome(drv, d, KillOp, Stopped, MAX_ATTEMPTS);
  }

  /** The driver operations that change the machine. */
  predicate Changes(op: Op) {
    op == StartOp || op == StopOp || op == RestartOp || op == KillOp
  }

  ghost predicate ChangesAtMostOnce(calls: Trace) {
    forall i, j :: 0 <= i < j < |calls| ==> !(Changes(calls[i].0) && Changes(calls[j].0))
  }

  /** If everything from `n + 1` on, and everything before `n`, only asks, the machine is changed at most once. */
  lemma OnlyAt(calls: Trace, n: nat)
    requires forall i :: 0 <= i < |calls| && i != n ==> !Changes(calls[i].0)
    ensures ChangesAtMostOnce(calls)
  {
  }

  lemma LookingChangesNothing(calls: Trace, n: nat)
    requires n <= |calls| && CallsOnly(calls[n..], LOOKING)
    ensures forall i :: n <= i < |calls| ==> !Changes(calls[i].0)
  {
    forall i | n <= i < |calls|
      ensures !Changes(calls[i].0)
    {
      assert calls[n..][i - n] == calls[i];
    }
  }

  lemma ActedChangesOnce(calls: Trace)
    requires calls != [] && calls[0].0 == GetState && (|calls| >= 2 ==> CallsOnly(calls[2..], LOOKING))
    ensures ChangesAtMostOnce(calls)
  {
    if |calls| >= 2 { LookingChangesNothing(calls, 2); }
    OnlyAt(calls, 1);
  }

  lemma RestartedChangesOnce(calls: Trace, err: Option<Error>)
    requires Restarted(calls, err)
    ensures ChangesAtMostOnce(calls)
  {
    if calls[0].1.state != Stopped && calls[1].1.state != Running {
      assert calls[0..] == calls;
      LookingChangesNothing(calls, 0);
    } else if |calls| >= 3 {
      LookingChangesNothing(calls, 3);
    }
    OnlyAt(calls, 2);
  }

  /** Whatever the driver answers, no command changes a machine more than once. */
  lemma EveryCommandChangesOnce<D>(drv: Driver<D>, d: D, cmd: Command)
    ensures ChangesAtMostOnce(Calls(drv, d, ProgramOf(cmd)))
  {
    var calls := Calls(drv, d, ProgramOf(cmd));
    match cmd
    case Start =>
      StartOutcome(drv, d);
      ActedChangesOnce(calls);
    case Stop =>
      StopAndKillOutcome(drv, d);
      ActedChangesOnce(calls);
    case Kill =>
      StopAndKillOutcome(drv, d);
      ActedChangesOnce(calls);
    case Restart =>
      RestartOutcome(drv, d);
      RestartedChangesOnce(calls, RunAlone(drv, d, RESTART).1);
    case Ip =>
      OnlyWhatItUses(drv, d, PRINT_IP, {GetIP});
  }
}
