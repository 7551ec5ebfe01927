/** When `Start` and `Restart` of a host succeed, and how long they wait for the guest. */
module HostWaiting {
  import opened Basics
  import opened HostActions
  import opened HostCommands

  // ----- a guest that has answered last means success

  predicate Fails(p: Program) {
    p.Return? && p.err.Some?
  }

  /** No command on the guest that succeeds leads straight to an error. */
  predicate NoLateFailure(p: Program) {
    match p
    case Return(_) => true
    case InState(_, yes, no) => NoLateFailure(yes) && NoLateFailure(no)
    case Do(op, next) => NoLateFailure(next) && (op == Ssh ==> !Fails(next))
    case Attempt(op, ok, failed) => NoLateFailure(ok) && NoLateFailure(failed) && (op == Ssh ==> !Fails(ok))
  }

  lemma {:induction false} ProbedSucceeds<D>(drv: Driver<D>, d: D, p: Program)
    requires NoLateFailure(p) && Probed(Calls(drv, d, p))
    ensures RunAlone(drv, d, p).1 == None
    decreases p.Height()
  {
    if !p.Return? {
      var (d', r) := drv(p.Pending(), d);
      var rest := p.Resume(r);
      var more := Calls(drv, d', rest);
      assert Calls(drv, d, p) == [(p.Pending(), r)] + more;
      if more == [] {
        assert rest.Return?;
      } else {
        assert ([(p.Pending(), r)] + more)[|more|] == more[|more| - 1];
        StillNoLateFailure(p, r);
        ProbedSucceeds(drv, d', rest);
      }
    }
  }

  lemma StillNoLateFailure(p: Program, r: Reply)
    requires NoLateFailure(p) && !p.Return?
    ensures NoLateFailure(p.Resume(r))
  {
  }

  lemma {:induction false} PollNoLateFailure(left: nat, desired: VmState, after: Program)
    requires NoLateFailure(after)
    ensures NoLateFailure(Poll(left, desired, after))
  {
    if left > 0 { PollNoLateFailure(left - 1, desired, after); }
  }

  lemma CommandNoLateFailure(ok: Program, failed: Program)
    requires NoLateFailure(ok) && !Fails(ok) && NoLateFailure(failed)
    ensures NoLateFailure(SshCommand(ok, failed)) && NoLateFailure(SshCommandOrReturn(ok))
  {
    var probe, strict := Attempt(Ssh, ok, failed), Do(Ssh, ok);
    assert NoLateFailure(probe) && NoLateFailure(strict);
    assert NoLateFailure(Ask(SshUsername, probe)) && NoLateFailure(Ask(SshUsername, strict));
    assert NoLateFailure(Ask(SshKeyPath, Ask(SshUsername, probe)));
    assert NoLateFailure(Ask(SshKeyPath, Ask(SshUsername, strict)));
  }

  lemma {:induction false} AwaitNoLateFailure(left: nat, after: Program)
    requires NoLateFailure(after) && !Fails(after)
    ensures NoLateFailure(AwaitSsh(left, after))
  {
    if left > 0 {
      AwaitNoLateFailure(left - 1, after);
      CommandNoLateFailure(after, AwaitSsh(left - 1, after));
    }
  }

  lemma {:induction false} SequenceNoLateFailure(p: Program, q: Program)
    requires NoLateFailure(p) && NoLateFailure(q) && !Fails(q)
    ensures NoLateFailure(Sequence(p, q))
    ensures !Fails(p) ==> !Fails(Sequence(p, q))
  {
    match p
    case Return(_) =>
    case InState(_, yes, no) =>
      SequenceNoLateFailure(yes, q);
      SequenceNoLateFailure(no, q);
    case Do(_, next) => SequenceNoLateFailure(next, q);
    case Attempt(_, ok, failed) =>
      SequenceNoLateFailure(ok, q);
      SequenceNoLateFailure(failed, q);
  }

  lemma WaitNoLateFailure(ssh: nat, podman: nat)
    requires ssh > 0 && podman > 0
    ensures NoLateFailure(WaitForPodman(ssh, podman)) && !Fails(WaitForPodman(ssh, podman))
  {
    var last := AwaitSsh(podman, Return(None));
    AwaitNoLateFailure(podman, Return(None));
    CommandNoLateFailure(last, Return(None));
    AwaitNoLateFailure(ssh, SshCommandOrReturn(last));
  }

  lemma ActNoLateFailure(act: Op, attempts: nat, more: Program)
    requires act != Ssh && NoLateFailure(more)
    ensures NoLateFailure(CheckActPoll(act, Running, attempts, more))
  {
    PollNoLateFailure(attempts, Running, more);
  }

  /** `Start` succeeds exactly if the guest answered the last call. */
  lemma StartSucceedsIff<D>(drv: Driver<D>, d: D)
    ensures RunAlone(drv, d, START).1 == None <==> Probed(Calls(drv, d, START))
  {
    StartOutcome(drv, d);
    WaitNoLateFailure(MAX_ATTEMPTS, PODMAN_ATTEMPTS);
    ActNoLateFailure(StartOp, MAX_ATTEMPTS, WAIT_FOR_PODMAN);
    if Probed(Calls(drv, d, START)) { ProbedSucceeds(drv, d, START); }
  }

  /** And so does `Restart`. */
  lemma RestartSucceedsIff<D>(drv: Driver<D>, d: D)
    ensures RunAlone(drv, d, RESTART).1 == None <==> Probed(Calls(drv, d, RESTART))
  {
    RestartOutcome(drv, d);
    WaitNoLateFailure(MAX_ATTEMPTS, PODMAN_ATTEMPTS);
    RestartNoLateFailure(MAX_ATTEMPTS, WAIT_FOR_PODMAN);
    if Probed(Calls(drv, d, RESTART)) { ProbedSucceeds(drv, d, RESTART); }
  }

  lemma RestartNoLateFailure(attempts: nat, once: Program)
    requires NoLateFailure(once) && !Fails(once)
    ensures NoLateFailure(InState(Stopped, CheckActPoll(StartOp, Running, attempts, Sequence(once, once)),
                                  InState(Running, Do(RestartOp, Poll(attempts, Running, once)), once)))
  {
    SequenceNoLateFailure(once, once);
    ActNoLateFailure(StartOp, attempts, Sequence(once, once));
    PollNoLateFailure(attempts, Running, once);
  }

  // ----- how many commands are sent to the guest

  /** How many commands were begun: each begins with the question for the host name. */
  function Begun(calls: Trace): nat {
    if calls == [] then 0 else Begun(calls[1..]) + if calls[0].0 == SshHostname then 1 else 0
  }

  lemma {:induction false} BegunAppend(a: Trace, b: Trace)
    ensures Begun(a + b) == Begun(a) + Begun(b)
  {
    if a == [] {
      assert a + b == b;
    } else {
      BegunAppend(a[1..], b);
      assert (a + b)[1..] == a[1..] + b;
    }
  }

  /** One step of a program. */
  lemma OneCall<D>(drv: Driver<D>, d: D, p: Program) returns (d': D, r: Reply)
    requires !p.Return?
    ensures drv(p.Pending(), d) == (d', r)
    ensures Calls(drv, d, p) == [(p.Pending(), r)] + Calls(drv, d', p.Resume(r))
    ensures RunAlone(drv, d, p) == RunAlone(drv, d', p.Resume(r))
    ensures Begun(Calls(drv, d, p)) ==
            Begun(Calls(drv, d', p.Resume(r))) + if p.Pending() == SshHostname then 1 else 0
  {
    var (e, reply) := drv(p.Pending(), d);
    d', r := e, reply;
    var more := Calls(drv, d', p.Resume(r));
    assert ([(p.Pending(), r)] + more)[1..] == more;
  }

  /** One command: begun once, it leads to `ok` or to `failed`. */
  lemma OneCommand<D>(drv: Driver<D>, d: D, ok: Program, failed: Program) returns (e: D, next: Program)
    ensures next == ok || next == failed
    ensures RunAlone(drv, d, SshCommand(ok, failed)) == RunAlone(drv, e, next)
    ensures Begun(Calls(drv, d, SshCommand(ok, failed))) == 1 + Begun(Calls(drv, e, next))
  {
    var r;
    var p := SshCommand(ok, failed);
    e, r := OneCall(drv, d, p);
    next := p.Resume(r);
    if r.err.None? {
      e, r := OneCall(drv, e, p.ok);
      next := p.ok.Resume(r);
      if r.err.None? {
        e, next := ThreeMore(drv, e, ok, failed);
      }
    }
  }

  lemma ThreeMore<D>(drv: Driver<D>, d: D, ok: Program, failed: Program) returns (e: D, next: Program)
    ensures next == ok || next == failed
    ensures var p := Ask(SshKeyPath, Ask(SshUsername, Attempt(Ssh, ok, failed)));
            RunAlone(drv, d, p) == RunAlone(drv, e, next) && Begun(Calls(drv, d, p)) == Begun(Calls(drv, e, next))
  {
    var r;
    var probe := Attempt(Ssh, ok, failed);
    e, r := OneCall(drv, d, Ask(SshKeyPath, Ask(SshUsername, probe)));
    e, r := OneCall(drv, e, Ask(SshUsername, probe));
    e, r := OneCall(drv, e, probe);
    next := probe.Resume(r);
  }

  /** Waiting begins at most `left` commands before it goes on with `after`, and gives up after exactly `left`. */
  lemma {:induction false} AwaitBounds<D>(drv: Driver<D>, d: D, left: nat, after: Program)
    returns (used: nat, e: D, gaveUp: bool)
    ensures used <= left && (gaveUp ==> used == left)
    ensures var p := AwaitSsh(left, after);
            if gaveUp then Begun(Calls(drv, d, p)) == used && RunAlone(drv, d, p).1 == Some(RetriesExceeded)
            else
              && used > 0 && RunAlone(drv, d, p) == RunAlone(drv, e, after)
              && Begun(Calls(drv, d, p)) == used + Begun(Calls(drv, e, after))
  {
    if left == 0 {
      used, e, gaveUp := 0, d, true;
    } else {
      var rest := AwaitSsh(left - 1, after);
      var e1, next := OneCommand(drv, d, after, rest);
      if next == rest {
        used, e, gaveUp := AwaitBounds(drv, e1, left - 1, after);
        used := used + 1;
      } else {
        used, e, gaveUp := 1, e1, false;
      }
    }
  }

  /** Reading /etc/os-release: begun once, and then the rest, or an error. */
  lemma DetectBounds<D>(drv: Driver<D>, d: D, next: Program) returns (e: D, ok: bool)
    ensures var p := SshCommandOrReturn(next);
            if ok then
              RunAlone(drv, d, p) == RunAlone(drv, e, next) && Begun(Calls(drv, d, p)) == 1 + Begun(Calls(drv, e, next))
            else RunAlone(drv, d, p).1 != None && Begun(Calls(drv, d, p)) == 1
  {
    var r;
    var p := SshCommandOrReturn(next);
    ok := false;
    e, r := OneCall(drv, d, p);
    if r.err.None? {
      e, r := OneCall(drv, e, p.next);
      if r.err.None? { e, ok := ThreeStrict(drv, e, next); }
    }
  }

  lemma ThreeStrict<D>(drv: Driver<D>, d: D, next: Program) returns (e: D, ok: bool)
    ensures var p := Ask(SshKeyPath, Ask(SshUsername, Do(Ssh, next)));
            if ok then
              RunAlone(drv, d, p) == RunAlone(drv, e, next) && Begun(Calls(drv, d, p)) == Begun(Calls(drv, e, next))
            else RunAlone(drv, d, p).1 != None && Begun(Calls(drv, d, p)) == 0
  {
    var r;
    var strict := Do(Ssh, next);
    e, r := OneCall(drv, d, Ask(SshKeyPath, Ask(SshUsername, strict)));
    e, r := OneCall(drv, e, Ask(SshUsername, strict));
    e, r := OneCall(drv, e, strict);
    ok := r.err.None?;
  }

  /** How far waiting for Podman comes. */
  datatype Stage = NoSsh | NoProvisioner | NoPodman | Up

  /** How many commands are begun by then, of which `a` wait for ssh and `b` for Podman, and whether that is success. */
  ghost predicate Reached(stage: Stage, a: nat, b: nat, n: nat, err: Option<Error>, ssh: nat, podman: nat) {
    && (err == None <==> stage.Up?)
    && match stage
       case NoSsh => n == ssh
       case NoProvisioner => 1 <= a <= ssh && n == a + 1
       case NoPodman => 1 <= a <= ssh && n == a + 1 + podman
       case Up => 1 <= a <= ssh && 1 <= b <= podman && n == a + 1 + b
  }

  lemma PodmanBounds<D>(drv: Driver<D>, d: D, ssh: nat, podman: nat) returns (stage: Stage, a: nat, b: nat)
    ensures var p := WaitForPodman(ssh, podman);
            Reached(stage, a, b, Begun(Calls(drv, d, p)), RunAlone(drv, d, p).1, ssh, podman)
  {
    var last := AwaitSsh(podman, Return(None));
    var e, gaveUp;
    b := 0;
    a, e, gaveUp := AwaitBounds(drv, d, ssh, SshCommandOrReturn(last));
    if gaveUp { return NoSsh, a, b; }
    var ok;
    e, ok := DetectBounds(drv, e, last);
    if !ok { return NoProvisioner, a, b; }
    b, e, gaveUp := AwaitBounds(drv, e, podman, Return(None));
    stage := if gaveUp then NoPodman else Up;
  }

  /** With the numbers of the program: 60 commands if there is no ssh, up to 60 until there is, one to detect the
      provisioner, and up to 10 for Podman itself, all 10 if it does not come up. */
  lemma WaitBounds<D>(drv: Driver<D>, d: D) returns (stage: Stage, a: nat, b: nat)
    ensures Reached(stage, a, b, Begun(Calls(drv, d, WAIT_FOR_PODMAN)), RunAlone(drv, d, WAIT_FOR_PODMAN).1, 60, 10)
  {
    stage, a, b := PodmanBounds(drv, d, MAX_ATTEMPTS, PODMAN_ATTEMPTS);
  }
}
