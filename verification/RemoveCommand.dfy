/** `cmdRm`: removing machines, first at their provider and then from the local store. */
module RemoveCommand {

  datatype Call = Remote(name: string, ok: bool) | Local(name: string, ok: bool)

  /** Whether the world (disk, plugin, provider) lets the k-th call succeed. */
  type Answers = nat -> bool

  /** The local store, as far as `rm` is concerned: the names of the machines it holds, and a log of the removals that
      were tried. */
  class Store {
    const answers: Answers
    var machines: set<string>
    var log: seq<Call>

    constructor (answers: Answers, machines: set<string>)
      ensures this.answers == answers && this.machines == machines && log == []
    {
      this.answers, this.machines, log := answers, machines, [];
    }

    /** `api.Load` and then `Driver.Remove`; loading a machine that is not there always fails. */
    method RemoveRemote(name: string) returns (ok: bool)
      modifies this`log
      ensures ok == (answers(|old(log)|) && name in machines)
      ensures log == old(log) + [Remote(name, ok)]
    {
      ok := answers(|log|) && name in machines;
      log := log + [Remote(name, ok)];
    }

    /** `removeLocalMachine`: fails when the machine is not there, or cannot be looked up, or cannot be removed. */
    method RemoveLocal(name: string) returns (ok: bool)
      modifies this`log, this`machines
      ensures ok == (answers(|old(log)|) && name in old(machines))
      ensures log == old(log) + [Local(name, ok)]
      ensures machines == if ok then old(machines) - {name} else old(machines)
    {
      ok := answers(|log|) && name in machines;
      log := log + [Local(name, ok)];
      if ok { machines := machines - {name}; }
    }
  }

  // ----- what should happen, as a function of the answers

  /** What happens to one argument. */
  datatype Step = Step(name: string, remoteOk: bool, localTried: bool, localOk: bool)

  /** Argument `name`, handled when `at` calls have been made and the store holds `machines`. */
  function Handle(answers: Answers, at: nat, machines: set<string>, name: string, force: bool): Step {
    var remoteOk := answers(at) && name in machines;
    var localTried := remoteOk || force;
    Step(name, remoteOk, localTried, localTried && answers(at + 1) && name in machines)
  }

  function CallsOf(st: Step): seq<Call> {
    [Remote(st.name, st.remoteOk)] + if st.localTried then [Local(st.name, st.localOk)] else []
  }

  function ErrorsOf(st: Step): nat {
    (if st.remoteOk then 0 else 1) + (if st.localTried && !st.localOk then 1 else 0)
  }

  /** How far the command has come. */
  datatype Progress = Progress(log: seq<Call>, machines: set<string>, errors: nat, steps: seq<Step>)

  /** After the first `n` arguments, each handled whatever happened to the ones before it. */
  function After(answers: Answers, start: Progress, args: seq<string>, n: nat, force: bool): (r: Progress)
    requires n <= |args|
    ensures |r.steps| == |start.steps| + n
  {
    if n == 0 then start
    else
      var b := After(answers, start, args, n - 1, force);
      var st := Handle(answers, |b.log|, b.machines, args[n - 1], force);
      Progress(b.log + CallsOf(st), b.machines - (if st.localOk then {st.name} else {}),
               b.errors + ErrorsOf(st), b.steps + [st])
  }

  /** All arguments, on a store with these machines. */
  function Handled(answers: Answers, log: seq<Call>, machines: set<string>, args: seq<string>, force: bool): Progress {
    After(answers, Progress(log, machines, 0, []), args, |args|, force)
  }

  // ----- the command

  /** One turn of the loop; `errors` is how many errors it collects. */
  method RemoveOne(store: Store, name: string, force: bool) returns (errors: nat)
    modifies store
    ensures var st := Handle(store.answers, |old(store.log)|, old(store.machines), name, force);
            && store.log == old(store.log) + CallsOf(st)
            && store.machines == old(store.machines) - (if st.localOk then {name} else {})
            && errors == ErrorsOf(st)
  {
    errors := 0;
    var ok := store.RemoveRemote(name);
    if !ok { errors := errors + 1; }
    if ok || force {
      ok := store.RemoveLocal(name);
      if !ok { errors := errors + 1; }
    }
  }

  /** Unless nothing was named, or the user was asked and did not agree, the calls that are made, the machines that are
      left and the errors that are collected are those of each argument in turn; an error is returned exactly when one
      was collected and force is off. `agrees` is the answer to the question. */
  method CmdRm(store: Store, args: seq<string>, force: bool, yes: bool, agrees: bool) returns (failed: bool)
    modifies store
    ensures args == [] || !(yes || force || agrees) ==>
              failed == (args == []) && store.log == old(store.log) && store.machines == old(store.machines)
    ensures args != [] && (yes || force || agrees) ==>
              var all := Handled(store.answers, old(store.log), old(store.machines), args, force);
              store.log == all.log && store.machines == all.machines && (failed <==> all.errors > 0 && !force)
  {
    if args == [] { return true; }
    if !(yes || force || agrees) { return false; }
    var errors := 0;
    ghost var start := Progress(store.log, store.machines, 0, []);
    ghost var steps: seq<Step> := [];
    for i := 0 to |args|
      invariant Progress(store.log, store.machines, errors, steps) == After(store.answers, start, args, i, force)
    {
      steps := steps + [Handle(store.answers, |store.log|, store.machines, args[i], force)];
      var more := RemoveOne(store, args[i], force);
      errors := errors + more;
    }
    failed := errors > 0 && !force;
  }

  // ----- what that comes to

  /** The calls of the first `n` steps. */
  function Calls(steps: seq<Step>, n: nat): seq<Call>
    requires n <= |steps|
  {
    if n == 0 then [] else Calls(steps, n - 1) + CallsOf(steps[n - 1])
  }

  lemma {:induction false} SameCalls(a: seq<Step>, b: seq<Step>, n: nat)
    requires n <= |a| && n <= |b| && forall i :: 0 <= i < n ==> a[i] == b[i]
    ensures Calls(a, n) == Calls(b, n)
  {
    if n > 0 { SameCalls(a, b, n - 1); }
  }

  /** The store removal of `name` has succeeded for one of the first `n` arguments. */
  ghost predicate Gone(steps: seq<Step>, n: nat, name: string)
    requires n <= |steps|
  {
    exists i :: 0 <= i < n && steps[i].localOk && steps[i].name == name
  }

  /** Step `i` is what should happen to `name`: remote removal is tried; store removal exactly after a successful remote
      removal or with force; neither can succeed for a machine that is not there or no longer there. */
  ghost predicate Follows(steps: seq<Step>, i: nat, name: string, machines: set<string>, force: bool)
    requires i < |steps|
  {
    var st := steps[i];
    && st.name == name
    && (st.localTried <==> st.remoteOk || force)
    && (st.remoteOk || st.localOk ==> name in machines && !Gone(steps, i, name))
    && (st.localOk ==> st.localTried)
  }

  lemma Regroup<T>(a: seq<T>, b: seq<T>, c: seq<T>)
    ensures (a + b) + c == a + (b + c)
  {
  }

  lemma {:induction false} CallsAreMade(answers: Answers, log: seq<Call>, machines: set<string>, args: seq<string>,
                                        n: nat, force: bool)
    requires n <= |args|
    ensures var r := After(answers, Progress(log, machines, 0, []), args, n, force); r.log == log + Calls(r.steps, n)
  {
    if n > 0 {
      CallsAreMade(answers, log, machines, args, n - 1, force);
      var b := After(answers, Progress(log, machines, 0, []), args, n - 1, force);
      var r := After(answers, Progress(log, machines, 0, []), args, n, force);
      SameCalls(r.steps, b.steps, n - 1);
      Regroup(log, Calls(b.steps, n - 1), CallsOf(r.steps[n - 1]));
    }
  }

  lemma {:induction false} WhoIsLeft(answers: Answers, start: Progress, args: seq<string>, n: nat, force: bool,
                                     name: string)
    requires n <= |args| && start.steps == []
    ensures var r := After(answers, start, args, n, force);
            name in r.machines <==> name in start.machines && !Gone(r.steps, n, name)
  {
    if n > 0 {
      WhoIsLeft(answers, start, args, n - 1, force, name);
      var b, r := After(answers, start, args, n - 1, force), After(answers, start, args, n, force);
      assert forall i :: 0 <= i < n - 1 ==> r.steps[i] == b.steps[i];
      if i :| 0 <= i < n - 1 && b.steps[i].localOk && b.steps[i].name == name {
        assert r.steps[i].localOk && r.steps[i].name == name;
      }
      if r.steps[n - 1].localOk && r.steps[n - 1].name == name {
        assert Gone(r.steps, n, name);
      }
    }
  }

  lemma {:induction false} EveryArgumentIsHandled(answers: Answers, start: Progress, args: seq<string>, n: nat,
                                                  force: bool, i: nat)
    requires i < n <= |args| && start.steps == []
    ensures Follows(After(answers, start, args, n, force).steps, i, args[i], start.machines, force)
  {
    var b, r := After(answers, start, args, n - 1, force), After(answers, start, args, n, force);
    assert forall j :: 0 <= j < n - 1 ==> r.steps[j] == b.steps[j];
    if i < n - 1 {
      EveryArgumentIsHandled(answers, start, args, n - 1, force, i);
      assert Gone(r.steps, i, args[i]) <==> Gone(b.steps, i, args[i]);
    } else {
      WhoIsLeft(answers, start, args, n - 1, force, args[i]);
      assert Gone(r.steps, i, args[i]) <==> Gone(b.steps, i, args[i]);
    }
  }

  lemma {:induction false} ErrorsIff(answers: Answers, start: Progress, args: seq<string>, n: nat, force: bool)
    requires n <= |args| && start.steps == [] && start.errors == 0
    ensures var r := After(answers, start, args, n, force);
            r.errors > 0 <==> exists i :: 0 <= i < n && ErrorsOf(r.steps[i]) > 0
  {
    if n > 0 {
      ErrorsIff(answers, start, args, n - 1, force);
      var b, r := After(answers, start, args, n - 1, force), After(answers, start, args, n, force);
      assert forall i :: 0 <= i < n - 1 ==> r.steps[i] == b.steps[i];
      assert r.errors == b.errors + ErrorsOf(r.steps[n - 1]);
      if b.errors > 0 {
        var i :| 0 <= i < n - 1 && ErrorsOf(b.steps[i]) > 0;
        assert ErrorsOf(r.steps[i]) > 0;
      }
    }
  }

  /** The whole: every argument has its step, and the calls made are exactly those of the steps, in order; a machine is
      left exactly if it was there and, for each argument that names it, the remote removal failed without force or the
      store removal failed; errors are collected exactly if some removal that was tried failed. */
  lemma HandledMeans(answers: Answers, log: seq<Call>, machines: set<string>, args: seq<string>, force: bool,
                     name: string)
    ensures var r := Handled(answers, log, machines, args, force);
            && |r.steps| == |args| && r.log == log + Calls(r.steps, |args|)
            && (forall i :: 0 <= i < |args| ==> Follows(r.steps, i, args[i], machines, force))
            && (name in r.machines <==>
                && name in machines
                && forall i :: 0 <= i < |args| && args[i] == name ==>
                     (!r.steps[i].remoteOk && !force) || (r.steps[i].localTried && !r.steps[i].localOk))
            && (r.errors > 0 <==> exists i :: 0 <= i < |args| && ErrorsOf(r.steps[i]) > 0)
  {
    var start := Progress(log, machines, 0, []);
    var r := Handled(answers, log, machines, args, force);
    CallsAreMade(answers, log, machines, args, |args|, force);
    WhoIsLeft(answers, start, args, |args|, force, name);
    ErrorsIff(answers, start, args, |args|, force);
    forall i | 0 <= i < |args|
      ensures Follows(r.steps, i, args[i], machines, force)
    {
      EveryArgumentIsHandled(answers, start, args, |args|, force, i);
    }
    LeftIff(r.steps, args, machines, force, name);
  }

  lemma LeftIff(steps: seq<Step>, args: seq<string>, machines: set<string>, force: bool, name: string)
    requires |steps| == |args| && forall i :: 0 <= i < |args| ==> Follows(steps, i, args[i], machines, force)
    ensures !Gone(steps, |steps|, name) <==>
            forall i :: 0 <= i < |args| && args[i] == name ==>
              (!steps[i].remoteOk && !force) || (steps[i].localTried && !steps[i].localOk)
  {
    forall i | 0 <= i < |args|
      ensures steps[i].name == args[i] && (steps[i].localTried <==> steps[i].remoteOk || force)
      ensures steps[i].localOk ==> steps[i].localTried
    {
      assert Follows(steps, i, args[i], machines, force);
    }
  }

  /** Naming a machine twice is always an error: at the latest, loading it again fails. */
  lemma DuplicateIsAnError(answers: Answers, log: seq<Call>, machines: set<string>, args: seq<string>, force: bool,
                           i: nat, j: nat)
    requires i < j < |args| && args[i] == args[j]
    ensures Handled(answers, log, machines, args, force).errors > 0
  {
    var steps := Handled(answers, log, machines, args, force).steps;
    HandledMeans(answers, log, machines, args, force, args[i]);
    assert Follows(steps, i, args[i], machines, force) && Follows(steps, j, args[j], machines, force);
    if steps[i].remoteOk && steps[i].localOk {
      assert Gone(steps, j, args[j]);
      assert ErrorsOf(steps[j]) > 0;
    } else {
      assert ErrorsOf(steps[i]) > 0;
    }
  }
}
