/** `getHostListItems` as a step system: per host a querying goroutine and a goroutine that races it against
    a timer, the mutex shared by serial drivers, and the collecting main goroutine. */
module HostListing {
  import opened Basics

  /** `calls` driver calls make up the query of a host; `queried` and `timedOut` are the items it can yield. */
  datatype Host<!T> = Host(serial: bool, calls: nat, queried: T, timedOut: T)

  /** `attemptGetHostState`: `Querying(0)` waits to send its item to the host's own channel. */
  datatype Attempt = NotStarted | Querying(left: nat) | InCall(left: nat) | Handed

  /** `getHostState`: the select; after a timeout, a call of `DriverName`; then one send to the main channel. */
  datatype Getter<T> = Unstarted | Selecting | Naming | InNaming | Forwarding(item: T) | Returned

  datatype Holder = ByAttempt(i: nat) | ByGetter(i: nat)

  datatype State<T> = State(
    attempts: seq<Attempt>,
    getters: seq<Getter<T>>,
    lock: Option<Holder>,
    spawned: nat,
    receiving: bool,
    closed: bool,
    order: seq<nat>,      // hosts in the order in which their items were received
    items: seq<T>)

  datatype Action =
    | Spawn
    | BeginCall(i: nat)
    | EndCall(i: nat)
    | Hand(i: nat)
    | Timeout(i: nat)
    | BeginName(i: nat)
    | EndName(i: nat)
    | Deliver(i: nat)
    | Close

  function Init<T>(hs: seq<Host<T>>): State<T> {
    State(seq(|hs|, i => NotStarted), seq(|hs|, i => Unstarted), None, 0, false, false, [], [])
  }

  ghost predicate Shape<T>(hs: seq<Host<T>>, s: State<T>) {
    |s.attempts| == |hs| == |s.getters| && s.spawned <= |hs|
  }

  ghost predicate Enabled<T>(hs: seq<Host<T>>, s: State<T>, a: Action)
    requires Shape(hs, s)
  {
    match a
    case Spawn => !s.receiving && !s.closed
    case BeginCall(i) =>
      i < |hs| && s.attempts[i].Querying? && s.attempts[i].left > 0 && (hs[i].serial ==> s.lock == None)
    case EndCall(i) => i < |hs| && s.attempts[i].InCall? && s.attempts[i].left > 0
    case Hand(i) => i < |hs| && s.attempts[i] == Querying(0) && s.getters[i].Selecting?
    case Timeout(i) => i < |hs| && s.getters[i].Selecting?
    case BeginName(i) => i < |hs| && s.getters[i].Naming? && (hs[i].serial ==> s.lock == None)
    case EndName(i) => i < |hs| && s.getters[i].InNaming?
    case Deliver(i) => i < |hs| && s.getters[i].Forwarding? && s.receiving && |s.items| < |hs|
    case Close => s.receiving && |s.items| == |hs|
  }

  ghost function Apply<T>(hs: seq<Host<T>>, s: State<T>, a: Action): (t: State<T>)
    requires Shape(hs, s) && Enabled(hs, s, a)
    ensures Shape(hs, t)
  {
    match a
    case Spawn =>
      if s.spawned < |hs| then
        s.(attempts := s.attempts[s.spawned := Querying(hs[s.spawned].calls)],
           getters := s.getters[s.spawned := Selecting], spawned := s.spawned + 1)
      else s.(receiving := true)
    case BeginCall(i) =>
      s.(attempts := s.attempts[i := InCall(s.attempts[i].left)],
         lock := if hs[i].serial then Some(ByAttempt(i)) else s.lock)
    case EndCall(i) =>
      s.(attempts := s.attempts[i := Querying(s.attempts[i].left - 1)], lock := if hs[i].serial then None else s.lock)
    case Hand(i) => s.(attempts := s.attempts[i := Handed], getters := s.getters[i := Forwarding(hs[i].queried)])
    case Timeout(i) => s.(getters := s.getters[i := Naming])
    case BeginName(i) =>
      s.(getters := s.getters[i := InNaming], lock := if hs[i].serial then Some(ByGetter(i)) else s.lock)
    case EndName(i) =>
      s.(getters := s.getters[i := Forwarding(hs[i].timedOut)], lock := if hs[i].serial then None else s.lock)
    case Deliver(i) =>
      s.(getters := s.getters[i := Returned], order := s.order + [i], items := s.items + [s.getters[i].item])
    case Close => s.(receiving := false, closed := true)
  }

  ghost predicate Run<T>(hs: seq<Host<T>>, s: State<T>, acts: seq<Action>, t: State<T>)
    requires Shape(hs, s)
    decreases |acts|
  {
    if acts == [] then s == t else Enabled(hs, s, acts[0]) && Run(hs, Apply(hs, s, acts[0]), acts[1..], t)
  }

  // ----- what every step keeps

  ghost predicate HostOk<T>(hs: seq<Host<T>>, s: State<T>, i: nat)
    requires Shape(hs, s) && i < |hs|
  {
    && (s.getters[i].Unstarted? <==> i >= s.spawned) && (s.attempts[i].NotStarted? <==> i >= s.spawned)
    && (s.getters[i].Forwarding? ==> s.getters[i].item == hs[i].queried || s.getters[i].item == hs[i].timedOut)
    && (s.getters[i].Returned? <==> i in s.order)
    && (s.attempts[i].InCall? ==> s.attempts[i].left > 0)
    && (s.attempts[i].Querying? || s.attempts[i].InCall? ==> s.attempts[i].left <= hs[i].calls)
  }

  ghost predicate LockOk<T>(hs: seq<Host<T>>, s: State<T>, i: nat)
    requires Shape(hs, s) && i < |hs|
  {
    && (hs[i].serial && s.attempts[i].InCall? <==> s.lock == Some(ByAttempt(i)))
    && (hs[i].serial && s.getters[i].InNaming? <==> s.lock == Some(ByGetter(i)))
  }

  ghost predicate Received<T>(hs: seq<Host<T>>, s: State<T>) {
    && |s.order| == |s.items|
    && (forall k :: 0 <= k < |s.order| ==> s.order[k] < |hs|)
    && (forall j, k :: 0 <= j < k < |s.order| ==> s.order[j] != s.order[k])
    && (forall k :: 0 <= k < |s.order| ==>
          s.items[k] == hs[s.order[k]].queried || s.items[k] == hs[s.order[k]].timedOut)
  }

  ghost predicate Inv<T>(hs: seq<Host<T>>, s: State<T>) {
    && Shape(hs, s)
    && (forall i: nat {:trigger HostOk(hs, s, i)} :: i < |hs| ==> HostOk(hs, s, i))
    && (forall i: nat {:trigger LockOk(hs, s, i)} :: i < |hs| ==> LockOk(hs, s, i))
    && (s.lock.Some? ==> s.lock.value.i < |hs|)
    && Received(hs, s)
    && (s.receiving || s.closed ==> s.spawned == |hs|)
    && (s.closed ==> |s.items| == |hs| && !s.receiving)
  }

  lemma InitInv<T>(hs: seq<Host<T>>)
    ensures Inv(hs, Init(hs))
  {
    var s := Init(hs);
    assert forall i :: 0 <= i < |hs| ==> s.attempts[i] == NotStarted && s.getters[i] == Unstarted;
  }

  lemma StepKeepsInv<T>(hs: seq<Host<T>>, s: State<T>, a: Action)
    requires Inv(hs, s) && Enabled(hs, s, a)
    ensures Inv(hs, Apply(hs, s, a))
  {
    var t := Apply(hs, s, a);
    if a.Deliver? { assert HostOk(hs, s, a.i); }
    forall i: nat | i < |hs|
      ensures HostOk(hs, t, i) && LockOk(hs, t, i)
    {
      StepKeepsHost(hs, s, a, i);
      StepKeepsLock(hs, s, a, i);
    }
  }

  lemma StepKeepsHost<T>(hs: seq<Host<T>>, s: State<T>, a: Action, i: nat)
    requires Inv(hs, s) && Enabled(hs, s, a) && i < |hs|
    ensures HostOk(hs, Apply(hs, s, a), i)
  {
    assert HostOk(hs, s, i);
    var t := Apply(hs, s, a);
    assert a.Deliver? ==> (i in t.order <==> i in s.order || i == a.i);
  }

  lemma StepKeepsLock<T>(hs: seq<Host<T>>, s: State<T>, a: Action, i: nat)
    requires Inv(hs, s) && Enabled(hs, s, a) && i < |hs|
    ensures LockOk(hs, Apply(hs, s, a), i)
  {
    assert LockOk(hs, s, i);
    if !a.Spawn? && !a.Close? { assert LockOk(hs, s, a.i); }
    if a.Spawn? { assert HostOk(hs, s, i); }
  }

  lemma {:induction false} RunKeepsInv<T>(hs: seq<Host<T>>, s: State<T>, acts: seq<Action>, t: State<T>)
    requires Inv(hs, s) && Run(hs, s, acts, t)
    ensures Inv(hs, t)
    decreases |acts|
  {
    if acts != [] {
      StepKeepsInv(hs, s, acts[0]);
      RunKeepsInv(hs, Apply(hs, s, acts[0]), acts[1..], t);
    }
  }

  // ----- one item per host, and nothing sent on a closed channel

  ghost function UpTo(n: nat): (r: set<nat>)
    ensures |r| == n && forall i: nat :: i in r <==> i < n
  {
    if n == 0 then {} else UpTo(n - 1) + {n - 1}
  }

  ghost function Elements(order: seq<nat>): (r: set<nat>)
    ensures forall i: nat :: i in r <==> i in order
    ensures (forall j, k :: 0 <= j < k < |order| ==> order[j] != order[k]) ==> |r| == |order|
  {
    if order == [] then {} else Elements(order[..|order| - 1]) + {order[|order| - 1]}
  }

  /** Pigeonhole: distinct hosts are at most all of them, and all of them when there are as many. */
  lemma AllCovered(order: seq<nat>, n: nat)
    requires forall k :: 0 <= k < |order| ==> order[k] < n
    requires forall j, k :: 0 <= j < k < |order| ==> order[j] != order[k]
    ensures |order| <= n
    ensures |order| == n <==> forall i: nat :: i < n ==> i in order
  {
    var seen, all := Elements(order), UpTo(n);
    assert seen <= all;
    assert |all - seen| == n - |order|;
    if |order| == n {
      assert all - seen == {};
    } else {
      var i :| i in all - seen;
      assert i !in order;
    }
  }

  /** For every interleaving and every timeout outcome: each received item is the queried or the timed-out item
      of a different host; when the channel is closed every host has delivered exactly one, and no goroutine is
      left that could send on it. */
  lemma OneItemPerHost<T>(hs: seq<Host<T>>, acts: seq<Action>, t: State<T>)
    requires Run(hs, Init(hs), acts, t)
    ensures Received(hs, t) && Shape(hs, t)
    ensures t.closed ==> |t.items| == |hs| && (forall i: nat :: i < |hs| ==> i in t.order && t.getters[i].Returned?)
  {
    InitInv(hs);
    RunKeepsInv(hs, Init(hs), acts, t);
    if t.closed {
      AllCovered(t.order, |hs|);
      forall i: nat | i < |hs|
        ensures i in t.order && t.getters[i].Returned?
      {
        assert HostOk(hs, t, i);
      }
    }
  }

  // ----- the listing always ends

  /** The return of a driver call that is not made under the shared lock; such a call may hang. */
  predicate Outside<T>(hs: seq<Host<T>>, a: Action) {
    a.EndCall? && a.i < |hs| && !hs[a.i].serial
  }

  ghost function Progress<T>(hs: seq<Host<T>>, s: State<T>): (a: Action)
    requires Inv(hs, s) && !s.closed
    ensures Enabled(hs, s, a) && !Outside(hs, a)
  {
    if !s.receiving then Spawn
    else if |s.items| == |hs| then Close
    else
      AllCovered(s.order, |hs|);
      var i: nat :| i < |hs| && i !in s.order;
      assert HostOk(hs, s, i) && LockOk(hs, s, i);
      if s.getters[i].Selecting? then Timeout(i)
      else if s.getters[i].InNaming? then EndName(i)
      else if s.getters[i].Forwarding? then Deliver(i)
      else if !hs[i].serial || s.lock == None then BeginName(i)
      else
        var h := s.lock.value;
        assert LockOk(hs, s, h.i) && HostOk(hs, s, h.i);
        if h.ByAttempt? then EndCall(h.i) else EndName(h.i)
  }

  function AttemptRank(a: Attempt, calls: nat): nat {
    match a
    case NotStarted => 2 * calls + 2
    case Querying(n) => 2 * n + 1
    case InCall(n) => 2 * n
    case Handed => 0
  }

  function GetterRank<T>(g: Getter<T>): nat {
    match g
    case Unstarted => 5
    case Selecting => 4
    case Naming => 3
    case InNaming => 2
    case Forwarding(_) => 1
    case Returned => 0
  }

  ghost function Total<T>(hs: seq<Host<T>>, s: State<T>, n: nat): nat
    requires Shape(hs, s) && n <= |hs|
  {
    if n == 0 then 0
    else Total(hs, s, n - 1) + AttemptRank(s.attempts[n - 1], hs[n - 1].calls) + GetterRank(s.getters[n - 1])
  }

  ghost function Rank<T>(hs: seq<Host<T>>, s: State<T>): nat
    requires Shape(hs, s)
  {
    Total(hs, s, |hs|) + if s.closed then 0 else if s.receiving then 1 else 2
  }

  lemma {:induction false} TotalChange<T>(hs: seq<Host<T>>, s: State<T>, t: State<T>, i: nat, n: nat)
    requires Shape(hs, s) && Shape(hs, t) && i < |hs| && n <= |hs|
    requires forall j :: 0 <= j < |hs| && j != i ==> s.attempts[j] == t.attempts[j] && s.getters[j] == t.getters[j]
    requires AttemptRank(t.attempts[i], hs[i].calls) + GetterRank(t.getters[i])
             < AttemptRank(s.attempts[i], hs[i].calls) + GetterRank(s.getters[i])
    ensures if i < n then Total(hs, t, n) < Total(hs, s, n) else Total(hs, t, n) == Total(hs, s, n)
  {
    if n > 0 { TotalChange(hs, s, t, i, n - 1); }
  }

  lemma {:induction false} TotalSame<T>(hs: seq<Host<T>>, s: State<T>, t: State<T>, n: nat)
    requires Shape(hs, s) && Shape(hs, t) && n <= |hs| && s.attempts == t.attempts && s.getters == t.getters
    ensures Total(hs, t, n) == Total(hs, s, n)
  {
    if n > 0 { TotalSame(hs, s, t, n - 1); }
  }

  lemma StepLowersRank<T>(hs: seq<Host<T>>, s: State<T>, a: Action)
    requires Inv(hs, s) && Enabled(hs, s, a)
    ensures Rank(hs, Apply(hs, s, a)) < Rank(hs, s)
  {
    var t := Apply(hs, s, a);
    if a.Close? || (a.Spawn? && s.spawned == |hs|) {
      TotalSame(hs, s, t, |hs|);
    } else {
      var i := if a.Spawn? then s.spawned else a.i;
      assert HostOk(hs, s, i);
      TotalChange(hs, s, t, i, |hs|);
    }
  }

  /** Provided driver calls made under the shared lock return, and calls for a driver's name, no run is longer than the
      initial rank, and a run that can only go on with the return of other driver calls, which need not happen, has
      closed the channel: the timeouts see to it. */
  lemma {:induction false} ListingEnds<T>(hs: seq<Host<T>>, s: State<T>, acts: seq<Action>, t: State<T>)
    requires Inv(hs, s) && Run(hs, s, acts, t)
    ensures |acts| <= Rank(hs, s)
    ensures Shape(hs, t) && ((forall a :: Enabled(hs, t, a) ==> Outside(hs, a)) ==> t.closed)
    decreases |acts|
  {
    if acts == [] {
      if !t.closed {
        var a := Progress(hs, t);
        assert Enabled(hs, t, a) && !Outside(hs, a);
      }
    } else {
      StepKeepsInv(hs, s, acts[0]);
      StepLowersRank(hs, s, acts[0]);
      ListingEnds(hs, Apply(hs, s, acts[0]), acts[1..], t);
    }
  }

  // ----- a hung driver call defeats the timeout

  /** The proviso is needed: while a serial driver's call hangs under the lock, a timed-out serial host, be it the
      same one, never gets its driver's name, so its item never arrives and the listing never closes. */
  lemma {:induction false} HungCallBlocksTimeouts<T>(hs: seq<Host<T>>, s: State<T>, j: nat, i: nat, acts: seq<Action>,
                                                     t: State<T>)
    requires Inv(hs, s) && i < |hs| && j < |hs| && hs[i].serial
    requires s.lock == Some(ByAttempt(j)) && s.getters[i].Naming? && !s.closed
    requires Run(hs, s, acts, t) && EndCall(j) !in acts
    ensures Shape(hs, t) && t.lock == Some(ByAttempt(j)) && t.getters[i].Naming? && !t.closed
    decreases |acts|
  {
    if acts != [] {
      var a := acts[0];
      assert HostOk(hs, s, i) && LockOk(hs, s, i) && LockOk(hs, s, j);
      if a.EndCall? || a.EndName? { assert LockOk(hs, s, a.i); }
      if a.Close? {
        AllCovered(s.order, |hs|);
      }
      StepKeepsInv(hs, s, a);
      HungCallBlocksTimeouts(hs, Apply(hs, s, a), j, i, acts[1..], t);
    }
  }

  predicate IsReturn(a: Action) {
    a.EndCall? || a.EndName?
  }

  /** Some timed-out host is waiting for its driver's name: the call is in progress, or waits for the lock. */
  ghost predicate Blocked<T>(hs: seq<Host<T>>, s: State<T>)
    requires Shape(hs, s)
  {
    exists i: nat :: i < |hs| && (s.getters[i].InNaming? || (s.getters[i].Naming? && hs[i].serial && s.lock.Some?))
  }

  /** Exactly that keeps a listing from being complete when nothing can go on but the return of driver calls. */
  lemma StuckIff<T>(hs: seq<Host<T>>, acts: seq<Action>, t: State<T>)
    requires Run(hs, Init(hs), acts, t)
    ensures Shape(hs, t)
    ensures (forall a :: Enabled(hs, t, a) ==> IsReturn(a)) ==> (t.closed <==> !Blocked(hs, t))
  {
    InitInv(hs);
    RunKeepsInv(hs, Init(hs), acts, t);
    if forall a :: Enabled(hs, t, a) ==> IsReturn(a) {
      if t.closed {
        AllCovered(t.order, |hs|);
        forall i: nat | i < |hs|
          ensures t.getters[i].Returned?
        {
          assert HostOk(hs, t, i);
        }
      } else {
        StuckIsBlocked(hs, t);
      }
    }
  }

  lemma StuckIsBlocked<T>(hs: seq<Host<T>>, t: State<T>)
    requires Inv(hs, t) && !t.closed && forall a :: Enabled(hs, t, a) ==> IsReturn(a)
    ensures Blocked(hs, t)
  {
    assert !Enabled(hs, t, Spawn) && !Enabled(hs, t, Close);
    AllCovered(t.order, |hs|);
    var i: nat :| i < |hs| && i !in t.order;
    assert HostOk(hs, t, i) && LockOk(hs, t, i);
    assert !Enabled(hs, t, Timeout(i)) && !Enabled(hs, t, Deliver(i)) && !Enabled(hs, t, BeginName(i));
    assert t.getters[i].InNaming? || (t.getters[i].Naming? && hs[i].serial && t.lock.Some?);
  }

  // ----- for which hosts the timeout bounds a listing

  /** The calls that may hang: those of the queries, and, with `names`, also those for a driver's name. */
  predicate MayHang(a: Action, names: bool) {
    a.EndCall? || (names && a.EndName?)
  }

  /** Every run that can only go on with the return of such calls is complete. */
  ghost predicate AlwaysCompletes<T(!new)>(hs: seq<Host<T>>, names: bool) {
    forall acts, t :: Run(hs, Init(hs), acts, t) && OnlyHanging(hs, t, names) ==> t.closed
  }

  ghost predicate OnlyHanging<T>(hs: seq<Host<T>>, s: State<T>, names: bool) {
    Shape(hs, s) && forall a :: Enabled(hs, s, a) ==> MayHang(a, names)
  }

  /** The host is queried by calls under the shared lock. */
  predicate Risky<T>(h: Host<T>) {
    h.serial && h.calls > 0
  }

  lemma {:induction false} RunConcat<T>(hs: seq<Host<T>>, s: State<T>, acts: seq<Action>, t: State<T>,
                                        more: seq<Action>, u: State<T>)
    requires Shape(hs, s) && Run(hs, s, acts, t) && Shape(hs, t) && Run(hs, t, more, u)
    ensures Run(hs, s, acts + more, u)
    decreases |acts|
  {
    if acts == [] {
      assert acts + more == more;
    } else {
      RunConcat(hs, Apply(hs, s, acts[0]), acts[1..], t, more, u);
      assert (acts + more)[1..] == acts[1..] + more;
    }
  }

  lemma OneStep<T>(hs: seq<Host<T>>, s: State<T>, a: Action)
    requires Shape(hs, s) && Enabled(hs, s, a)
    ensures Run(hs, s, [a], Apply(hs, s, a))
  {
    assert [a][1..] == [];
    assert Run(hs, Apply(hs, s, a), [], Apply(hs, s, a));
  }

  /** The first `k` hosts have been started. */
  function Started<T>(hs: seq<Host<T>>, k: nat): State<T>
    requires k <= |hs|
  {
    State(seq(|hs|, i requires 0 <= i < |hs| => if i < k then Querying(hs[i].calls) else NotStarted),
          seq(|hs|, i => if i < k then Selecting else Unstarted), None, k, false, false, [], [])
  }

  lemma {:induction false} StartUpTo<T>(hs: seq<Host<T>>, k: nat) returns (acts: seq<Action>)
    requires k <= |hs|
    ensures Run(hs, Init(hs), acts, Started(hs, k)) && forall i :: 0 <= i < |acts| ==> acts[i].Spawn?
  {
    if k == 0 {
      acts := [];
      assert Init(hs).attempts == Started(hs, 0).attempts && Init(hs).getters == Started(hs, 0).getters;
    } else {
      var before := StartUpTo(hs, k - 1);
      var s, t := Started(hs, k - 1), Started(hs, k);
      assert s.attempts[k - 1 := Querying(hs[k - 1].calls)] == t.attempts;
      assert s.getters[k - 1 := Selecting] == t.getters;
      OneStep(hs, s, Spawn);
      RunConcat(hs, Init(hs), before, s, [Spawn], t);
      acts := before + [Spawn];
    }
  }

  /** Go on as long as anything but a return that may hang is possible. */
  lemma {:induction false} Exhaust<T>(hs: seq<Host<T>>, s: State<T>, names: bool)
    returns (acts: seq<Action>, t: State<T>)
    requires Inv(hs, s)
    ensures Run(hs, s, acts, t) && OnlyHanging(hs, t, names)
    ensures forall i :: 0 <= i < |acts| ==> !MayHang(acts[i], names)
    decreases Rank(hs, s)
  {
    if a :| Enabled(hs, s, a) && !MayHang(a, names) {
      StepKeepsInv(hs, s, a);
      StepLowersRank(hs, s, a);
      var rest;
      rest, t := Exhaust(hs, Apply(hs, s, a), names);
      acts := [a] + rest;
      assert acts[1..] == rest;
    } else {
      acts, t := [], s;
    }
  }

  /** For every serial host that is queried at all: its call is in progress and its timer has fired. */
  lemma HungCallExample<T>(hs: seq<Host<T>>, j: nat) returns (acts: seq<Action>, t: State<T>)
    requires j < |hs| && Risky(hs[j])
    ensures Run(hs, Init(hs), acts, t) && Inv(hs, t)
    ensures t.lock == Some(ByAttempt(j)) && t.getters[j].Naming? && !t.closed
  {
    InitInv(hs);
    var before := StartUpTo(hs, j + 1);
    var s := Started(hs, j + 1);
    var s1 := Apply(hs, s, BeginCall(j));
    t := Apply(hs, s1, Timeout(j));
    OneStep(hs, s, BeginCall(j));
    OneStep(hs, s1, Timeout(j));
    RunConcat(hs, s, [BeginCall(j)], s1, [Timeout(j)], t);
    RunConcat(hs, Init(hs), before, s, [BeginCall(j)] + [Timeout(j)], t);
    acts := before + ([BeginCall(j)] + [Timeout(j)]);
    RunKeepsInv(hs, Init(hs), acts, t);
  }

  lemma RiskyMayHang<T(!new)>(hs: seq<Host<T>>, j: nat)
    requires j < |hs| && Risky(hs[j])
    ensures !AlwaysCompletes(hs, false)
  {
    InitInv(hs);
    var acts, s := HungCallExample(hs, j);
    var more, t := Exhaust(hs, s, false);
    HungCallBlocksTimeouts(hs, s, j, j, more, t);
    RunConcat(hs, Init(hs), acts, s, more, t);
    assert Run(hs, Init(hs), acts + more, t) && OnlyHanging(hs, t, false) && !t.closed;
  }

  lemma ReturnIsRisky<T>(hs: seq<Host<T>>, t: State<T>, a: Action)
    requires Inv(hs, t) && Enabled(hs, t, a)
    ensures a.EndCall? && !Outside(hs, a) ==> Risky(hs[a.i])
  {
    if a.EndCall? { assert HostOk(hs, t, a.i); }
  }

  /** Whatever query calls hang, every listing of the hosts `hs` is completed by its timeouts exactly if no host is
      queried by calls under the shared lock. */
  lemma CompletesIff<T(!new)>(hs: seq<Host<T>>)
    ensures AlwaysCompletes(hs, false) <==> forall i :: 0 <= i < |hs| ==> !Risky(hs[i])
  {
    if j :| 0 <= j < |hs| && Risky(hs[j]) {
      RiskyMayHang(hs, j);
    } else {
      forall acts, t | Run(hs, Init(hs), acts, t) && OnlyHanging(hs, t, false)
        ensures t.closed
      {
        InitInv(hs);
        RunKeepsInv(hs, Init(hs), acts, t);
        if !t.closed {
          ReturnIsRisky(hs, t, Progress(hs, t));
        }
      }
    }
  }

  /** While the call for a timed-out host's driver name hangs, its item does not arrive. */
  lemma {:induction false} HungNameBlocks<T>(hs: seq<Host<T>>, s: State<T>, i: nat, acts: seq<Action>, t: State<T>)
    requires Inv(hs, s) && i < |hs| && s.getters[i].InNaming? && !s.closed
    requires Run(hs, s, acts, t) && EndName(i) !in acts
    ensures Shape(hs, t) && t.getters[i].InNaming? && !t.closed
    decreases |acts|
  {
    if acts != [] {
      assert HostOk(hs, s, i);
      if acts[0].Close? { AllCovered(s.order, |hs|); }
      StepKeepsInv(hs, s, acts[0]);
      HungNameBlocks(hs, Apply(hs, s, acts[0]), i, acts[1..], t);
    }
  }

  /** If calls for a driver's name may hang too, no listing of any host is certain to be completed. */
  lemma CompletesIfNamesHangIff<T(!new)>(hs: seq<Host<T>>)
    ensures AlwaysCompletes(hs, true) <==> hs == []
  {
    InitInv(hs);
    if hs == [] {
      forall acts, t | Run(hs, Init(hs), acts, t) && OnlyHanging(hs, t, true)
        ensures t.closed
      {
        RunKeepsInv(hs, Init(hs), acts, t);
        AllCovered(t.order, 0);
        assert !Enabled(hs, t, Spawn) && !Enabled(hs, t, Close);
      }
    } else {
      NameMayHang(hs);
    }
  }

  lemma NameMayHang<T(!new)>(hs: seq<Host<T>>)
    requires hs != []
    ensures !AlwaysCompletes(hs, true)
  {
    InitInv(hs);
    var before := StartUpTo(hs, 1);
    var s := Started(hs, 1);
    var s1 := Apply(hs, s, Timeout(0));
    var s2 := Apply(hs, s1, BeginName(0));
    OneStep(hs, s, Timeout(0));
    OneStep(hs, s1, BeginName(0));
    RunConcat(hs, s, [Timeout(0)], s1, [BeginName(0)], s2);
    RunConcat(hs, Init(hs), before, s, [Timeout(0)] + [BeginName(0)], s2);
    var acts := before + ([Timeout(0)] + [BeginName(0)]);
    RunKeepsInv(hs, Init(hs), acts, s2);
    var more, t := Exhaust(hs, s2, true);
    HungNameBlocks(hs, s2, 0, more, t);
    RunConcat(hs, Init(hs), acts, s2, more, t);
    assert Run(hs, Init(hs), acts + more, t) && OnlyHanging(hs, t, true) && !t.closed;
  }
}
