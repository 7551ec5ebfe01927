/** Which item a host is listed with: the queried one exactly if its query was handed over before its timer fired. */
module ListingHistory {
  import opened Basics
  import opened HostListing

  lemma {:induction false} LastStep<T>(hs: seq<Host<T>>, s: State<T>, acts: seq<Action>, t: State<T>)
    returns (u: State<T>)
    requires Shape(hs, s) && acts != [] && Run(hs, s, acts, t)
    ensures var n := |acts| - 1;
            Run(hs, s, acts[..n], u) && Shape(hs, u) && Enabled(hs, u, acts[n]) && t == Apply(hs, u, acts[n])
    decreases |acts|
  {
    var n := |acts| - 1;
    if n == 0 {
      u := s;
      assert acts[1..] == [] && acts[..0] == [];
    } else {
      u := LastStep(hs, Apply(hs, s, acts[0]), acts[1..], t);
      assert acts[1..][n - 1] == acts[n] && acts[1..][..n - 1] == acts[..n][1..];
    }
  }

  ghost function Times(acts: seq<Action>, a: Action): nat {
    multiset(acts)[a]
  }

  lemma Longer(acts: seq<Action>, a: Action, b: Action)
    ensures b in acts + [a] <==> b in acts || b == a
    ensures Times(acts + [a], b) == Times(acts, b) + if a == b then 1 else 0
  {
  }

  /** The race of host `i` has been decided: exactly one of the two has happened. */
  ghost predicate Decided(acts: seq<Action>, i: nat) {
    Hand(i) in acts <==> Timeout(i) !in acts
  }

  ghost function ItemOf<T>(hs: seq<Host<T>>, acts: seq<Action>, i: nat): T
    requires i < |hs|
  {
    if Hand(i) in acts then hs[i].queried else hs[i].timedOut
  }

  ghost predicate GetterRecorded<T>(hs: seq<Host<T>>, acts: seq<Action>, i: nat, g: Getter<T>)
    requires i < |hs|
  {
    match g
    case Unstarted => Hand(i) !in acts && Timeout(i) !in acts
    case Selecting => Hand(i) !in acts && Timeout(i) !in acts
    case Naming => Hand(i) !in acts && Timeout(i) in acts
    case InNaming => Hand(i) !in acts && Timeout(i) in acts
    case Forwarding(item) => Decided(acts, i) && item == ItemOf(hs, acts, i)
    case Returned => Decided(acts, i)
  }

  /** The query has been handed over exactly if it is over, and then all of its calls have returned. */
  ghost predicate AttemptRecorded<T>(hs: seq<Host<T>>, acts: seq<Action>, i: nat, a: Attempt)
    requires i < |hs|
  {
    && (a.Handed? <==> Hand(i) in acts)
    && Times(acts, BeginCall(i)) == Times(acts, EndCall(i)) + (if a.InCall? then 1 else 0)
    && Times(acts, EndCall(i)) ==
       match a
       case NotStarted => 0
       case Querying(left) => hs[i].calls - left
       case InCall(left) => hs[i].calls - left
       case Handed => hs[i].calls
  }

  ghost predicate ItemsRecorded<T>(hs: seq<Host<T>>, acts: seq<Action>, s: State<T>) {
    && |s.items| == |s.order|
    && forall k :: 0 <= k < |s.order| ==>
         s.order[k] < |hs| && Decided(acts, s.order[k]) && s.items[k] == ItemOf(hs, acts, s.order[k])
  }

  lemma GetterStep<T>(hs: seq<Host<T>>, acts: seq<Action>, s: State<T>, a: Action, i: nat)
    requires Inv(hs, s) && Enabled(hs, s, a) && i < |hs| && GetterRecorded(hs, acts, i, s.getters[i])
    ensures GetterRecorded(hs, acts + [a], i, Apply(hs, s, a).getters[i])
  {
    assert HostOk(hs, s, i);
    Longer(acts, a, Hand(i));
    Longer(acts, a, Timeout(i));
  }

  lemma AttemptStep<T>(hs: seq<Host<T>>, acts: seq<Action>, s: State<T>, a: Action, i: nat)
    requires Inv(hs, s) && Enabled(hs, s, a) && i < |hs| && AttemptRecorded(hs, acts, i, s.attempts[i])
    ensures AttemptRecorded(hs, acts + [a], i, Apply(hs, s, a).attempts[i])
  {
    assert HostOk(hs, s, i);
    Longer(acts, a, Hand(i));
    Longer(acts, a, BeginCall(i));
    Longer(acts, a, EndCall(i));
  }

  lemma ItemsStep<T>(hs: seq<Host<T>>, acts: seq<Action>, s: State<T>, a: Action)
    requires Inv(hs, s) && Enabled(hs, s, a) && ItemsRecorded(hs, acts, s)
    requires forall i: nat :: i < |hs| ==> GetterRecorded(hs, acts, i, s.getters[i])
    ensures ItemsRecorded(hs, acts + [a], Apply(hs, s, a))
  {
    var t := Apply(hs, s, a);
    forall k | 0 <= k < |t.order|
      ensures var i := t.order[k];
              i < |hs| && Decided(acts + [a], i) && t.items[k] == ItemOf(hs, acts + [a], i)
    {
      var i := t.order[k];
      Longer(acts, a, Hand(i));
      Longer(acts, a, Timeout(i));
      if k < |s.order| {
        assert i in s.order && HostOk(hs, s, i);
      } else {
        assert GetterRecorded(hs, acts, i, s.getters[i]);
      }
    }
  }

  lemma {:induction false} History<T>(hs: seq<Host<T>>, acts: seq<Action>, t: State<T>)
    requires Run(hs, Init(hs), acts, t)
    ensures Inv(hs, t) && ItemsRecorded(hs, acts, t)
    ensures forall i: nat :: i < |hs| ==>
              GetterRecorded(hs, acts, i, t.getters[i]) && AttemptRecorded(hs, acts, i, t.attempts[i])
    decreases |acts|
  {
    InitInv(hs);
    if acts != [] {
      var n := |acts| - 1;
      var front, a := acts[..n], acts[n];
      var u := LastStep(hs, Init(hs), acts, t);
      History(hs, front, u);
      assert acts == front + [a];
      StepKeepsInv(hs, u, a);
      ItemsStep(hs, front, u, a);
      forall i: nat | i < |hs|
        ensures GetterRecorded(hs, acts, i, t.getters[i]) && AttemptRecorded(hs, acts, i, t.attempts[i])
      {
        GetterStep(hs, front, u, a, i);
        AttemptStep(hs, front, u, a, i);
      }
    }
  }

  /** In every run, for every item received: the query of its host was handed over, or its timer fired, not both; the
      item is the queried one in the first case, after all calls of the query, and the timed-out one in the second. */
  lemma WhichItem<T>(hs: seq<Host<T>>, acts: seq<Action>, t: State<T>, k: nat)
    requires Run(hs, Init(hs), acts, t) && k < |t.order|
    ensures |t.items| == |t.order| && t.order[k] < |hs|
    ensures var i := t.order[k];
            && (Hand(i) in acts <==> Timeout(i) !in acts)
            && t.items[k] == (if Hand(i) in acts then hs[i].queried else hs[i].timedOut)
            && (Hand(i) in acts ==> Times(acts, EndCall(i)) == hs[i].calls)
  {
    History(hs, acts, t);
    assert AttemptRecorded(hs, acts, t.order[k], t.attempts[t.order[k]]);
  }
}
