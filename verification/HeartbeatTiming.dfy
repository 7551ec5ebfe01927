/** A timed model of the heartbeat: the client beats 5 s after each reply, the plugin server exits when
    its select loop sees nothing for 10 s. Times are milliseconds since the server entered its loop. */
module HeartbeatTiming {

  const INTERVAL: int := 5_000    // heartbeatInterval
  const TIMEOUT: int := 10_000    // heartbeatTimeout

  /** What the server's loop can receive, with the instant at which it is there to be received. */
  datatype Message = Beat(at: int) | CloseRequest(at: int)

  datatype Exit = TimedOut(at: int) | Closed(at: int)

  ghost predicate Ordered(start: int, msgs: seq<Message>) {
    forall i :: 0 <= i < |msgs| ==> Before(start, msgs, i) <= msgs[i].at
  }

  /** The instant at which the timer that runs while message `i` is awaited was started. */
  function Before(start: int, msgs: seq<Message>, i: nat): int
    requires i < |msgs|
  {
    if i == 0 then start else msgs[i - 1].at
  }

  /** The exits the select loop allows. Each turn makes a new timer; when the timer and a message are
      ready at the same instant, select may take either. */
  predicate Exits(start: int, msgs: seq<Message>, x: Exit)
    decreases |msgs|
  {
    if msgs == [] then x == TimedOut(start + TIMEOUT)
    else
      || (start + TIMEOUT <= msgs[0].at && x == TimedOut(start + TIMEOUT))
      || (msgs[0].at <= start + TIMEOUT
          && if msgs[0].CloseRequest? then x == Closed(msgs[0].at) else Exits(msgs[0].at, msgs[1..], x))
  }

  /** The server's loop; `late` says which way a tie goes. */
  method Serve(start: int, msgs: seq<Message>, late: bool) returns (x: Exit)
    ensures Exits(start, msgs, x)
  {
    var last, i := start, 0;
    while i < |msgs|
      invariant 0 <= i <= |msgs|
      invariant forall y :: Exits(last, msgs[i..], y) ==> Exits(start, msgs, y)
    {
      assert msgs[i..][1..] == msgs[i + 1..];
      var deadline := last + TIMEOUT;
      if deadline < msgs[i].at || (deadline == msgs[i].at && late) {
        return TimedOut(deadline);
      }
      if msgs[i].CloseRequest? {
        return Closed(msgs[i].at);
      }
      last, i := msgs[i].at, i + 1;
    }
    return TimedOut(last + TIMEOUT);
  }

  /** Latencies of one heartbeat call: until the server's loop has the message, and until the reply is back. */
  datatype Latency = Latency(request: nat, reply: nat)

  function Arrival(begin: int, calls: seq<Latency>, k: nat): int
    requires k < |calls|
  {
    if k == 0 then begin + INTERVAL + calls[0].request
    else Arrival(begin, calls, k - 1) + calls[k - 1].reply + INTERVAL + calls[k].request
  }

  /** The heartbeat goroutine, started at `begin`: wait, call, wait for the reply, and so on. */
  method Beats(begin: int, calls: seq<Latency>) returns (msgs: seq<Message>)
    ensures msgs == BeatsOf(begin, calls)
    ensures Ordered(begin, msgs)
  {
    var now := begin;
    msgs := [];
    for k := 0 to |calls|
      invariant |msgs| == k
      invariant forall j :: 0 <= j < k ==> msgs[j] == Beat(Arrival(begin, calls, j))
      invariant now == if k == 0 then begin else Arrival(begin, calls, k - 1) + calls[k - 1].reply
    {
      now := now + INTERVAL;                 // time.After(heartbeatInterval)
      now := now + calls[k].request;
      msgs := msgs + [Beat(now)];
      now := now + calls[k].reply;
    }
    assert msgs == BeatsOf(begin, calls);
    BeatsAreOrdered(begin, calls);
  }

  lemma BeatsAreOrdered(begin: int, calls: seq<Latency>)
    ensures Ordered(begin, BeatsOf(begin, calls))
  {
    var msgs := BeatsOf(begin, calls);
    forall k | 0 <= k < |calls|
      ensures Before(begin, msgs, k) <= msgs[k].at
    {
      assert msgs[k].at == Arrival(begin, calls, k);
      if k > 0 { assert msgs[k - 1].at == Arrival(begin, calls, k - 1); }
    }
  }

  /** The same beats as a function, for use in statements. */
  function BeatsOf(begin: int, calls: seq<Latency>): (msgs: seq<Message>) {
    seq(|calls|, k requires 0 <= k < |calls| => Beat(Arrival(begin, calls, k)))
  }

  ghost predicate AllBeats(msgs: seq<Message>) {
    forall i :: 0 <= i < |msgs| ==> msgs[i].Beat?
  }

  function LastOf(start: int, msgs: seq<Message>): int {
    if msgs == [] then start else msgs[|msgs| - 1].at
  }

  /** The server outlives all the messages, and then exits 10 s after the last one, however ties go. */
  ghost predicate Survives(start: int, msgs: seq<Message>) {
    forall x :: Exits(start, msgs, x) ==> x == TimedOut(LastOf(start, msgs) + TIMEOUT)
  }

  ghost predicate ShortGaps(start: int, msgs: seq<Message>) {
    forall i :: 0 <= i < |msgs| ==> msgs[i].at - Before(start, msgs, i) < TIMEOUT
  }

  lemma {:induction false} SurvivesIff(start: int, msgs: seq<Message>)
    requires AllBeats(msgs) && Ordered(start, msgs)
    ensures Survives(start, msgs) <==> ShortGaps(start, msgs)
    decreases |msgs|
  {
    if msgs != [] {
      var rest := msgs[1..];
      assert forall i :: 0 <= i < |rest| ==> Before(msgs[0].at, rest, i) == Before(start, msgs, i + 1);
      SurvivesIff(msgs[0].at, rest);
      GapsOfTail(start, msgs);
      assert LastOf(msgs[0].at, rest) == LastOf(start, msgs);
      if msgs[0].at - start >= TIMEOUT {
        assert Exits(start, msgs, TimedOut(start + TIMEOUT));
        LastIsLatest(start, msgs);
      } else {
        assert forall x :: Exits(start, msgs, x) <==> Exits(msgs[0].at, rest, x);
      }
    }
  }

  lemma {:induction false} LastIsLatest(start: int, msgs: seq<Message>)
    requires msgs != [] && Ordered(start, msgs)
    ensures start <= msgs[0].at <= LastOf(start, msgs)
    decreases |msgs|
  {
    assert Before(start, msgs, 0) <= msgs[0].at;
    if |msgs| > 1 {
      var front := msgs[..|msgs| - 1];
      assert forall i :: 0 <= i < |front| ==> Before(start, front, i) == Before(start, msgs, i);
      LastIsLatest(start, front);
      assert Before(start, msgs, |msgs| - 1) <= msgs[|msgs| - 1].at;
    }
  }

  lemma GapsOfTail(start: int, msgs: seq<Message>)
    requires msgs != []
    ensures ShortGaps(start, msgs) <==> msgs[0].at - start < TIMEOUT && ShortGaps(msgs[0].at, msgs[1..])
  {
    var rest := msgs[1..];
    assert forall i :: 0 <= i < |rest| ==> Before(msgs[0].at, rest, i) == Before(start, msgs, i + 1);
    if ShortGaps(start, msgs) {
      assert msgs[0].at - Before(start, msgs, 0) < TIMEOUT;
      forall i | 0 <= i < |rest|
        ensures rest[i].at - Before(msgs[0].at, rest, i) < TIMEOUT
      {
        assert msgs[i + 1].at - Before(start, msgs, i + 1) < TIMEOUT;
      }
    }
    if msgs[0].at - start < TIMEOUT && ShortGaps(msgs[0].at, rest) {
      forall i | 0 <= i < |msgs|
        ensures msgs[i].at - Before(start, msgs, i) < TIMEOUT
      {
        if i > 0 { assert rest[i - 1].at - Before(msgs[0].at, rest, i - 1) < TIMEOUT; }
      }
    }
  }

  /** What call `k` adds to the heartbeat interval before its beat arrives. */
  function Extra(setup: nat, calls: seq<Latency>, k: nat): int
    requires k < |calls|
  {
    calls[k].request + if k == 0 then setup else calls[k - 1].reply
  }

  lemma GapIs(setup: nat, calls: seq<Latency>, k: nat)
    requires k < |calls|
    ensures var msgs := BeatsOf(setup, calls);
            msgs[k].at - Before(0, msgs, k) == INTERVAL + Extra(setup, calls, k)
  {
    var msgs := BeatsOf(setup, calls);
    assert msgs[k].at == Arrival(setup, calls, k);
    if k > 0 { assert msgs[k - 1].at == Arrival(setup, calls, k - 1); }
  }

  /** Client and server together: with the heartbeat goroutine started `setup` after the server's loop, the
      server never takes its timeout branch while beats keep coming exactly when the setup time plus the
      first request stays below 5 s and so does each reply latency plus the next request latency; once the
      beats stop it exits 10 s after the last one it received. */
  lemma LatencyBudget(setup: nat, calls: seq<Latency>)
    ensures Survives(0, BeatsOf(setup, calls)) <==>
            forall k :: 0 <= k < |calls| ==> Extra(setup, calls, k) < 5_000
    ensures Survives(0, BeatsOf(setup, calls)) ==>
            forall x :: Exits(0, BeatsOf(setup, calls), x) ==>
              x == TimedOut(LastOf(0, BeatsOf(setup, calls)) + 10_000)
  {
    var msgs := BeatsOf(setup, calls);
    forall k | 0 <= k < |calls|
      ensures msgs[k].at - Before(0, msgs, k) == INTERVAL + Extra(setup, calls, k)
    {
      GapIs(setup, calls, k);
    }
    SurvivesIff(0, msgs);
    if ShortGaps(0, msgs) {
      forall k | 0 <= k < |calls| ensures Extra(setup, calls, k) < 5_000 {
        assert msgs[k].at - Before(0, msgs, k) < TIMEOUT;
      }
    }
  }

  /** A gap of more than 10 s cannot be survived: the server exits before the late message. */
  lemma {:induction false} LongGapKills(start: int, msgs: seq<Message>, i: nat, x: Exit)
    requires Ordered(start, msgs) && i < |msgs| && msgs[i].at - Before(start, msgs, i) > TIMEOUT
    requires Exits(start, msgs, x)
    ensures x.at <= Before(start, msgs, i) + TIMEOUT < msgs[i].at
    decreases |msgs|
  {
    if i > 0 {
      assert Before(start, msgs, 0) <= msgs[0].at;
      var rest := msgs[1..];
      assert forall j :: 0 <= j < |rest| ==> Before(msgs[0].at, rest, j) == Before(start, msgs, j + 1);
      assert Ordered(msgs[0].at, rest);
      BeforeIsLater(start, msgs, i);
      if msgs[0].Beat? && msgs[0].at <= start + TIMEOUT && Exits(msgs[0].at, rest, x) {
        LongGapKills(msgs[0].at, rest, i - 1, x);
      }
    }
  }

  lemma {:induction false} BeforeIsLater(start: int, msgs: seq<Message>, i: nat)
    requires Ordered(start, msgs) && 0 < i < |msgs|
    ensures start <= msgs[0].at <= Before(start, msgs, i)
  {
    assert Before(start, msgs, 0) <= msgs[0].at;
    if i > 1 {
      BeforeIsLater(start, msgs, i - 1);
      assert Before(start, msgs, i - 1) <= msgs[i - 1].at;
    }
  }
}
