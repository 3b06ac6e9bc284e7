/** The token bucket that shapes requests (internal/gcprov/backoff.go), over real time. */
module RateLimit {

  /** What the limiter remembers: the tokens it held when it was last asked, and when. */
  datatype Bucket = Bucket(tokens: real, last: real)

  datatype Answer = Granted | Wait(seconds: real)

  /** The tokens that come in over some seconds. */
  function Accrued(qps: real, seconds: real): real {
    seconds * qps
  }

  lemma AccruedAdds(qps: real, x: real, y: real)
    ensures Accrued(qps, x) + Accrued(qps, y) == Accrued(qps, x + y)
  {}

  lemma AccruedGrows(qps: real, x: real, y: real)
    requires qps > 0.0
    ensures Accrued(qps, x) >= Accrued(qps, y) <==> x >= y
    ensures Accrued(qps, 0.0) == 0.0
  {
    assert (x - y) * qps == x * qps - y * qps;
    assert x > y ==> (x - y) * qps > 0.0;
    assert x < y ==> (y - x) * qps > 0.0;
  }

  function Refilled(qps: real, b: Bucket, now: real): real {
    var tokens := b.tokens + Accrued(qps, now - b.last);
    if tokens > qps then qps else tokens
  }

  function Asked(qps: real, b: Bucket, now: real): Answer
    requires qps > 0.0
  {
    var tokens := Refilled(qps, b, now);
    if tokens >= 1.0 then Granted else Wait((1.0 - tokens) / qps)
  }

  function After(qps: real, b: Bucket, now: real): Bucket {
    var tokens := Refilled(qps, b, now);
    Bucket(if tokens >= 1.0 then tokens - 1.0 else tokens, now)
  }

  /** Between none and one second's worth. */
  predicate Full(qps: real, b: Bucket) {
    0.0 <= b.tokens <= qps
  }

  /** Times that never go back, from since on. */
  predicate Onward(since: real, times: seq<real>) {
    && (times != [] ==> since <= times[0])
    && forall i, j | 0 <= i < j < |times| :: times[i] <= times[j]
  }

  /** How many of the takes at these times are granted. */
  function Grants(qps: real, b: Bucket, times: seq<real>): nat
    requires qps > 0.0
    decreases |times|
  {
    if times == [] then 0
    else (if Asked(qps, b, times[0]).Granted? then 1 else 0) + Grants(qps, After(qps, b, times[0]), times[1..])
  }

  function AfterAll(qps: real, b: Bucket, times: seq<real>): Bucket
    decreases |times|
  {
    if times == [] then b else AfterAll(qps, After(qps, b, times[0]), times[1..])
  }

  lemma RefillIsFull(qps: real, b: Bucket, now: real)
    requires qps > 0.0 && Full(qps, b) && b.last <= now
    ensures b.tokens <= Refilled(qps, b, now) <= qps
    ensures Refilled(qps, b, now) <= b.tokens + Accrued(qps, now - b.last)
    ensures Full(qps, After(qps, b, now))
  {
    AccruedGrows(qps, now - b.last, 0.0);
    hide Accrued;
  }

  /** A run never mints tokens: grants and what is left come out of what was there and
      what accrued. */
  lemma {:induction false} RunIsBounded(qps: real, b: Bucket, times: seq<real>)
    requires qps > 0.0 && Full(qps, b) && Onward(b.last, times)
    ensures var end := AfterAll(qps, b, times);
            && Full(qps, end)
            && end.last == (if times == [] then b.last else times[|times| - 1])
            && Grants(qps, b, times) as real + end.tokens <= b.tokens + Accrued(qps, end.last - b.last)
    decreases |times|
  {
    AccruedGrows(qps, 0.0, 0.0);
    hide Accrued;
    if times != [] {
      var next := After(qps, b, times[0]);
      RefillIsFull(qps, b, times[0]);
      RunIsBounded(qps, next, times[1..]);
      AccruedAdds(qps, times[0] - b.last, AfterAll(qps, b, times).last - times[0]);
    }
  }

  lemma GrantsAreBounded(qps: real, b: Bucket, times: seq<real>)
    requires qps > 0.0 && Full(qps, b) && times != [] && Onward(b.last, times)
    ensures Grants(qps, b, times) as real <= qps + Accrued(qps, times[|times| - 1] - times[0])
  {
    hide Accrued;
    RefillIsFull(qps, b, times[0]);
    RunIsBounded(qps, After(qps, b, times[0]), times[1..]);
    OneTake(qps, b, times);
    hide Grants, AfterAll, After, Asked;
  }

  lemma OneTake(qps: real, b: Bucket, times: seq<real>)
    requires qps > 0.0 && times != []
    ensures var next := After(qps, b, times[0]);
            && Grants(qps, b, times) as real + next.tokens ==
               Grants(qps, next, times[1..]) as real + Refilled(qps, b, times[0])
            && next.last == times[0]
  {
    hide Accrued;
  }

  /** THE RATE IS BOUNDED: takes from the first of some times to the last of them are
      granted at most qps times for each second between them, and one second more. */
  lemma RateIsBounded(qps: real, b: Bucket, times: seq<real>)
    requires qps > 0.0 && Full(qps, b) && times != [] && Onward(b.last, times)
    ensures Grants(qps, b, times) as real <= qps * (1.0 + (times[|times| - 1] - times[0]))
  {
    GrantsAreBounded(qps, b, times);
    hide Grants, Full, Onward;
  }

  /** While nothing is granted, tokens accrue evenly. */
  lemma {:induction false} RefusedTakesCostNothing(qps: real, b: Bucket, times: seq<real>)
    requires qps >= 1.0 && Full(qps, b) && Onward(b.last, times) && Grants(qps, b, times) == 0
    ensures var end := AfterAll(qps, b, times);
            times != [] ==> end.tokens == b.tokens + Accrued(qps, end.last - b.last) && end.tokens < 1.0
    decreases |times|
  {
    AccruedGrows(qps, 0.0, 0.0);
    hide Accrued;
    if times != [] {
      var next := After(qps, b, times[0]);
      RefillIsFull(qps, b, times[0]);
      RefusedTakesCostNothing(qps, next, times[1..]);
      RunIsBounded(qps, next, times[1..]);
      AccruedAdds(qps, times[0] - b.last, AfterAll(qps, b, times).last - times[0]);
    }
  }

  /** THE REPORTED WAIT IS EXACT: after a refusal, as long as no other take is granted in
      between, a take is granted if and only if the wait it reported has passed. */
  lemma WaitIsExact(qps: real, b: Bucket, now: real, between: seq<real>, later: real)
    requires qps >= 1.0 && Full(qps, b) && b.last <= now && Asked(qps, b, now).Wait?
    requires Onward(now, between + [later]) && Grants(qps, After(qps, b, now), between) == 0
    ensures Asked(qps, AfterAll(qps, After(qps, b, now), between), later).Granted? <==>
            later >= now + Asked(qps, b, now).seconds
  {
    var refused, wait := After(qps, b, now), Asked(qps, b, now).seconds;
    assert Accrued(qps, wait) == 1.0 - refused.tokens;
    AccruedGrows(qps, later - now, wait);
    RefillIsFull(qps, b, now);
    hide Accrued;
    UpTo(now, between, later);
    RefusedTakesCostNothing(qps, refused, between);
    RunIsBounded(qps, refused, between);
    var end := AfterAll(qps, refused, between);
    AccruedAdds(qps, end.last - now, later - end.last);
  }

  lemma UpTo(now: real, between: seq<real>, later: real)
    requires Onward(now, between + [later])
    ensures Onward(now, between)
    ensures (if between == [] then now else between[|between| - 1]) <= later
  {
    var all := between + [later];
    assert all[|between|] == later;
    assert forall i | 0 <= i < |between| :: all[i] == between[i];
  }

  /** BELOW ONE A SECOND NOTHING IS EVER GRANTED: the bucket cannot hold a whole token. */
  lemma {:induction false} TooSlowNeverGrants(qps: real, b: Bucket, times: seq<real>)
    requires 0.0 < qps < 1.0 && Full(qps, b) && Onward(b.last, times)
    ensures Grants(qps, b, times) == 0
    decreases |times|
  {
    if times != [] {
      RefillIsFull(qps, b, times[0]);
      hide Accrued;
      TooSlowNeverGrants(qps, After(qps, b, times[0]), times[1..]);
    }
  }

  // ---- the limiter -------------------------------------------------------------

  class Limiter {
    const qps: real
    var tokens: real
    var last: real

    constructor (qps: real, now: real)
      ensures this.qps == qps && State() == Bucket(qps, now)
    {
      this.qps, tokens, last := qps, qps, now;
    }

    function State(): Bucket
      reads this
    {
      Bucket(tokens, last)
    }

    method Take(now: real) returns (answer: Answer)
      requires qps > 0.0
      modifies this
      ensures answer == Asked(qps, old(State()), now) && State() == After(qps, old(State()), now)
    {
      var elapsed := now - last;
      last := now;
      tokens := tokens + Accrued(qps, elapsed);
      if tokens > qps {
        tokens := qps;
      }
      if tokens >= 1.0 {
        tokens := tokens - 1.0;
        return Granted;
      }
      var needed := 1.0 - tokens;
      return Wait(needed / qps);
    }

    /** Wait, with no other caller: the timer of round i comes late[i] late, and the caller
        gives up when the rounds run out. */
    method WaitForToken(start: real, late: seq<real>) returns (ok: bool, now: real)
      requires qps > 0.0 ==> Full(qps, State()) && last <= start
      requires forall i | 0 <= i < |late| :: late[i] >= 0.0
      modifies this
      ensures qps >= 1.0 && |late| >= 2 ==> ok
      ensures 0.0 < qps < 1.0 ==> !ok
      ensures qps <= 0.0 ==> ok && now == start && State() == old(State())
      ensures now >= start && (qps > 0.0 ==> Full(qps, State()) && last <= now)
    {
      now := start;
      if qps <= 0.0 {
        return true, now;
      }
      hide Accrued;
      for i := 0 to |late|
        invariant Full(qps, State()) && last <= now && now >= start
        invariant qps >= 1.0 ==> i <= 1
        invariant i == 1 && qps >= 1.0 ==> Asked(qps, State(), now).Granted?
      {
        ghost var before := State();
        RefillIsFull(qps, before, now);
        var answer := Take(now);
        if answer.Granted? {
          return true, now;
        }
        var woken := now + answer.seconds + late[i];
        WaitIsAhead(qps, before, now);
        if qps >= 1.0 {
          assert [] + [woken] == [woken];
          WaitIsExact(qps, before, now, [], woken);
        }
        now := woken;
      }
      ok := false;
    }
  }

  lemma WaitIsAhead(qps: real, b: Bucket, now: real)
    requires qps > 0.0 && Asked(qps, b, now).Wait?
    ensures Asked(qps, b, now).seconds > 0.0
  {
    hide Accrued;
  }
}
