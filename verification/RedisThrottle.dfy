/** The reconnect throttle of `cachedb/redis.c`. */
module RedisThrottle {
  // ----- times

  datatype Timeval = Timeval(sec: int, usec: int)

  predicate Normal(t: Timeval) {
    0 <= t.usec < 1000000
  }

  function Micros(t: Timeval): int {
    1000000 * t.sec + t.usec
  }

  /** `timeval_smaller`, which holds of equal times too. */
  predicate Smaller(x: Timeval, y: Timeval) {
    x.sec < y.sec || (x.sec == y.sec && x.usec <= y.usec)
  }

  lemma SmallerIsAtMost(x: Timeval, y: Timeval)
    requires Normal(x) && Normal(y)
    ensures Smaller(x, y) <==> Micros(x) <= Micros(y)
  {
  }

  /** `timeval_add`. */
  function Add(d: Timeval, add: Timeval): (r: Timeval)
    requires Normal(d) && Normal(add)
    ensures Normal(r) && Micros(r) == Micros(d) + Micros(add)
  {
    var usec := d.usec + add.usec;
    if usec >= 1000000 then Timeval(d.sec + add.sec + 1, usec - 1000000) else Timeval(d.sec + add.sec, usec)
  }

  // ----- one call

  const ATTEMPT_LIMIT := 3

  datatype State = State(attempts: nat, wait: Timeval)

  /** A call: the time when it looks at the throttle, the time when it is done, and whether the server
      can be connected. */
  datatype Call = Call(start: Timeval, end: Timeval, up: bool)

  predicate Blocked(s: State, now: Timeval) {
    s.attempts > ATTEMPT_LIMIT && Smaller(now, s.wait)
  }

  function After(s: State, c: Call, interval: Timeval): (s': State)
    requires Normal(s.wait) && Normal(c.end) && Normal(interval)
    ensures Normal(s'.wait)
  {
    if Blocked(s, c.start) then s
    else if c.up then s.(attempts := 0)
    else State(s.attempts + 1, if s.attempts + 1 > ATTEMPT_LIMIT then Add(c.end, interval) else s.wait)
  }

  class Throttle {
    const interval: Timeval
    var attempts: nat      // reconnect_attempts, 0 when connected
    var wait: Timeval      // reconnect_wait

    predicate Valid()
      reads this
    {
      Normal(interval) && Normal(wait)
    }

    function View(): State
      reads this
    {
      State(attempts, wait)
    }

    constructor (interval: Timeval)
      requires Normal(interval)
      ensures Valid() && attempts == 0 && this.interval == interval
    {
      this.interval := interval;
      attempts, wait := 0, Timeval(0, 0);
    }

    /** `redis_connect`: the clock is read when the throttle is looked at and again after a failure. */
    method Connect(c: Call) returns (tried: bool, connected: bool)
      requires Valid() && Normal(c.start) && Normal(c.end)
      modifies this
      ensures Valid() && View() == After(old(View()), c, interval)
      ensures tried <==> !Blocked(old(View()), c.start)
      ensures connected <==> tried && c.up
      ensures connected ==> forall now :: !Blocked(View(), now)
    {
      if attempts > ATTEMPT_LIMIT {
        var waitTv := wait;
        if Smaller(c.start, waitTv) {
          return false, false;
        }
      }
      if c.up {
        attempts := 0;
        return true, true;
      }
      attempts := attempts + 1;
      if attempts > ATTEMPT_LIMIT {
        wait := Add(c.end, interval);
      }
      return true, false;
    }
  }

  // ----- any number of calls

  /** The calls come one after the other, and the clock does not go back. */
  predicate Serial(calls: seq<Call>, from: int) {
    if calls == [] then true
    else
      && Normal(calls[0].start) && Normal(calls[0].end)
      && from <= Micros(calls[0].start) <= Micros(calls[0].end)
      && Serial(calls[1..], Micros(calls[0].end))
  }

  function Finish(calls: seq<Call>, from: int): int {
    if calls == [] then from else Finish(calls[1..], Micros(calls[0].end))
  }

  /** None of the calls connects. */
  predicate NoSuccess(s: State, calls: seq<Call>, interval: Timeval, from: int)
    requires Normal(s.wait) && Normal(interval) && Serial(calls, from)
    decreases |calls|
  {
    calls != [] ==>
      && (Blocked(s, calls[0].start) || !calls[0].up)
      && NoSuccess(After(s, calls[0], interval), calls[1..], interval, Micros(calls[0].end))
  }

  /** The number of real connection attempts. */
  function Tries(s: State, calls: seq<Call>, interval: Timeval, from: int): nat
    requires Normal(s.wait) && Normal(interval) && Serial(calls, from)
    decreases |calls|
  {
    if calls == [] then 0
    else
      (if Blocked(s, calls[0].start) then 0 else 1)
      + Tries(After(s, calls[0], interval), calls[1..], interval, Micros(calls[0].end))
  }

  lemma {:induction false} TimePasses(calls: seq<Call>, from: int)
    requires Serial(calls, from)
    ensures Finish(calls, from) >= from
  {
    if calls != [] { TimePasses(calls[1..], Micros(calls[0].end)); }
  }

  /** How often an attempt fits between two times when each takes the interval. */
  function Slots(from: int, until: int, interval: int): nat
    requires interval > 0
    decreases until - from
  {
    if until <= from then 0 else 1 + Slots(from + interval, until, interval)
  }

  lemma {:induction false} SlotsShrink(from: int, next: int, until: int, interval: int)
    requires interval > 0 && from <= next
    ensures Slots(next, until, interval) <= Slots(from, until, interval)
    decreases until - from
  {
    if from < until && next < until {
      SlotsShrink(from + interval, next + interval, until, interval);
    }
  }

  /** An attempt at every interval, the first of them after one, fits as often as the interval does. */
  lemma {:induction false} SlotsFit(from: int, until: int, interval: int)
    requires interval > 0 && from <= until
    ensures Slots(from + interval, until, interval) * interval <= until - from
    decreases until - from
  {
    if from + interval < until {
      SlotsFit(from + interval, until, interval);
      var n := Slots(from + interval + interval, until, interval);
      assert Slots(from + interval, until, interval) == n + 1;
      assert (n + 1) * interval == n * interval + interval;
    }
  }

  lemma TimesMonotone(a: int, b: int, n: int)
    requires a <= b && n > 0
    ensures a * n <= b * n
  {
  }

  lemma Quotient(k: int, n: int, x: int)
    requires n > 0 && 0 <= k * n <= x
    ensures k <= x / n
  {
    var q := x / n;
    assert x == q * n + x % n;
    assert (q + 1) * n == q * n + n;
    if k >= q + 1 {
      TimesMonotone(q + 1, k, n);
      assert false;
    }
  }

  lemma SlotsBound(from: int, until: int, interval: int)
    requires interval > 0 && from <= until
    ensures Slots(from + interval, until, interval) <= (until - from) / interval
  {
    SlotsFit(from, until, interval);
    Quotient(Slots(from + interval, until, interval), interval, until - from);
  }

  /** Once throttled, each attempt is more than an interval after the last failure. */
  lemma {:induction false} ThrottledTries(s: State, calls: seq<Call>, interval: Timeval, from: int)
    requires Normal(s.wait) && Normal(interval) && Micros(interval) > 0 && Serial(calls, from)
    requires NoSuccess(s, calls, interval, from) && s.attempts > ATTEMPT_LIMIT
    ensures Tries(s, calls, interval, from) <= Slots(Micros(s.wait), Finish(calls, from), Micros(interval))
    decreases |calls|
  {
    if calls != [] {
      var c := calls[0];
      SmallerIsAtMost(c.start, s.wait);
      TimePasses(calls[1..], Micros(c.end));
      ThrottledTries(After(s, c, interval), calls[1..], interval, Micros(c.end));
      if !Blocked(s, c.start) {
        SlotsShrink(Micros(s.wait) + Micros(interval), Micros(c.end) + Micros(interval), Finish(calls, from), Micros(interval));
      }
    }
  }

  function FreeTries(s: State): nat {
    if s.attempts > ATTEMPT_LIMIT then 1 else ATTEMPT_LIMIT + 1 - s.attempts
  }

  lemma {:induction false} TriesBound(s: State, calls: seq<Call>, interval: Timeval, from: int)
    requires Normal(s.wait) && Normal(interval) && Micros(interval) > 0 && Serial(calls, from)
    requires NoSuccess(s, calls, interval, from)
    ensures Tries(s, calls, interval, from) <= FreeTries(s) + Slots(from + Micros(interval), Finish(calls, from), Micros(interval))
    decreases |calls|
  {
    if calls != [] {
      var c, s' := calls[0], After(s, calls[0], interval);
      var e, w, end := Micros(c.end), Micros(interval), Finish(calls, from);
      SlotsShrink(from + w, e + w, end, w);
      if s.attempts >= ATTEMPT_LIMIT && !Blocked(s, c.start) {
        assert Micros(s'.wait) == e + w;
        ThrottledTries(s', calls[1..], interval, e);
        assert Tries(s', calls[1..], interval, e) <= Slots(e + w, end, w);
      } else {
        TriesBound(s', calls[1..], interval, e);
        assert Tries(s', calls[1..], interval, e) <= FreeTries(s') + Slots(e + w, end, w);
      }
    }
  }

  lemma InDivision(n: int, free: int, from: int, end: int, until: int, interval: int)
    requires interval > 0 && from <= end <= until && free <= 4 && n <= free + Slots(from + interval, end, interval)
    ensures n <= 4 + (until - from) / interval
  {
    SlotsGrow(from + interval, end, until, interval);
    SlotsBound(from, until, interval);
  }

  /** From any state of the throttle: in a time T without a success there are at most 4 + T/interval
      attempts. */
  lemma AtMostFour(s: State, calls: seq<Call>, interval: Timeval, from: int, until: int)
    requires Normal(s.wait) && Normal(interval) && Micros(interval) > 0 && Serial(calls, from)
    requires NoSuccess(s, calls, interval, from) && Finish(calls, from) <= until
    ensures Tries(s, calls, interval, from) <= 4 + (until - from) / Micros(interval)
  {
    TriesBound(s, calls, interval, from);
    TimePasses(calls, from);
    InDivision(Tries(s, calls, interval, from), FreeTries(s), from, Finish(calls, from), until, Micros(interval));
  }

  lemma {:induction false} SlotsGrow(from: int, a: int, b: int, interval: int)
    requires interval > 0 && a <= b
    ensures Slots(from, a, interval) <= Slots(from, b, interval)
    decreases a - from
  {
    if from < a {
      SlotsGrow(from + interval, a, b, interval);
    }
  }

  /** The four are needed: after a success the first four calls all try, at whatever time they come. */
  lemma {:induction false} FirstFourTry(s: State, calls: seq<Call>, interval: Timeval, from: int)
    requires Normal(s.wait) && Normal(interval) && Serial(calls, from)
    requires s.attempts + |calls| <= 4 && forall i :: 0 <= i < |calls| ==> !calls[i].up
    ensures NoSuccess(s, calls, interval, from) && Tries(s, calls, interval, from) == |calls|
    decreases |calls|
  {
    if calls != [] {
      FirstFourTry(After(s, calls[0], interval), calls[1..], interval, Micros(calls[0].end));
    }
  }

  // ----- it tries again

  /** The throttle after calls, from the start on. */
  function StateAfter(calls: seq<Call>, interval: Timeval): (s: State)
    requires Normal(interval) && forall i :: 0 <= i < |calls| ==> Normal(calls[i].end)
    ensures Normal(s.wait)
  {
    if calls == [] then State(0, Timeval(0, 0))
    else After(StateAfter(calls[..|calls| - 1], interval), calls[|calls| - 1], interval)
  }

  /** The k-th call tried and failed. */
  predicate FailedAt(calls: seq<Call>, interval: Timeval, k: nat)
    requires Normal(interval) && k < |calls| && forall i :: 0 <= i < |calls| ==> Normal(calls[i].end)
  {
    !Blocked(StateAfter(calls[..k], interval), calls[k].start) && !calls[k].up
  }

  /** The throttle waits for an interval after the end of a failure. */
  lemma {:induction false} WaitIsOfFailure(calls: seq<Call>, interval: Timeval) returns (k: nat)
    requires Normal(interval) && forall i :: 0 <= i < |calls| ==> Normal(calls[i].end)
    ensures StateAfter(calls, interval).attempts > 3 ==>
      k < |calls| && FailedAt(calls, interval, k) && StateAfter(calls, interval).wait == Add(calls[k].end, interval)
    decreases |calls|
  {
    k := 0;
    if calls != [] {
      var n := |calls| - 1;
      var s := StateAfter(calls[..n], interval);
      if !Blocked(s, calls[n].start) {
        k := n;
      } else {
        k := WaitIsOfFailure(calls[..n], interval);
        assert k < n ==> calls[..n][..k] == calls[..k];
      }
    }
  }

  /** After any calls, one that starts more than an interval after the end of every failed attempt tries. */
  lemma TriesAgain(calls: seq<Call>, interval: Timeval, now: Timeval)
    requires Normal(interval) && Normal(now) && forall i :: 0 <= i < |calls| ==> Normal(calls[i].end)
    requires forall k: nat :: k < |calls| && FailedAt(calls, interval, k) ==> Micros(now) > Micros(calls[k].end) + Micros(interval)
    ensures !Blocked(StateAfter(calls, interval), now)
  {
    var s := StateAfter(calls, interval);
    var k := WaitIsOfFailure(calls, interval);
    if s.attempts > 3 {
      assert FailedAt(calls, interval, k);
      SmallerIsAtMost(now, s.wait);
    }
  }
}
