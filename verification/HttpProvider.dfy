/** The rate limiter, the circuit breaker and the retry loop of the HTTP provider.

    Clock readings and the answers of the network are parameters; seconds are real numbers. */
module HttpProvider {
  import opened Common

  // ----- Rate limiter -----

  function Max(a: real, b: real): real {
    if a < b then b else a
  }

  class RateLimiter {
    const minimumInterval: real
    var nextSlot: real

    constructor (requestsPerSecond: real)
      requires requestsPerSecond > 0.0
      ensures minimumInterval == 1.0 / requestsPerSecond && nextSlot == 0.0
    {
      minimumInterval := 1.0 / requestsPerSecond;
      nextSlot := 0.0;
    }

    /** Reserves the next slot; the caller then sleeps for the delay. */
    method Wait(now: real) returns (delay: real)
      modifies this`nextSlot
      ensures delay == Max(0.0, old(nextSlot) - now)
      ensures nextSlot == Max(now, old(nextSlot)) + minimumInterval
      ensures now + delay == Max(now, old(nextSlot))
    {
      delay := Max(0.0, nextSlot - now);
      nextSlot := Max(now, nextSlot) + minimumInterval;
    }
  }

  /** The slots given out for a sequence of clock readings, starting with the given next slot. */
  function Slots(interval: real, nextSlot: real, readings: seq<real>): (slots: seq<real>)
    ensures |slots| == |readings|
    decreases |readings|
  {
    if readings == [] then []
    else
      var slot := Max(readings[0], nextSlot);
      [slot] + Slots(interval, slot + interval, readings[1..])
  }

  /** The limiter's next slot after it has given out slots for the readings. */
  function SlotAfter(interval: real, nextSlot: real, readings: seq<real>): real {
    if readings == [] then nextSlot
    else Max(readings[|readings| - 1], SlotAfter(interval, nextSlot, readings[..|readings| - 1])) + interval
  }

  lemma {:induction false} SlotsByLast(interval: real, nextSlot: real, init: seq<real>, last: real)
    ensures Slots(interval, nextSlot, init + [last]) ==
              Slots(interval, nextSlot, init) + [Max(last, SlotAfter(interval, nextSlot, init))]
    decreases |init|
  {
    var all := init + [last];
    if init == [] {
      assert all[1..] == [];
    } else {
      var slot := Max(init[0], nextSlot);
      assert all[1..] == init[1..] + [last];
      SlotsByLast(interval, slot + interval, init[1..], last);
      SlotAfterFirst(interval, nextSlot, init);
    }
  }

  lemma {:induction false} SlotAfterFirst(interval: real, nextSlot: real, readings: seq<real>)
    requires readings != []
    ensures SlotAfter(interval, nextSlot, readings) ==
              SlotAfter(interval, Max(readings[0], nextSlot) + interval, readings[1..])
  {
    if |readings| > 1 {
      SlotAfterFirst(interval, nextSlot, readings[..|readings| - 1]);
      assert readings[..|readings| - 1][1..] == readings[1..][..|readings| - 2];
    }
  }

  /** The slots of several requests one after the other are the slots of all their readings together. */
  lemma {:induction false} SlotsJoin(interval: real, nextSlot: real, a: seq<real>, b: seq<real>)
    ensures Slots(interval, nextSlot, a + b) ==
              Slots(interval, nextSlot, a) + Slots(interval, SlotAfter(interval, nextSlot, a), b)
    ensures SlotAfter(interval, nextSlot, a + b) == SlotAfter(interval, SlotAfter(interval, nextSlot, a), b)
  {
    if b == [] {
      assert a + b == a;
    } else {
      var init, last := b[..|b| - 1], b[|b| - 1];
      SlotsJoin(interval, nextSlot, a, init);
      SlotsByLast(interval, nextSlot, a + init, last);
      SlotsByLast(interval, SlotAfter(interval, nextSlot, a), init, last);
      assert b == init + [last] && a + b == (a + init) + [last];
    }
  }

  lemma FirstSlotIsDue(interval: real, nextSlot: real, readings: seq<real>)
    requires readings != []
    ensures Slots(interval, nextSlot, readings)[0] >= nextSlot
  {
  }

  lemma {:induction false} NextSlotIsLater(interval: real, nextSlot: real, readings: seq<real>, i: nat)
    requires i + 1 < |readings|
    ensures Slots(interval, nextSlot, readings)[i + 1] >= Slots(interval, nextSlot, readings)[i] + interval
    decreases |readings|
  {
    var slot := Max(readings[0], nextSlot);
    if i == 0 {
      FirstSlotIsDue(interval, slot + interval, readings[1..]);
    } else {
      NextSlotIsLater(interval, slot + interval, readings[1..], i - 1);
    }
  }

  /** A request is never let through before the clock reading it came with. */
  lemma {:induction false} SlotsAreNotEarly(interval: real, nextSlot: real, readings: seq<real>, i: nat)
    requires i < |readings|
    ensures Slots(interval, nextSlot, readings)[i] >= readings[i]
    decreases |readings|
  {
    if i > 0 {
      SlotsAreNotEarly(interval, Max(readings[0], nextSlot) + interval, readings[1..], i - 1);
    }
  }

  lemma OneMoreInterval(n: nat, interval: real)
    ensures (n + 1) as real * interval == n as real * interval + interval
  {
  }

  /** Whatever the clock says, slots are spaced by at least the interval per request between them. */
  lemma {:induction false} SlotsAreSpaced(interval: real, nextSlot: real, readings: seq<real>, i: nat, j: nat)
    requires i <= j < |readings|
    ensures var slots := Slots(interval, nextSlot, readings);
            slots[j] - slots[i] >= (j - i) as real * interval
  {
    if i < j {
      SlotsAreSpaced(interval, nextSlot, readings, i, j - 1);
      NextSlotIsLater(interval, nextSlot, readings, j - 1);
      OneMoreInterval(j - 1 - i, interval);
    }
  }

  lemma {:induction false} SpanBoundsCount(s: set<int>, lo: int, hi: int)
    requires (forall x :: x in s ==> lo <= x <= hi) && lo <= hi + 1
    ensures |s| <= hi + 1 - lo
    decreases hi + 1 - lo
  {
    if lo == hi + 1 {
      assert forall x :: x !in s;
    } else {
      var rest := s - {hi};
      SpanBoundsCount(rest, lo, hi - 1);
      assert s <= rest + {hi};
      SubsetSize(s, rest + {hi});
    }
  }

  lemma {:induction false} Extremes(s: set<int>) returns (lo: int, hi: int)
    requires exists x :: x in s
    ensures lo in s && hi in s && forall x :: x in s ==> lo <= x <= hi
  {
    var x: int :| x in s;
    var rest := s - {x};
    assert forall y :: y in s ==> y == x || y in rest;
    lo, hi := x, x;
    if exists y :: y in rest {
      var l, h := Extremes(rest);
      lo, hi := if x < l then x else l, if h < x then x else h;
    }
  }

  lemma SpacingToCount(n: int, rate: real, length: real)
    requires rate > 0.0 && n as real * (1.0 / rate) <= length
    ensures n <= (length * rate).Floor
  {
    var interval := 1.0 / rate;
    assert interval * rate == 1.0;
    assert n as real == n as real * interval * rate <= length * rate;
  }

  /** Slots i and j are at least j - i intervals apart. */
  predicate SpacedAt(interval: real, slots: seq<real>, i: nat, j: nat)
    requires i < |slots| && j < |slots|
  {
    (j - i) as real * interval <= slots[j] - slots[i]
  }

  ghost predicate Spaced(interval: real, slots: seq<real>) {
    forall i: nat, j: nat :: i <= j < |slots| ==> SpacedAt(interval, slots, i, j)
  }

  lemma SlotsAreSpacedOut(interval: real, nextSlot: real, readings: seq<real>)
    ensures Spaced(interval, Slots(interval, nextSlot, readings))
  {
    var slots := Slots(interval, nextSlot, readings);
    forall i: nat, j: nat | i <= j < |slots| ensures SpacedAt(interval, slots, i, j) {
      SlotsAreSpaced(interval, nextSlot, readings, i, j);
    }
  }

  ghost predicate InWindow(slots: seq<real>, from: real, length: real, i: int) {
    0 <= i < |slots| && from <= slots[i] <= from + length
  }

  /** The first and the last slot of a window are within its length, and bound how many there are. */
  lemma SpanOfWindow(interval: real, slots: seq<real>, from: real, length: real, inside: set<int>) returns (n: nat)
    requires Spaced(interval, slots) && exists i :: i in inside
    requires forall i :: i in inside ==> InWindow(slots, from, length, i)
    ensures |inside| <= n + 1 && n as real * interval <= length
  {
    var lo, hi := Extremes(inside);
    SpanBoundsCount(inside, lo, hi);
    assert InWindow(slots, from, length, lo) && InWindow(slots, from, length, hi);
    assert SpacedAt(interval, slots, lo, hi);
    n := hi - lo;
    assert n as real * interval <= slots[hi] - slots[lo] <= length;
  }

  /** Any window of the given length holds at most floor(length * rate) + 1 slots. */
  lemma WindowIsBounded(rate: real, readings: seq<real>, from: real, length: real, inside: set<int>)
    requires rate > 0.0 && length >= 0.0
    requires forall i :: i in inside ==> InWindow(Slots(1.0 / rate, 0.0, readings), from, length, i)
    ensures |inside| <= (length * rate).Floor + 1
  {
    if exists i :: i in inside {
      SlotsAreSpacedOut(1.0 / rate, 0.0, readings);
      var n := SpanOfWindow(1.0 / rate, Slots(1.0 / rate, 0.0, readings), from, length, inside);
      SpacingToCount(n, rate, length);
    } else {
      assert inside == {} && length * rate >= 0.0;
    }
  }

  // ----- Circuit breaker -----

  datatype Policy = Policy(
    maxAttempts: nat, requestsPerSecond: real, failureThreshold: nat, recoverySeconds: real, cacheTtlSeconds: real)
  {
    /** The bounds the policy model enforces. */
    predicate Valid() {
      && 1 <= maxAttempts <= 6 && 0.0 < requestsPerSecond <= 100.0 && 1 <= failureThreshold <= 20
      && 0.0 < recoverySeconds <= 3600.0 && 0.0 <= cacheTtlSeconds <= 86400.0
    }
  }

  datatype Circuit = Circuit(failures: nat, openedAt: Option<real>)

  /** The atomic updates of the breaker that concurrent requests can interleave. */
  datatype Update = Admit(now: real) | Success | Failure(now: real)

  function Updated(c: Circuit, policy: Policy, u: Update): Circuit {
    match u
    case Admit(now) =>
      if c.openedAt.Some? && now - c.openedAt.value >= policy.recoverySeconds then Circuit(0, None) else c
    case Success => Circuit(0, None)
    case Failure(now) =>
      Circuit(c.failures + 1, if c.failures + 1 >= policy.failureThreshold then Some(now) else c.openedAt)
  }

  function After(policy: Policy, updates: seq<Update>): Circuit {
    if updates == [] then Circuit(0, None)
    else Updated(After(policy, updates[..|updates| - 1]), policy, updates[|updates| - 1])
  }

  /** Update number i closes the circuit and forgets the failures. */
  ghost predicate Resets(policy: Policy, updates: seq<Update>, i: nat)
    requires i < |updates|
  {
    match updates[i]
    case Admit(now) =>
      var c := After(policy, updates[..i]);
      c.openedAt.Some? && now - c.openedAt.value >= policy.recoverySeconds
    case Success => true
    case Failure(_) => false
  }

  /** Failures among the updates since the last one that closed the circuit. */
  ghost function FailuresSinceReset(policy: Policy, updates: seq<Update>): nat {
    if updates == [] then 0
    else
      var n := |updates| - 1;
      if Resets(policy, updates, n) then 0
      else FailuresSinceReset(policy, updates[..n]) + if updates[n].Failure? then 1 else 0
  }

  /** Over every interleaving of updates the failure count is what it says, and the circuit is
      open exactly while that count is at least the threshold. */
  lemma {:induction false} OpenMeansThresholdReached(policy: Policy, updates: seq<Update>)
    requires policy.Valid()
    ensures var c := After(policy, updates);
            && c.failures == FailuresSinceReset(policy, updates)
            && (c.openedAt.Some? <==> FailuresSinceReset(policy, updates) >= policy.failureThreshold)
  {
    if updates != [] {
      OpenMeansThresholdReached(policy, updates[..|updates| - 1]);
    }
  }

  /** The circuit opened at the instant of the latest failure at or above the threshold. */
  lemma {:induction false} OpenedByAFailure(policy: Policy, updates: seq<Update>) returns (i: nat)
    requires policy.Valid() && After(policy, updates).openedAt.Some?
    ensures i < |updates| && updates[i] == Failure(After(policy, updates).openedAt.value)
    ensures forall j :: i < j < |updates| ==> updates[j].Admit?
  {
    var n := |updates| - 1;
    var before := After(policy, updates[..n]);
    OpenMeansThresholdReached(policy, updates[..n]);
    if updates[n].Failure? {
      i := n;
    } else {
      i := OpenedByAFailure(policy, updates[..n]);
    }
  }

  // ----- One request -----

  type Value = string

  datatype Answer =
    | Body(value: Value)
    | TransportError
    | Status(code: nat)
    | Unusable

  datatype RequestResult = Replied(value: Value) | CircuitOpen | Unavailable(attempts: nat)

  /** An answer after which another may follow: no response, too many requests, or an error of the server. */
  ghost predicate Transient(a: Answer) {
    match a
    case TransportError => true
    case Status(code) => code == 429 || code >= 500
    case Body(_) => false
    case Unusable => false
  }

  /** The breaker after a request, in terms of its atomic updates. */
  ghost predicate IsBrokenThrough(before: Circuit, policy: Policy, after: Circuit, r: RequestResult, calls: nat,
                                  start: real, end: real)
  {
    var admitted := Updated(before, policy, Admit(start));
    after == if calls == 0 then before
             else Updated(admitted, policy, if r.Replied? then Success else Failure(end))
  }

  /** The first n readings, counted from attempt 1. */
  function ReadingsOf(readings: nat -> real, n: nat): seq<real> {
    seq(n, k requires 0 <= k < n => readings(k + 1))
  }

  lemma ReadingsByLast(readings: nat -> real, n: nat)
    ensures ReadingsOf(readings, n + 1) == ReadingsOf(readings, n) + [readings(n + 1)]
  {
  }

  datatype CacheEntry = CacheEntry(expiresAt: real, value: Value)

  class ResilientHttpProvider {
    const policy: Policy
    const limiter: RateLimiter
    var circuit: Circuit
    var cache: map<string, CacheEntry>

    constructor (policy: Policy)
      requires policy.Valid()
      ensures this.policy == policy && circuit == Circuit(0, None) && cache == map[]
      ensures fresh(limiter) && limiter.nextSlot == 0.0
      ensures limiter.minimumInterval == 1.0 / policy.requestsPerSecond
    {
      this.policy := policy;
      limiter := new RateLimiter(policy.requestsPerSecond);
      circuit := Circuit(0, None);
      cache := map[];
    }

    /** Waits for the next slot and notes it. */
    method AwaitSlot(reading: real, ghost nextSlot: real, ghost seen: seq<real>, slots: seq<real>)
      returns (slots1: seq<real>)
      requires WaitedFor(nextSlot, seen, slots)
      modifies limiter
      ensures WaitedFor(nextSlot, seen + [reading], slots1)
    {
      SlotsByLast(limiter.minimumInterval, nextSlot, seen, reading);
      var delay := limiter.Wait(reading);
      slots1 := slots + [reading + delay];
      assert (seen + [reading])[..|seen|] == seen;
    }

    /** The retry loop; each attempt first waits for its slot. All attempts but the last failed in transport, were
        throttled with 429 or met a server error; the last did not, or it was the last allowed. */
    method Attempts(readings: nat -> real, answers: nat -> Answer) returns (calls: nat, slots: seq<real>)
      requires policy.Valid()
      modifies limiter
      ensures 1 <= calls <= policy.maxAttempts
      ensures forall k :: 1 <= k < calls ==> Transient(answers(k))
      ensures calls < policy.maxAttempts ==> !Transient(answers(calls))
      ensures WaitedFor(old(limiter.nextSlot), ReadingsOf(readings, calls), slots)
    {
      calls, slots := 0, [];
      var retrying := true;
      while retrying
        invariant 0 <= calls <= policy.maxAttempts && forall k :: 1 <= k < calls ==> Transient(answers(k))
        invariant WaitedFor(old(limiter.nextSlot), ReadingsOf(readings, calls), slots)
        invariant retrying ==> calls < policy.maxAttempts && (calls > 0 ==> Transient(answers(calls)))
        invariant !retrying ==> calls > 0 && (calls == policy.maxAttempts || !Transient(answers(calls)))
        decreases policy.maxAttempts - calls, retrying
      {
        ReadingsByLast(readings, calls);
        slots := AwaitSlot(readings(calls + 1), old(limiter.nextSlot), ReadingsOf(readings, calls), slots);
        calls := calls + 1;
        var answer := answers(calls);
        var retryable := answer.TransportError? || (answer.Status? && (answer.code == 429 || answer.code >= 500));
        retrying := calls < policy.maxAttempts && retryable;
      }
    }

    /** The slots are those of the readings, and the limiter stands behind the last of them. */
    ghost predicate WaitedFor(nextSlot: real, seen: seq<real>, slots: seq<real>)
      reads limiter
    {
      && slots == Slots(limiter.minimumInterval, nextSlot, seen)
      && limiter.nextSlot == SlotAfter(limiter.minimumInterval, nextSlot, seen)
    }

    /** One call: cache, breaker, bounded attempts, and one breaker update for its outcome.
        calls counts the requests sent to the network; start and end are the clock's readings
        before the first and after the last of them, and readings(k) is the one on which attempt k
        waits for its slot. slots are the instants from which the attempts may be sent. */
    method RequestJson(key: string, cacheable: bool, start: real, end: real,
                       readings: nat -> real, answers: nat -> Answer)
      returns (r: RequestResult, calls: nat, slots: seq<real>)
      requires policy.Valid()
      modifies this, limiter
      ensures WaitedFor(old(limiter.nextSlot), ReadingsOf(readings, calls), slots)
      ensures var caching := cacheable && policy.cacheTtlSeconds > 0.0;
              var hit := caching && key in old(cache) && start < old(cache)[key].expiresAt;
              var open := old(circuit).openedAt.Some?;
              var refused := open && start - old(circuit).openedAt.value < policy.recoverySeconds;
              if hit then
                r == Replied(old(cache)[key].value) && calls == 0 && circuit == old(circuit) && cache == old(cache)
              else if refused then
                r == CircuitOpen && calls == 0 && circuit == old(circuit) && cache == old(cache)
              else
                && 1 <= calls <= policy.maxAttempts
                && (forall k :: 1 <= k < calls ==> Transient(answers(k)))
                && (calls < policy.maxAttempts ==> !Transient(answers(calls)))
                && match answers(calls)
                   case Body(value) =>
                     && r == Replied(value) && circuit == Circuit(0, None)
                     && cache == (if caching then old(cache)[key := CacheEntry(end + policy.cacheTtlSeconds, value)]
                                  else old(cache))
                   case _ =>
                     var failures := 1 + if open then 0 else old(circuit).failures;
                     && r == Unavailable(calls) && cache == old(cache)
                     && circuit == Circuit(failures, if failures >= policy.failureThreshold then Some(end) else None)
      ensures IsBrokenThrough(old(circuit), policy, circuit, r, calls, start, end)
    {
      calls, slots := 0, [];
      if cacheable && policy.cacheTtlSeconds > 0.0 && key in cache && cache[key].expiresAt > start {
        return Replied(cache[key].value), 0, [];
      }
      if circuit.openedAt.Some? {
        if start - circuit.openedAt.value >= policy.recoverySeconds {
          circuit := Circuit(0, None);
        } else {
          return CircuitOpen, 0, [];
        }
      }
      calls, slots := Attempts(readings, answers);
      if answers(calls).Body? {
        circuit := Circuit(0, None);
        if cacheable && policy.cacheTtlSeconds > 0.0 {
          cache := cache[key := CacheEntry(end + policy.cacheTtlSeconds, answers(calls).value)];
        }
        return Replied(answers(calls).value), calls, slots;
      }
      var failures := circuit.failures + 1;
      circuit := Circuit(failures, if failures >= policy.failureThreshold then Some(end) else circuit.openedAt);
      r := Unavailable(calls);
    }
  }
}
