/** The refill-on-read token bucket of the gateway, with its idle expiry. */
module RateLimiter {

  function Min(a: real, b: real): real { if b < a then b else a }

  /** The stored hash of one key. */
  datatype Bucket = Absent | Present(tokens: real, ts: int)

  const TTL_MS := 120_000

  /** Tokens regenerate at capacity / 60000 per millisecond. */
  function Refill(capacity: nat, ms: int): real { ms as real * (capacity as real / 60_000.0) }

  function Elapsed(from: int, to: int): int { if to < from then 0 else to - from }

  /** The tokens on hand when a call arrives. */
  function OnHand(b: Bucket, capacity: nat, now: int): real {
    match b
    case Absent => capacity as real
    case Present(tokens, ts) => Min(capacity as real, tokens + Refill(capacity, Elapsed(ts, now)))
  }

  function Allowed(b: Bucket, capacity: nat, now: int): bool { OnHand(b, capacity, now) >= 1.0 }

  function After(b: Bucket, capacity: nat, now: int): Bucket {
    Present(OnHand(b, capacity, now) - (if Allowed(b, capacity, now) then 1.0 else 0.0), now)
  }

  /** Reachable buckets hold between no token and a full load. */
  predicate Valid(b: Bucket, capacity: nat) {
    b.Present? ==> 0.0 <= b.tokens <= capacity as real
  }

  datatype Hash = Hash(tokens: real, ts: int, expiresAt: int)

  /** What the store still holds for a key at time `now`. */
  function Live(hashes: map<string, Hash>, key: string, now: int): Bucket {
    if key in hashes && now < hashes[key].expiresAt then Present(hashes[key].tokens, hashes[key].ts) else Absent
  }

  class RedisRateLimiter {
    const capacity: nat
    var hashes: map<string, Hash>

    constructor (requestsPerMin: nat)
      ensures capacity == requestsPerMin && hashes == map[]
    {
      capacity := requestsPerMin;
      hashes := map[];
    }

    method TryAcquire(key: string, now: int) returns (allowed: bool)
      modifies this`hashes
      ensures allowed == Allowed(Live(old(hashes), key, now), capacity, now)
      ensures var after := After(Live(old(hashes), key, now), capacity, now);
              hashes == old(hashes)[key := Hash(after.tokens, after.ts, now + TTL_MS)]
      ensures allowed <==> Suffices(Live(old(hashes), key, now), capacity, now)
      ensures hashes[key].ts == now && hashes[key].expiresAt == now + 120_000
    {
      AllowedExactly(Live(hashes, key, now), capacity, now);
      var tokens, ts := capacity as real, now;
      if key in hashes && now < hashes[key].expiresAt {
        tokens, ts := hashes[key].tokens, hashes[key].ts;
      }
      var elapsed := now - ts;
      if elapsed < 0 {
        elapsed := 0;
      }
      tokens := Min(capacity as real, tokens + Refill(capacity, elapsed));
      allowed := false;
      if tokens >= 1.0 {
        tokens := tokens - 1.0;
        allowed := true;
      }
      hashes := hashes[key := Hash(tokens, now, now + TTL_MS)];
    }
  }

  // ---- a run of calls for one key ----------------------------------------------------------------

  /** The bucket after calls at the given times, never expiring. */
  function Final(b: Bucket, capacity: nat, times: seq<int>): Bucket
    decreases |times|
  {
    if times == [] then b else Final(After(b, capacity, times[0]), capacity, times[1..])
  }

  function Decisions(b: Bucket, capacity: nat, times: seq<int>): (d: seq<bool>)
    ensures |d| == |times|
    decreases |times|
  {
    if times == [] then []
    else [Allowed(b, capacity, times[0])] + Decisions(After(b, capacity, times[0]), capacity, times[1..])
  }

  function CountAllowed(d: seq<bool>): nat {
    if d == [] then 0 else (if d[0] then 1 else 0) + CountAllowed(d[1..])
  }

  predicate NonDecreasing(times: seq<int>) {
    forall i, j :: 0 <= i <= j < |times| ==> times[i] <= times[j]
  }

  lemma RefillLaws(capacity: nat, a: int, b: int)
    ensures Refill(capacity, a + b) == Refill(capacity, a) + Refill(capacity, b)
    ensures a <= b ==> Refill(capacity, a) <= Refill(capacity, b)
    ensures Refill(capacity, 0) == 0.0
  {
    var x, y, r := a as real, b as real, capacity as real / 60_000.0;
    assert (x + y) * r == x * r + y * r;
    if a <= b { assert (y - x) * r >= 0.0; }
  }

  /** Refill in whole numbers: `capacity` tokens a minute. */
  lemma RefillPerMinute(capacity: nat, ms: int)
    ensures Refill(capacity, ms) * 60_000.0 == (ms * capacity) as real
    ensures ms >= 0 ==> Refill(capacity, ms).Floor == ms * capacity / 60_000
  {
    var m, c := ms as real, capacity as real;
    assert (ms * capacity) as real == m * c;
    assert m * (c / 60_000.0) * 60_000.0 == m * c;
    if ms >= 0 { WholeSixtyThousandths(Refill(capacity, ms), ms * capacity); }
  }

  lemma WholeSixtyThousandths(x: real, n: int)
    requires x * 60_000.0 == n as real
    ensures x.Floor == n / 60_000
  {
    var q, r := n / 60_000, n % 60_000;
    assert n == q * 60_000 + r;
    assert x == q as real + r as real / 60_000.0;
  }

  /** A call finds a token: the bucket has room for one, and what it held with what came in since, at
      `capacity` tokens a minute, makes one. */
  predicate Suffices(b: Bucket, capacity: nat, now: int) {
    capacity >= 1 && (b.Present? ==>
      b.tokens * 60_000.0 + ((if now < b.ts then 0 else now - b.ts) * capacity) as real >= 60_000.0)
  }

  /** A call is allowed exactly when a token is there. */
  lemma AllowedExactly(b: Bucket, capacity: nat, now: int)
    ensures Allowed(b, capacity, now) <==> Suffices(b, capacity, now)
  {
    if b.Present? { RefillPerMinute(capacity, Elapsed(b.ts, now)); }
  }

  /** Calls since the bucket was last empty: the first is allowed exactly from the time one token takes. */
  lemma EmptyBucketWaits(capacity: nat, emptied: int, ms: nat)
    ensures Allowed(Present(0.0, emptied), capacity, emptied + ms) <==> capacity >= 1 && ms * capacity >= 60_000
  {
    AllowedExactly(Present(0.0, emptied), capacity, emptied + ms);
  }

  /** What a call leaves, in sixty-thousandths of a token: all that was there and came in up to a full
      bucket, less the token it took. A key without a bucket starts full. */
  lemma LeftAfterCall(b: Bucket, capacity: nat, now: int)
    ensures var after := After(b, capacity, now);
            var came := if b.Absent? then (60_000 * capacity) as real
                        else b.tokens * 60_000.0 + ((if now < b.ts then 0 else now - b.ts) * capacity) as real;
            && after.ts == now
            && after.tokens * 60_000.0
               == (if came < (60_000 * capacity) as real then came else (60_000 * capacity) as real)
                  - (if Suffices(b, capacity, now) then 60_000.0 else 0.0)
  {
    AllowedExactly(b, capacity, now);
    if b.Present? { RefillPerMinute(capacity, Elapsed(b.ts, now)); }
  }

  lemma AfterIsValid(b: Bucket, capacity: nat, now: int)
    requires Valid(b, capacity)
    ensures 0.0 <= OnHand(b, capacity, now) <= capacity as real
    ensures Valid(After(b, capacity, now), capacity)
  {
    if b.Present? {
      RefillLaws(capacity, 0, Elapsed(b.ts, now));
    }
  }

  /** How much the clock moves forward in all, whatever it does in between. */
  function Advance(from: int, times: seq<int>): nat
    decreases |times|
  {
    if times == [] then 0 else Elapsed(from, times[0]) + Advance(times[0], times[1..])
  }

  /** Each allowed call is paid for by the tokens on hand or by time that passed, for any clock. */
  lemma {:induction false} AllowedArePaidFor(tokens: real, ts: int, capacity: nat, times: seq<int>)
    requires 0.0 <= tokens <= capacity as real
    ensures CountAllowed(Decisions(Present(tokens, ts), capacity, times)) as real
         <= tokens + Refill(capacity, Advance(ts, times))
    decreases |times|
  {
    if times == [] {
      RefillLaws(capacity, 0, 0);
    } else {
      var b := Present(tokens, ts);
      var now, rest := times[0], times[1..];
      AfterIsValid(b, capacity, now);
      var next := After(b, capacity, now);
      AllowedArePaidFor(next.tokens, now, capacity, rest);
      RefillLaws(capacity, Elapsed(ts, now), Advance(now, rest));
      assert Decisions(b, capacity, times)[1..] == Decisions(next, capacity, rest);
    }
  }

  lemma WindowPaidFor(b: Bucket, capacity: nat, times: seq<int>)
    requires Valid(b, capacity) && times != []
    ensures CountAllowed(Decisions(b, capacity, times)) as real
         <= capacity as real + Refill(capacity, Advance(times[0], times[1..]))
  {
    var next := After(b, capacity, times[0]);
    AfterIsValid(b, capacity, times[0]);
    AllowedArePaidFor(next.tokens, times[0], capacity, times[1..]);
    assert Decisions(b, capacity, times)[1..] == Decisions(next, capacity, times[1..]);
  }

  /** In any window of calls, whatever happened before and whatever the clock does, at most a full
      bucket plus the refill over the forward motion of the clock is allowed. */
  lemma WindowBoundAnyClock(b: Bucket, capacity: nat, times: seq<int>)
    requires Valid(b, capacity) && times != []
    ensures CountAllowed(Decisions(b, capacity, times)) * 60_000
         <= 60_000 * capacity + Advance(times[0], times[1..]) * capacity
  {
    WindowPaidFor(b, capacity, times);
    RefillPerMinute(capacity, Advance(times[0], times[1..]));
  }

  lemma SteadyTail(from: int, times: seq<int>)
    requires times != [] && NonDecreasing([from] + times)
    ensures from <= times[0] && NonDecreasing([times[0]] + times[1..])
  {
    var all := [from] + times;
    assert all[0] <= all[1];
    assert forall i :: 0 <= i < |times| ==> times[i] == all[i + 1];
    assert [times[0]] + times[1..] == times;
  }

  lemma {:induction false} SteadyAdvance(from: int, times: seq<int>)
    requires NonDecreasing([from] + times)
    ensures Advance(from, times) == (if times == [] then 0 else times[|times| - 1] - from)
    decreases |times|
  {
    hide NonDecreasing;
    if times != [] {
      SteadyTail(from, times);
      SteadyAdvance(times[0], times[1..]);
    }
  }

  /** With a clock that never goes back, the calls of a window of `span` ms that are allowed number
      at most capacity + span * capacity / 60000. */
  lemma WindowBound(b: Bucket, capacity: nat, times: seq<int>, span: int)
    requires Valid(b, capacity) && times != [] && NonDecreasing(times)
    requires times[|times| - 1] - times[0] <= span
    ensures CountAllowed(Decisions(b, capacity, times)) as real <= capacity as real + Refill(capacity, span)
  {
    WindowPaidFor(b, capacity, times);
    assert [times[0]] + times[1..] == times;
    SteadyAdvance(times[0], times[1..]);
    RefillLaws(capacity, Advance(times[0], times[1..]), span);
  }

  lemma SliceOfTail<T>(s: seq<T>, i: nat, j: nat)
    requires 1 <= i <= j <= |s|
    ensures s[1..][i - 1..j - 1] == s[i..j] && s[1..][..i - 1] == s[..i][1..] && s[..i][0] == s[0]
  {
  }

  lemma SliceFromStart<T>(s: seq<T>, j: nat)
    requires 1 <= j <= |s|
    ensures s[0..j] == [s[0]] + s[1..][0..j - 1] && s[0..j][1..] == s[1..][0..j - 1]
  {
  }

  lemma {:induction false} DecisionsPrefix(b: Bucket, capacity: nat, times: seq<int>, j: nat)
    requires j <= |times|
    ensures Decisions(b, capacity, times)[0..j] == Decisions(b, capacity, times[0..j])
    decreases |times|
  {
    if j == 0 {
      assert times[0..0] == [];
    } else {
      SliceFromStart(times, j);
      SliceFromStart(Decisions(b, capacity, times), j);
      DecisionsPrefix(After(b, capacity, times[0]), capacity, times[1..], j - 1);
    }
  }

  /** The calls i..j of a run are decided as a run that starts from the bucket the first i left. */
  lemma {:induction false} WindowOfRun(b: Bucket, capacity: nat, times: seq<int>, i: nat, j: nat)
    requires i <= j <= |times|
    ensures Decisions(b, capacity, times)[i..j] == Decisions(Final(b, capacity, times[..i]), capacity, times[i..j])
    decreases |times|
  {
    if i == 0 {
      assert times[..0] == [];
      DecisionsPrefix(b, capacity, times, j);
    } else {
      WindowOfRun(After(b, capacity, times[0]), capacity, times[1..], i - 1, j - 1);
      SliceOfTail(times, i, j);
      SliceOfTail(Decisions(b, capacity, times), i, j);
    }
  }

  lemma {:induction false} FinalIsValid(b: Bucket, capacity: nat, times: seq<int>)
    requires Valid(b, capacity)
    ensures Valid(Final(b, capacity, times), capacity)
    decreases |times|
  {
    if times != [] {
      AfterIsValid(b, capacity, times[0]);
      FinalIsValid(After(b, capacity, times[0]), capacity, times[1..]);
    }
  }

  /** The bound holds for every window [i, j) of every run of a key, from its first call on. */
  lemma EveryWindowBounded(capacity: nat, times: seq<int>, i: nat, j: nat, span: int)
    requires NonDecreasing(times) && i < j <= |times| && times[j - 1] - times[i] <= span
    ensures CountAllowed(Decisions(Absent, capacity, times)[i..j]) * 60_000 <= 60_000 * capacity + span * capacity
  {
    RefillPerMinute(capacity, span);
    WindowOfRun(Absent, capacity, times, i, j);
    FinalIsValid(Absent, capacity, times[..i]);
    WindowBound(Final(Absent, capacity, times[..i]), capacity, times[i..j], span);
  }

  /** For any clock, every window whose clock moves forward by at most `span` in all allows at most
      capacity + span * capacity / 60000 calls. With a clock that never goes back that motion is the
      window's length. */
  lemma EveryWindowBoundedAnyClock(capacity: nat, times: seq<int>, i: nat, j: nat, span: int)
    requires i < j <= |times| && Advance(times[i], times[i + 1..j]) <= span
    ensures CountAllowed(Decisions(Absent, capacity, times)[i..j]) * 60_000 <= 60_000 * capacity + span * capacity
  {
    RefillPerMinute(capacity, span);
    WindowOfRun(Absent, capacity, times, i, j);
    FinalIsValid(Absent, capacity, times[..i]);
    WindowTail(times, i, j);
    WindowPaidFor(Final(Absent, capacity, times[..i]), capacity, times[i..j]);
    RefillLaws(capacity, Advance(times[i], times[i + 1..j]), span);
  }

  lemma WindowTail(times: seq<int>, i: nat, j: nat)
    requires i < j <= |times|
    ensures times[i..j] != [] && times[i..j][0] == times[i] && times[i..j][1..] == times[i + 1..j]
  {
  }

  /** The converse fails: refill beyond a full bucket is lost, so a window may keep the bound although the
      clock moved further. Two calls four minutes apart, both within the bound for one minute. */
  lemma RefillLostAtCap()
    ensures var times := [0, 240_000];
            && CountAllowed(Decisions(Absent, 1, times)) * 60_000 <= 60_000 + 60_000
            && Advance(times[0], times[1..]) > 60_000
  {
    var times := [0, 240_000];
    assert times[1..] == [240_000] && [240_000][1..] == [];
    assert Refill(1, 60_000) == 1.0;
    CountAtMost(Decisions(Absent, 1, times));
    assert Advance(0, [240_000]) == 240_000 + Advance(240_000, []);
  }

  lemma {:induction false} CountAtMost(d: seq<bool>)
    ensures CountAllowed(d) <= |d|
  {
    if d != [] { CountAtMost(d[1..]); }
  }

  /** A clock that goes back defeats the bound: every return to a later time pays again. Capacity 1,
      five calls within one minute, three of them allowed. */
  lemma BackwardClockBreaksBound()
    ensures var times := [60_000, 0, 60_000, 0, 60_000];
            && CountAllowed(Decisions(Absent, 1, times)) == 3
            && (forall k :: 0 <= k < |times| ==> 0 <= times[k] <= 60_000)
    ensures CountAllowed(Decisions(Absent, 1, [60_000, 0, 60_000, 0, 60_000])) * 60_000 > 60_000 + 60_000
  {
    var b1, b2 := Present(0.0, 60_000), Present(0.0, 0);
    assert After(Absent, 1, 60_000) == b1;
    assert Refill(1, 0) == 0.0 && Refill(1, 60_000) == 1.0;
    assert After(b1, 1, 0) == b2 && !Allowed(b1, 1, 0);
    assert After(b2, 1, 60_000) == b1 && Allowed(b2, 1, 60_000);
    assert Decisions(b1, 1, [0, 60_000]) == [false, true];
    FirstDecision(b1, 1, 0, [60_000]);
    FirstDecision(b2, 1, 60_000, [0, 60_000]);
    FirstDecision(b1, 1, 0, [60_000, 0, 60_000]);
    FirstDecision(Absent, 1, 60_000, [0, 60_000, 0, 60_000]);
    var d := [false, true];
    CountCons(true, d);
    CountCons(false, [true] + d);
    CountCons(true, [false] + ([true] + d));
  }

  lemma FirstDecision(b: Bucket, capacity: nat, now: int, rest: seq<int>)
    ensures Decisions(b, capacity, [now] + rest)
         == [Allowed(b, capacity, now)] + Decisions(After(b, capacity, now), capacity, rest)
  {
    assert ([now] + rest)[1..] == rest;
  }

  lemma CountCons(d: bool, rest: seq<bool>)
    ensures CountAllowed([d] + rest) == (if d then 1 else 0) + CountAllowed(rest)
  {
    assert ([d] + rest)[1..] == rest;
  }

  // ---- what a clock allows at most, exactly -------------------------------------------------------

  function Copies(c: int, n: nat): seq<int> {
    if n == 0 then [] else [c] + Copies(c, n - 1)
  }

  /** Calls at the readings of a clock, as many at each as `calls` says. */
  function Schedule(clock: seq<int>, calls: seq<nat>): seq<int>
    requires |clock| == |calls|
  {
    if clock == [] then [] else Copies(clock[0], calls[0]) + Schedule(clock[1..], calls[1..])
  }

  function AllowedCalls(capacity: nat, clock: seq<int>, calls: seq<nat>): nat
    requires |clock| == |calls|
  {
    CountAllowed(Decisions(Absent, capacity, Schedule(clock, calls)))
  }

  lemma {:induction false} CopiesAdvance(from: int, c: int, n: nat, rest: seq<int>)
    ensures Advance(from, Copies(c, n) + rest) <= Elapsed(from, c) + Advance(c, rest)
    decreases n
  {
    if n == 0 {
      assert Copies(c, n) + rest == rest;
    } else {
      CopiesFirst(c, n, rest);
      assert ([c] + (Copies(c, n - 1) + rest))[1..] == Copies(c, n - 1) + rest;
      CopiesAdvance(c, c, n - 1, rest);
    }
  }

  /** Leaving readings out never adds to the forward motion. */
  lemma {:induction false} ScheduleAdvance(from: int, clock: seq<int>, calls: seq<nat>)
    requires |clock| == |calls|
    ensures Advance(from, Schedule(clock, calls)) <= Advance(from, clock)
    decreases |clock|
  {
    if clock != [] {
      CopiesAdvance(from, clock[0], calls[0], Schedule(clock[1..], calls[1..]));
      ScheduleAdvance(clock[0], clock[1..], calls[1..]);
    }
  }

  /** Whoever calls on a clock, and however often, is allowed at most a full bucket and the whole tokens
      its forward motion refills. */
  lemma NoCallerGetsMore(capacity: nat, clock: seq<int>, calls: seq<nat>)
    requires clock != [] && |clock| == |calls|
    ensures AllowedCalls(capacity, clock, calls) <= capacity + Advance(clock[0], clock[1..]) * capacity / 60_000
  {
    RefillPerMinute(capacity, Advance(clock[0], clock[1..]));
    var times := Schedule(clock, calls);
    var all := Advance(clock[0], clock[1..]);
    RefillLaws(capacity, 0, all);
    if times != [] {
      WindowPaidFor(Absent, capacity, times);
      ScheduleAdvance(clock[0], clock, calls);
      RefillLaws(capacity, Advance(times[0], times[1..]), all);
    }
  }

  /** No forward step refills more than all but one token of a full bucket. */
  predicate Gentle(capacity: nat, from: int, clock: seq<int>)
    decreases |clock|
  {
    clock != [] ==>
      Elapsed(from, clock[0]) * capacity <= (capacity - 1) * 60_000 && Gentle(capacity, clock[0], clock[1..])
  }

  /** A full bucket's worth of calls at every reading. */
  function Draining(capacity: nat, clock: seq<int>): (calls: seq<nat>)
    ensures |calls| == |clock|
  {
    if clock == [] then [] else [capacity] + Draining(capacity, clock[1..])
  }

  function Count(b: Bucket, capacity: nat, times: seq<int>): nat { CountAllowed(Decisions(b, capacity, times)) }

  lemma CountFirst(b: Bucket, capacity: nat, now: int, rest: seq<int>)
    ensures Count(b, capacity, [now] + rest)
         == (if Allowed(b, capacity, now) then 1 else 0) + Count(After(b, capacity, now), capacity, rest)
  {
    FirstDecision(b, capacity, now, rest);
    CountCons(Allowed(b, capacity, now), Decisions(After(b, capacity, now), capacity, rest));
  }

  lemma CopiesFirst(c: int, n: nat, rest: seq<int>)
    requires n > 0
    ensures Copies(c, n) + rest == [c] + (Copies(c, n - 1) + rest)
    ensures n == 1 ==> Copies(c, n - 1) + rest == rest
  {
  }

  lemma WholeTokens(h: real)
    ensures (h - 1.0).Floor == h.Floor - 1
    ensures 0.0 <= h < 1.0 ==> h.Floor == 0
  {
  }

  lemma NoRefillAtOnce(b: Bucket, capacity: nat, now: int)
    requires Valid(b, capacity)
    ensures 0.0 <= OnHand(b, capacity, now) <= capacity as real
    ensures Valid(After(b, capacity, now), capacity)
    ensures OnHand(After(b, capacity, now), capacity, now) == After(b, capacity, now).tokens
  {
    AfterIsValid(b, capacity, now);
    RefillLaws(capacity, 0, 0);
  }

  /** Enough calls at one reading take every whole token on hand. */
  lemma {:induction false} DrainAtOnce(b: Bucket, capacity: nat, now: int, n: nat, rest: seq<int>)
    requires Valid(b, capacity) && n > 0 && n >= OnHand(b, capacity, now).Floor
    ensures var h := OnHand(b, capacity, now);
            Count(b, capacity, Copies(now, n) + rest)
            == h.Floor + Count(Present(h - h.Floor as real, now), capacity, rest)
    decreases n
  {
    hide Count;
    var h := OnHand(b, capacity, now);
    var next := After(b, capacity, now);
    NoRefillAtOnce(b, capacity, now);
    hide OnHand, Refill, Copies;
    WholeTokens(h);
    CopiesFirst(now, n, rest);
    CountFirst(b, capacity, now, Copies(now, n - 1) + rest);
    if n > 1 {
      DrainAtOnce(next, capacity, now, n - 1, rest);
    }
  }

  /** On a gentle clock the draining caller loses nothing at the cap. */
  lemma {:induction false} DrainAlong(left: real, from: int, capacity: nat, clock: seq<int>)
    requires capacity > 0 && 0.0 <= left < 1.0 && Gentle(capacity, from, clock)
    ensures Count(Present(left, from), capacity, Schedule(clock, Draining(capacity, clock)))
         == (left + Refill(capacity, Advance(from, clock))).Floor
    decreases |clock|
  {
    RefillLaws(capacity, 0, 0);
    if clock != [] {
      var b, now, rest := Present(left, from), clock[0], clock[1..];
      var h := OnHand(b, capacity, now);
      RefillLaws(capacity, 0, Elapsed(from, now));
      RefillPerMinute(capacity, Elapsed(from, now));
      RefillLaws(capacity, Elapsed(from, now), Advance(now, rest));
      assert h == left + Refill(capacity, Elapsed(from, now));
      assert Draining(capacity, clock)[1..] == Draining(capacity, rest);
      DrainAtOnce(b, capacity, now, capacity, Schedule(rest, Draining(capacity, rest)));
      DrainAlong(h - h.Floor as real, now, capacity, rest);
    }
  }

  lemma DrainingGetsAll(capacity: nat, clock: seq<int>)
    requires capacity > 0 && clock != [] && Gentle(capacity, clock[0], clock[1..])
    ensures AllowedCalls(capacity, clock, Draining(capacity, clock))
         == capacity + Advance(clock[0], clock[1..]) * capacity / 60_000
  {
    RefillPerMinute(capacity, Advance(clock[0], clock[1..]));
    var rest := clock[1..];
    assert Draining(capacity, clock)[1..] == Draining(capacity, rest);
    DrainAtOnce(Absent, capacity, clock[0], capacity, Schedule(rest, Draining(capacity, rest)));
    DrainAlong(0.0, clock[0], capacity, rest);
  }

  /** The readings of the clock alone decide: every caller stays within the bound for `span` exactly when
      the whole tokens refilled by the clock's forward motion do. For a clock that never goes back that
      motion is the time between its first and its last reading. */
  lemma ClockBoundExactly(capacity: nat, clock: seq<int>, span: nat)
    requires capacity > 0 && clock != [] && Gentle(capacity, clock[0], clock[1..])
    ensures (forall calls: seq<nat> :: |calls| == |clock| ==>
               AllowedCalls(capacity, clock, calls) * 60_000 <= 60_000 * capacity + span * capacity)
       <==> Advance(clock[0], clock[1..]) * capacity / 60_000 * 60_000 <= span * capacity
  {
    DrainingGetsAll(capacity, clock);
    forall calls: seq<nat> | |calls| == |clock|
      ensures AllowedCalls(capacity, clock, calls) <= capacity + Advance(clock[0], clock[1..]) * capacity / 60_000
    {
      NoCallerGetsMore(capacity, clock, calls);
    }
  }

  /** Consecutive calls are at least 60000 / capacity ms apart. */
  predicate Spaced(capacity: nat, times: seq<int>) {
    forall i :: 0 <= i < |times| - 1 ==> (times[i + 1] - times[i]) * capacity >= 60_000
  }

  lemma NegativeTimes(a: int, b: nat)
    ensures a < 0 ==> a * b <= 0
  {
  }

  lemma SpacingPays(capacity: nat, ms: int)
    requires capacity > 0 && ms * capacity >= 60_000
    ensures ms >= 0 && Refill(capacity, ms) >= 1.0
  {
    var m, c := ms as real, capacity as real;
    assert (ms * capacity) as real == m * c;
    assert m * (c / 60_000.0) == m * c / 60_000.0;
    assert ms >= 0 by { NegativeTimes(ms, capacity); }
  }

  /** A caller who keeps the distance is never refused. */
  lemma {:induction false} SpacedCallsNeverRefused(b: Bucket, capacity: nat, times: seq<int>)
    requires capacity > 0 && Valid(b, capacity) && Spaced(capacity, times)
    requires times != [] ==> Allowed(b, capacity, times[0])
    ensures forall i :: 0 <= i < |times| ==> Decisions(b, capacity, times)[i]
    decreases |times|
  {
    if times != [] {
      var next := After(b, capacity, times[0]);
      AfterIsValid(b, capacity, times[0]);
      if |times| > 1 {
        assert (times[0 + 1] - times[0]) * capacity >= 60_000;
        SpacingPays(capacity, times[1] - times[0]);
        assert Allowed(next, capacity, times[1]);
      }
      assert Spaced(capacity, times[1..]) by {
        forall i | 0 <= i < |times[1..]| - 1 ensures (times[1..][i + 1] - times[1..][i]) * capacity >= 60_000 {
          assert (times[(i + 1) + 1] - times[i + 1]) * capacity >= 60_000;
        }
      }
      SpacedCallsNeverRefused(next, capacity, times[1..]);
    }
  }

  // ---- idle expiry --------------------------------------------------------------------------------

  /** After two idle minutes the bucket is full again, so a deleted key and a kept one behave alike. */
  lemma ExpiryInvisible(b: Bucket, capacity: nat, now: int)
    requires Valid(b, capacity) && b.Present? && now >= b.ts + TTL_MS
    ensures OnHand(b, capacity, now) == OnHand(Absent, capacity, now)
    ensures After(b, capacity, now) == After(Absent, capacity, now)
  {
    RefillLaws(capacity, 60_000, Elapsed(b.ts, now));
    assert Refill(capacity, 60_000) == capacity as real;
  }

  /** What is left of the key when a call arrives after the store's expiry ran. */
  function Expired(b: Bucket, now: int): Bucket {
    if b.Present? && now >= b.ts + TTL_MS then Absent else b
  }

  function DecisionsWithExpiry(b: Bucket, capacity: nat, times: seq<int>): (d: seq<bool>)
    ensures |d| == |times|
    decreases |times|
  {
    if times == [] then []
    else
      var live := Expired(b, times[0]);
      [Allowed(live, capacity, times[0])] + DecisionsWithExpiry(After(live, capacity, times[0]), capacity, times[1..])
  }

  /** Deleting idle keys never changes a decision, on any run. */
  lemma {:induction false} ExpiryNeverChangesDecisions(b: Bucket, capacity: nat, times: seq<int>)
    requires Valid(b, capacity)
    ensures DecisionsWithExpiry(b, capacity, times) == Decisions(b, capacity, times)
    decreases |times|
  {
    if times != [] {
      var now := times[0];
      if b.Present? && now >= b.ts + TTL_MS {
        ExpiryInvisible(b, capacity, now);
      }
      AfterIsValid(b, capacity, now);
      ExpiryNeverChangesDecisions(After(b, capacity, now), capacity, times[1..]);
    }
  }
}
