/** The daily budget guard: checked before a request runs, charged after it. */
module Budget {

  const DAY_S := 86_400
  const TTL_S := 172_800

  datatype Key = Key(user: string, day: int)
  datatype Entry = Entry(amount: real, expiresAt: int)
  type Store = map<Key, Entry>

  function Day(now: int): int { now / DAY_S }

  function Max(a: real, b: real): real { if a < b then b else a }

  /** The counter of a key, 0 when the store has none. */
  function Spent(store: Store, key: Key): real { if key in store then store[key].amount else 0.0 }

  function Exceeds(store: Store, cap: real, user: string, estimate: real, now: int): bool {
    Spent(store, Key(user, Day(now))) + Max(0.0, estimate) > cap
  }

  function Charged(store: Store, user: string, cost: real, now: int): Store {
    if cost <= 0.0 then store
    else
      var key := Key(user, Day(now));
      store[key := Entry(Spent(store, key) + cost, now + TTL_S)]
  }

  class RedisBudgetGuard {
    const dailyCapUnits: real
    var store: Store

    constructor (cap: real)
      ensures dailyCapUnits == cap && store == map[]
    {
      dailyCapUnits := cap;
      store := map[];
    }

    method WouldExceed(user: string, estimatedCost: real, now: int) returns (exceeds: bool)
      ensures exceeds == Exceeds(store, dailyCapUnits, user, estimatedCost, now)
    {
      var key := Key(user, Day(now));
      var spent := 0.0;
      if key in store {
        spent := store[key].amount;
      }
      var estimate := estimatedCost;
      if estimate < 0.0 {
        estimate := 0.0;
      }
      exceeds := spent + estimate > dailyCapUnits;
    }

    method Record(user: string, actualCost: real, now: int)
      modifies this`store
      ensures store == Charged(old(store), user, actualCost, now)
      ensures Spent(store, Key(user, Day(now))) == Spent(old(store), Key(user, Day(now))) + Max(0.0, actualCost)
      ensures forall k :: k != Key(user, Day(now)) ==> Spent(store, k) == Spent(old(store), k)
    {
      if actualCost <= 0.0 {
        return;
      }
      var key := Key(user, Day(now));
      var amount := if key in store then store[key].amount else 0.0;
      store := store[key := Entry(amount + actualCost, now + TTL_S)];
    }
  }

  // ---- requests in flight ------------------------------------------------------------------------

  /** `inFlight` lists the users whose requests passed the check and are not finished. */
  datatype State = State(clock: int, store: Store, inFlight: seq<string>)

  /** Admit: the check passes. Drop: a cache hit or a failed downstream call, nothing is recorded.
      Finish: the answer arrived and its cost is recorded. Expire: the store deletes an idle key. */
  datatype Event =
    | Admit(user: string, estimate: real)
    | Drop(index: nat)
    | Finish(index: nat, cost: real)
    | Tick(seconds: nat)
    | Expire(key: Key)

  /** The daily cap, the most requests one user has in flight, the most one request costs. */
  datatype Limits = Limits(cap: real, concurrent: nat, maxCost: real)

  function InFlight(users: seq<string>, user: string): nat {
    if users == [] then 0 else (if users[0] == user then 1 else 0) + InFlight(users[1..], user)
  }

  function RemoveAt(users: seq<string>, i: nat): seq<string>
    requires i < |users|
  {
    users[..i] + users[i + 1..]
  }

  predicate Enabled(p: Limits, s: State, e: Event) {
    match e
    case Admit(user, estimate) =>
      !Exceeds(s.store, p.cap, user, estimate, s.clock) && InFlight(s.inFlight, user) < p.concurrent
    case Drop(i) => i < |s.inFlight|
    case Finish(i, cost) => i < |s.inFlight| && cost <= p.maxCost
    case Tick(_) => true
    case Expire(key) => key in s.store && s.clock >= s.store[key].expiresAt
  }

  function Next(p: Limits, s: State, e: Event): State
    requires Enabled(p, s, e)
  {
    match e
    case Admit(user, _) => s.(inFlight := s.inFlight + [user])
    case Drop(i) => s.(inFlight := RemoveAt(s.inFlight, i))
    case Finish(i, cost) =>
      s.(store := Charged(s.store, s.inFlight[i], cost, s.clock), inFlight := RemoveAt(s.inFlight, i))
    case Tick(seconds) => s.(clock := s.clock + seconds)
    case Expire(key) => s.(store := s.store - {key})
  }

  predicate Possible(p: Limits, s: State, events: seq<Event>)
    decreases |events|
  {
    events != [] ==> Enabled(p, s, events[0]) && Possible(p, Next(p, s, events[0]), events[1..])
  }

  function Run(p: Limits, s: State, events: seq<Event>): State
    requires Possible(p, s, events)
    decreases |events|
  {
    if events == [] then s else Run(p, Next(p, s, events[0]), events[1..])
  }

  function Start(clock: int): State { State(clock, map[], []) }

  /** n requests at `cost` each. */
  function Times(n: nat, cost: real): real { if n == 0 then 0.0 else cost + Times(n - 1, cost) }

  lemma {:induction false} TimesMonotone(m: nat, n: nat, cost: real)
    requires m <= n && 0.0 <= cost
    ensures 0.0 <= Times(m, cost) <= Times(n, cost)
    decreases n
  {
    if n > 0 { TimesMonotone(if m == n then m - 1 else m, n - 1, cost); }
  }

  lemma Distribute(a: real, cost: real)
    ensures (a + 1.0) * cost == cost + a * cost
  {
  }

  lemma {:induction false} TimesIsProduct(n: nat, cost: real)
    ensures Times(n, cost) == n as real * cost
  {
    if n > 0 {
      TimesIsProduct(n - 1, cost);
      Distribute((n - 1) as real, cost);
    }
  }

  lemma {:induction false} InFlightAppend(users: seq<string>, user: string, who: string)
    ensures InFlight(users + [user], who) == InFlight(users, who) + (if user == who then 1 else 0)
  {
    if users == [] {
      assert [user][1..] == [];
      assert users + [user] == [user];
    } else {
      assert (users + [user])[1..] == users[1..] + [user];
      InFlightAppend(users[1..], user, who);
    }
  }

  lemma {:induction false} InFlightRemove(users: seq<string>, i: nat, who: string)
    requires i < |users|
    ensures InFlight(users, who) == InFlight(RemoveAt(users, i), who) + (if users[i] == who then 1 else 0)
  {
    if i == 0 {
      assert RemoveAt(users, 0) == users[1..];
    } else {
      assert RemoveAt(users, i)[1..] == RemoveAt(users[1..], i - 1);
      InFlightRemove(users[1..], i - 1, who);
    }
  }

  /** The most a counter can reach. */
  function Ceiling(p: Limits): real { Max(0.0, p.cap) + Times(p.concurrent, p.maxCost) }

  ghost predicate Bounded(p: Limits, s: State, user: string) {
    && InFlight(s.inFlight, user) <= p.concurrent
    && 0.0 <= Spent(s.store, Key(user, Day(s.clock)))
    && Spent(s.store, Key(user, Day(s.clock))) + Times(InFlight(s.inFlight, user), p.maxCost) <= Ceiling(p)
    && (forall d :: Day(s.clock) < d ==> Key(user, d) !in s.store)
    && (forall d :: Spent(s.store, Key(user, d)) <= Ceiling(p))
  }

  lemma DayMonotone(now: int, seconds: nat)
    ensures Day(now) <= Day(now + seconds)
  {
  }

  lemma StepKeepsBound(p: Limits, s: State, e: Event, user: string)
    requires 0.0 <= p.maxCost && Enabled(p, s, e) && Bounded(p, s, user)
    ensures Bounded(p, Next(p, s, e), user)
  {
    TimesMonotone(InFlight(s.inFlight, user), p.concurrent, p.maxCost);
    match e
    case Admit(who, _) =>
      InFlightAppend(s.inFlight, who, user);
      if who == user { TimesMonotone(InFlight(s.inFlight, user) + 1, p.concurrent, p.maxCost); }
    case Drop(i) =>
      InFlightRemove(s.inFlight, i, user);
    case Finish(i, _) =>
      InFlightRemove(s.inFlight, i, user);
      TimesMonotone(0, InFlight(RemoveAt(s.inFlight, i), user), p.maxCost);
    case Tick(seconds) =>
      DayMonotone(s.clock, seconds);
    case Expire(_) =>
  }

  lemma {:induction false} RunKeepsBound(p: Limits, s: State, events: seq<Event>, user: string)
    requires 0.0 <= p.maxCost && Possible(p, s, events) && Bounded(p, s, user)
    ensures Bounded(p, Run(p, s, events), user)
    decreases |events|
  {
    if events != [] {
      StepKeepsBound(p, s, events[0], user);
      RunKeepsBound(p, Next(p, s, events[0]), events[1..], user);
    }
  }

  lemma InProducts(p: Limits, spent: real, n: nat)
    requires spent + Times(n, p.maxCost) <= Ceiling(p)
    ensures spent + n as real * p.maxCost <= Max(0.0, p.cap) + p.concurrent as real * p.maxCost
    ensures n == 0 ==> spent <= Max(0.0, p.cap) + p.concurrent as real * p.maxCost
  {
    TimesIsProduct(n, p.maxCost);
    TimesIsProduct(p.concurrent, p.maxCost);
  }

  lemma SpendStaysUnderCeiling(p: Limits, clock: int, events: seq<Event>, user: string, day: int)
    requires 0.0 <= p.maxCost && Possible(p, Start(clock), events)
    ensures var s := Run(p, Start(clock), events);
            && Spent(s.store, Key(user, Day(s.clock))) + Times(InFlight(s.inFlight, user), p.maxCost) <= Ceiling(p)
            && Spent(s.store, Key(user, day)) + Times(0, p.maxCost) <= Ceiling(p)
  {
    TimesMonotone(0, p.concurrent, p.maxCost);
    RunKeepsBound(p, Start(clock), events, user);
  }

  /** On every run: today's spend plus the worst case of the user's requests in flight stays within
      cap + c * M, and so does the spend of every day. */
  lemma SpendIsBounded(p: Limits, clock: int, events: seq<Event>, user: string, day: int)
    requires 0.0 <= p.maxCost && Possible(p, Start(clock), events)
    ensures var s := Run(p, Start(clock), events);
            var ceiling := Max(0.0, p.cap) + p.concurrent as real * p.maxCost;
            && Spent(s.store, Key(user, Day(s.clock))) + InFlight(s.inFlight, user) as real * p.maxCost <= ceiling
            && Spent(s.store, Key(user, day)) <= ceiling
  {
    SpendStaysUnderCeiling(p, clock, events, user, day);
    var s := Run(p, Start(clock), events);
    InProducts(p, Spent(s.store, Key(user, Day(s.clock))), InFlight(s.inFlight, user));
    InProducts(p, Spent(s.store, Key(user, day)), 0);
  }

  /** The stronger reading, that the spend of any day plus the requests in flight stays within the
      bound, fails once the day is over: yesterday's two units and today's request exceed 1 + 1 * 1. */
  lemma PastDayPlusInFlightExceeds()
    ensures var p := Limits(1.0, 1, 1.0);
            var events := [Admit("u", 0.0), Finish(0, 1.0), Admit("u", 0.0), Finish(0, 1.0),
                           Tick(DAY_S), Admit("u", 0.0)];
            && Possible(p, Start(0), events)
            && var s := Run(p, Start(0), events);
               Spent(s.store, Key("u", 0)) + InFlight(s.inFlight, "u") as real * p.maxCost
               > p.cap + p.concurrent as real * p.maxCost
  {
    var p := Limits(1.0, 1, 1.0);
    var k := Key("u", 0);
    var s1 := State(0, map[], ["u"]);
    var s2 := State(0, map[k := Entry(1.0, TTL_S)], []);
    var s3 := s2.(inFlight := ["u"]);
    var s4 := State(0, map[k := Entry(2.0, TTL_S)], []);
    var s5 := s4.(clock := DAY_S);
    var s6 := s5.(inFlight := ["u"]);
    assert ["u"][1..] == [];
    assert InFlight([], "u") == 0 && InFlight(["u"], "u") == 1;
    assert RemoveAt(["u"], 0) == [];
    var e6 := [Admit("u", 0.0)];
    var e5 := [Tick(DAY_S)] + e6;
    var e4 := [Finish(0, 1.0)] + e5;
    var e3 := [Admit("u", 0.0)] + e4;
    var e2 := [Finish(0, 1.0)] + e3;
    Cons(p, s5, e6[0], s6, []);
    assert e6 == [e6[0]] + [];
    Cons(p, s4, Tick(DAY_S), s5, e6);
    Cons(p, s3, Finish(0, 1.0), s4, e5);
    Cons(p, s2, Admit("u", 0.0), s3, e4);
    Cons(p, s1, Finish(0, 1.0), s2, e3);
    Cons(p, Start(0), Admit("u", 0.0), s1, e2);
    assert [Admit("u", 0.0)] + e2
        == [Admit("u", 0.0), Finish(0, 1.0), Admit("u", 0.0), Finish(0, 1.0), Tick(DAY_S), Admit("u", 0.0)];
  }

  lemma Cons(p: Limits, s: State, e: Event, next: State, rest: seq<Event>)
    requires Enabled(p, s, e) && Next(p, s, e) == next && Possible(p, next, rest)
    ensures Possible(p, s, [e] + rest) && Run(p, s, [e] + rest) == Run(p, next, rest)
  {
    assert ([e] + rest)[1..] == rest;
  }

  lemma {:induction false} RunOn(p: Limits, s: State, first: seq<Event>, later: seq<Event>)
    requires Possible(p, s, first) && Possible(p, Run(p, s, first), later)
    ensures Possible(p, s, first + later) && Run(p, s, first + later) == Run(p, Run(p, s, first), later)
    decreases |first|
  {
    if first == [] {
      assert first + later == later;
    } else {
      assert (first + later)[1..] == first[1..] + later;
      assert (first + later)[0] == first[0];
      RunOn(p, Next(p, s, first[0]), first[1..], later);
    }
  }

  // ---- when the stronger reading holds ------------------------------------------------------------

  /** The spend of any day plus the requests in flight stays within the bound. */
  ghost predicate SumWithin(p: Limits, s: State) {
    forall user, day :: Spent(s.store, Key(user, day)) + InFlight(s.inFlight, user) as real * p.maxCost
                     <= Max(0.0, p.cap) + p.concurrent as real * p.maxCost
  }

  ghost predicate SumAlwaysWithin(p: Limits) {
    forall clock, events :: Possible(p, Start(clock), events) ==> SumWithin(p, Run(p, Start(clock), events))
  }

  /** n repetitions of a positive cost pass any cap. */
  lemma EnoughRequests(cap: real, cost: real) returns (n: nat)
    requires 0.0 < cost && 0.0 <= cap
    ensures Times(n, cost) > cap
  {
    var q := cap / cost;
    n := q.Floor + 1;
    TimesIsProduct(n, cost);
    Quotients(cap, cost, n as real);
  }

  lemma Quotients(cap: real, cost: real, n: real)
    requires 0.0 < cost && cap / cost < n
    ensures cap < n * cost
  {
    var q := cap / cost;
    assert q * cost == cap;
    assert (n - q) * cost > 0.0;
  }

  /** One user, one request after the other, each at the full cost, until the cap is passed. */
  lemma {:induction false} Overspend(p: Limits, s: State, user: string, n: nat) returns (events: seq<Event>)
    requires 1 <= p.concurrent && 0.0 < p.maxCost && s.inFlight == []
    requires Spent(s.store, Key(user, Day(s.clock))) + Times(n, p.maxCost) > p.cap
    ensures Possible(p, s, events)
    ensures var t := Run(p, s, events);
            t.clock == s.clock && t.inFlight == [] && Spent(t.store, Key(user, Day(s.clock))) > p.cap
    ensures forall d :: d > Day(s.clock) && Key(user, d) !in s.store ==> Key(user, d) !in Run(p, s, events).store
    decreases n
  {
    var key := Key(user, Day(s.clock));
    if Spent(s.store, key) > p.cap {
      events := [];
    } else {
      var admitted := s.(inFlight := [user]);
      var charged := s.(store := Charged(s.store, user, p.maxCost, s.clock));
      assert [user][1..] == [] && RemoveAt([user], 0) == [];
      assert Next(p, s, Admit(user, 0.0)) == admitted;
      var rest := Overspend(p, charged, user, n - 1);
      Cons(p, admitted, Finish(0, p.maxCost), charged, rest);
      Cons(p, s, Admit(user, 0.0), admitted, [Finish(0, p.maxCost)] + rest);
      events := [Admit(user, 0.0)] + ([Finish(0, p.maxCost)] + rest);
    }
  }

  /** On a fresh day n requests can be admitted at once. */
  lemma {:induction false} AdmitMany(p: Limits, s: State, user: string, n: nat) returns (events: seq<Event>)
    requires 0.0 <= p.cap && Key(user, Day(s.clock)) !in s.store && InFlight(s.inFlight, user) + n <= p.concurrent
    ensures Possible(p, s, events)
    ensures var t := Run(p, s, events);
            t.store == s.store && InFlight(t.inFlight, user) == InFlight(s.inFlight, user) + n
    decreases n
  {
    if n == 0 {
      events := [];
    } else {
      var next := s.(inFlight := s.inFlight + [user]);
      InFlightAppend(s.inFlight, user, user);
      var rest := AdmitMany(p, next, user, n - 1);
      Cons(p, s, Admit(user, 0.0), next, rest);
      events := [Admit(user, 0.0)] + rest;
    }
  }

  lemma BreaksNextDay(p: Limits) returns (events: seq<Event>)
    requires 0.0 <= p.cap && 1 <= p.concurrent && 0.0 < p.maxCost
    ensures Possible(p, Start(0), events)
    ensures var t := Run(p, Start(0), events);
            Spent(t.store, Key("u", 0)) > p.cap && InFlight(t.inFlight, "u") == p.concurrent
  {
    var n := EnoughRequests(p.cap, p.maxCost);
    var spend := Overspend(p, Start(0), "u", n);
    var s := Run(p, Start(0), spend);
    var tomorrow := s.(clock := DAY_S);
    assert Day(DAY_S) == 1;
    var admit := AdmitMany(p, tomorrow, "u", p.concurrent);
    Cons(p, s, Tick(DAY_S), tomorrow, admit);
    RunOn(p, Start(0), spend, [Tick(DAY_S)] + admit);
    events := spend + ([Tick(DAY_S)] + admit);
  }

  lemma StepAdmitsNothing(p: Limits, s: State, e: Event)
    requires p.cap < 0.0 && Enabled(p, s, e) && s.inFlight == [] && s.store == map[]
    ensures Next(p, s, e).inFlight == [] && Next(p, s, e).store == map[]
  {
  }

  lemma {:induction false} NothingAdmitted(p: Limits, s: State, events: seq<Event>)
    requires p.cap < 0.0 && Possible(p, s, events) && s.inFlight == [] && s.store == map[]
    ensures Run(p, s, events).inFlight == [] && Run(p, s, events).store == map[]
    decreases |events|
  {
    if events != [] {
      StepAdmitsNothing(p, s, events[0]);
      NothingAdmitted(p, Next(p, s, events[0]), events[1..]);
    }
  }

  lemma NoFlightCost(p: Limits, n: nat)
    requires 0.0 <= p.maxCost && n <= p.concurrent && (p.concurrent == 0 || p.maxCost == 0.0)
    ensures n as real * p.maxCost == 0.0
  {
    if p.concurrent == 0 { assert n == 0; }
  }

  lemma SumHolds(p: Limits, clock: int, events: seq<Event>, user: string, day: int)
    requires 0.0 <= p.maxCost && (p.concurrent == 0 || p.maxCost == 0.0 || p.cap < 0.0)
    requires Possible(p, Start(clock), events)
    ensures var s := Run(p, Start(clock), events);
            Spent(s.store, Key(user, day)) + InFlight(s.inFlight, user) as real * p.maxCost
            <= Max(0.0, p.cap) + p.concurrent as real * p.maxCost
  {
    SpendIsBounded(p, clock, events, user, day);
    TimesMonotone(0, p.concurrent, p.maxCost);
    RunKeepsBound(p, Start(clock), events, user);
    if p.cap < 0.0 {
      NothingAdmitted(p, Start(clock), events);
    } else {
      NoFlightCost(p, InFlight(Run(p, Start(clock), events).inFlight, user));
    }
  }

  /** The stronger reading holds on every run exactly when nothing can be in flight, requests cost nothing,
      or the cap admits nothing at all. */
  lemma SumBoundExactly(p: Limits)
    requires 0.0 <= p.maxCost
    ensures SumAlwaysWithin(p) <==> p.concurrent == 0 || p.maxCost == 0.0 || p.cap < 0.0
  {
    if p.concurrent == 0 || p.maxCost == 0.0 || p.cap < 0.0 {
      forall clock, events | Possible(p, Start(clock), events) ensures SumWithin(p, Run(p, Start(clock), events)) {
        forall user, day
          ensures Spent(Run(p, Start(clock), events).store, Key(user, day))
                  + InFlight(Run(p, Start(clock), events).inFlight, user) as real * p.maxCost
               <= Max(0.0, p.cap) + p.concurrent as real * p.maxCost
        {
          SumHolds(p, clock, events, user, day);
        }
      }
    } else {
      var events := BreaksNextDay(p);
      var t := Run(p, Start(0), events);
      assert Spent(t.store, Key("u", 0)) + InFlight(t.inFlight, "u") as real * p.maxCost
           > Max(0.0, p.cap) + p.concurrent as real * p.maxCost;
      assert !SumWithin(p, t);
    }
  }

  // ---- what the counters hold ---------------------------------------------------------------------

  /** Every key outlives the day it counts, so the store never deletes a key still in use. */
  ghost predicate Fresh(s: State) {
    forall k :: k in s.store ==> k.day * DAY_S + TTL_S <= s.store[k].expiresAt && k.day <= Day(s.clock)
  }

  lemma StepKeepsFresh(p: Limits, s: State, e: Event)
    requires Enabled(p, s, e) && Fresh(s)
    ensures Fresh(Next(p, s, e))
    ensures e.Expire? ==> e.key.day < Day(s.clock)
  {
    assert Day(s.clock) * DAY_S <= s.clock < (Day(s.clock) + 1) * DAY_S;
    if e.Tick? { DayMonotone(s.clock, e.seconds); }
  }

  /** The positive costs the run records for a key. */
  function RecordedFor(p: Limits, s: State, events: seq<Event>, key: Key): real
    requires Possible(p, s, events)
    decreases |events|
  {
    if events == [] then 0.0
    else
      var e := events[0];
      (if e.Finish? && Key(s.inFlight[e.index], Day(s.clock)) == key then Max(0.0, e.cost) else 0.0)
      + RecordedFor(p, Next(p, s, e), events[1..], key)
  }

  /** A key whose day is over never changes again, except that the store may delete it. */
  lemma {:induction false} PastDaysAreFrozen(p: Limits, s: State, events: seq<Event>, key: Key)
    requires Possible(p, s, events) && key.day < Day(s.clock)
    ensures RecordedFor(p, s, events, key) == 0.0
    ensures key in Run(p, s, events).store ==> key in s.store && Run(p, s, events).store[key] == s.store[key]
    decreases |events|
  {
    if events != [] {
      if events[0].Tick? { DayMonotone(s.clock, events[0].seconds); }
      PastDaysAreFrozen(p, Next(p, s, events[0]), events[1..], key);
    }
  }

  lemma {:induction false} SpentGrowsByRecorded(p: Limits, s: State, events: seq<Event>, key: Key)
    requires Possible(p, s, events) && Fresh(s)
    ensures var t := Run(p, s, events);
            key in t.store || key.day >= Day(t.clock)
            ==> Spent(t.store, key) == Spent(s.store, key) + RecordedFor(p, s, events, key)
    ensures Day(s.clock) <= Day(Run(p, s, events).clock)
    decreases |events|
  {
    if events != [] {
      var next := Next(p, s, events[0]);
      StepKeepsFresh(p, s, events[0]);
      if events[0].Tick? { DayMonotone(s.clock, events[0].seconds); }
      SpentGrowsByRecorded(p, next, events[1..], key);
      if events[0] == Expire(key) {
        PastDaysAreFrozen(p, next, events[1..], key);
      }
    }
  }

  /** On every run the counter of today, and every counter the store still holds, is exactly the sum
      of the positive costs recorded under it. */
  lemma SpendIsSumOfCosts(p: Limits, clock: int, events: seq<Event>, key: Key)
    requires Possible(p, Start(clock), events)
    requires key in Run(p, Start(clock), events).store || key.day >= Day(Run(p, Start(clock), events).clock)
    ensures Spent(Run(p, Start(clock), events).store, key) == RecordedFor(p, Start(clock), events, key)
  {
    SpentGrowsByRecorded(p, Start(clock), events, key);
  }
}
