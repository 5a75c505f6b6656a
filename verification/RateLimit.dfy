/** The fixed-window rate limiter: one expiring counter per API key and minute. Times are in milliseconds. */
module RateLimit {

  const MINUTE: int := 60_000

  datatype Tier = Basic | Standard | Premium | Enterprise

  function TierLimit(t: Tier): nat {
    match t
    case Basic => 60
    case Standard => 300
    case Premium => 1000
    case Enterprise => 5000
  }

  /** A positive custom limit counts only when it is lower than the tier's. */
  function EffectiveLimit(t: Tier, custom: int): (limit: nat)
    ensures limit == custom || limit == TierLimit(t)
    ensures 0 < limit <= TierLimit(t)
    ensures custom > 0 ==> limit <= custom
  {
    if 0 < custom < TierLimit(t) then custom else TierLimit(t)
  }

  datatype WindowKey = WindowKey(apiKey: nat, minute: int)

  datatype Counter = Counter(count: nat, expireAt: int)

  type Store = map<WindowKey, Counter>

  datatype Request = Request(apiKey: nat, time: int)

  function KeyOf(r: Request): WindowKey {
    WindowKey(r.apiKey, r.time / MINUTE)
  }

  /** What is left of the store when the clock reads `now`. */
  function Expired(store: Store, now: int): Store {
    map k | k in store && now < store[k].expireAt :: store[k]
  }

  /** INCR, with EXPIRE when the count is one. */
  function Counted(store: Store, r: Request): Store {
    var live := Expired(store, r.time);
    var k := KeyOf(r);
    var count := if k in live then live[k].count + 1 else 1;
    live[k := Counter(count, if count == 1 then r.time + MINUTE else live[k].expireAt)]
  }

  function Run(reqs: seq<Request>): Store {
    if reqs == [] then map[] else Counted(Run(reqs[..|reqs| - 1]), reqs[|reqs| - 1])
  }

  /** The decision on the i-th request of a timeline. */
  function Admitted(limits: nat -> nat, reqs: seq<Request>, i: nat): bool
    requires i < |reqs|
  {
    var store := Run(reqs[..i + 1]);
    var k := KeyOf(reqs[i]);
    k in store && store[k].count <= limits(reqs[i].apiKey)
  }

  /** How many requests of a timeline fall into one window. */
  function InWindow(reqs: seq<Request>, k: WindowKey): nat {
    if reqs == [] then 0
    else InWindow(reqs[..|reqs| - 1], k) + if KeyOf(reqs[|reqs| - 1]) == k then 1 else 0
  }

  ghost predicate Chronological(reqs: seq<Request>) {
    forall i, j :: 0 <= i < j < |reqs| ==> reqs[i].time <= reqs[j].time
  }

  // ---- Counters are exact while their minute runs ----

  /** The counter of a window: exact, or gone because its minute is over. */
  ghost predicate WindowExact(store: Store, reqs: seq<Request>, k: WindowKey) {
    && (k in store ==> store[k].count == InWindow(reqs, k) && store[k].expireAt >= (k.minute + 1) * MINUTE)
    && (k !in store && InWindow(reqs, k) > 0 ==> reqs != [] && reqs[|reqs| - 1].time >= (k.minute + 1) * MINUTE)
  }

  lemma CountedStep(store: Store, reqs: seq<Request>, r: Request, k: WindowKey)
    requires WindowExact(store, reqs, k)
    requires reqs != [] ==> reqs[|reqs| - 1].time <= r.time
    ensures WindowExact(Counted(store, r), reqs + [r], k)
  {
    assert (reqs + [r])[..|reqs|] == reqs;
    assert r.time / MINUTE * MINUTE <= r.time < (r.time / MINUTE + 1) * MINUTE;
  }

  lemma {:induction false} CountersExact(reqs: seq<Request>, k: WindowKey)
    requires Chronological(reqs)
    ensures WindowExact(Run(reqs), reqs, k)
  {
    if reqs == [] {
    } else {
      var n := |reqs| - 1;
      CountersExact(reqs[..n], k);
      CountedStep(Run(reqs[..n]), reqs[..n], reqs[n], k);
      assert reqs[..n] + [reqs[n]] == reqs;
    }
  }

  /** The time of the first request of a window. */
  ghost function FirstTime(reqs: seq<Request>, k: WindowKey): int
    requires InWindow(reqs, k) > 0
  {
    if InWindow(reqs[..|reqs| - 1], k) > 0 then FirstTime(reqs[..|reqs| - 1], k) else reqs[|reqs| - 1].time
  }

  /** A stored counter expires sixty seconds after its window's first request; one that is gone has done so. */
  ghost predicate ExpiryExact(store: Store, reqs: seq<Request>, k: WindowKey) {
    && (InWindow(reqs, k) == 0 ==> k !in store)
    && (InWindow(reqs, k) > 0 ==>
          && FirstTime(reqs, k) / MINUTE == k.minute
          && (k in store ==> store[k].expireAt == FirstTime(reqs, k) + MINUTE)
          && (k !in store ==> reqs != [] && FirstTime(reqs, k) + MINUTE <= reqs[|reqs| - 1].time))
  }

  lemma ExpiryStep(store: Store, reqs: seq<Request>, r: Request, k: WindowKey)
    requires WindowExact(store, reqs, k) && ExpiryExact(store, reqs, k)
    requires reqs != [] ==> reqs[|reqs| - 1].time <= r.time
    ensures ExpiryExact(Counted(store, r), reqs + [r], k)
  {
    assert (reqs + [r])[..|reqs|] == reqs;
    MinuteOf(r.time);
    if InWindow(reqs, k) > 0 {
      MinuteOf(FirstTime(reqs, k));
    }
  }

  lemma MinuteOf(t: int)
    ensures t / MINUTE * MINUTE <= t < (t / MINUTE + 1) * MINUTE
  {
  }

  lemma {:induction false} CountersExpire(reqs: seq<Request>, k: WindowKey)
    requires Chronological(reqs)
    ensures ExpiryExact(Run(reqs), reqs, k)
  {
    if reqs == [] {
    } else {
      var n := |reqs| - 1;
      CountersExpire(reqs[..n], k);
      CountersExact(reqs[..n], k);
      ExpiryStep(Run(reqs[..n]), reqs[..n], reqs[n], k);
      assert reqs[..n] + [reqs[n]] == reqs;
    }
  }

  /** A window's counter lives for exactly sixty seconds from its first request. */
  lemma CounterLivesAMinute(reqs: seq<Request>, k: WindowKey, now: int)
    requires Chronological(reqs) && InWindow(reqs, k) > 0
    requires reqs != [] && reqs[|reqs| - 1].time <= now
    ensures k in Expired(Run(reqs), now) <==> now < FirstTime(reqs, k) + MINUTE
  {
    CountersExpire(reqs, k);
  }

  /** The expiry never resets a counter whose minute is still running. */
  lemma RunningWindowNeverReset(reqs: seq<Request>, k: WindowKey, now: int)
    requires Chronological(reqs) && InWindow(reqs, k) > 0
    requires reqs != [] && reqs[|reqs| - 1].time <= now < (k.minute + 1) * MINUTE
    ensures k in Expired(Run(reqs), now) && Expired(Run(reqs), now)[k].count == InWindow(reqs, k)
  {
    CountersExact(reqs, k);
  }

  /** A request is admitted exactly when fewer than `limit` requests of its key and minute came before it. */
  lemma AdmittedByRank(limits: nat -> nat, reqs: seq<Request>, i: nat)
    requires Chronological(reqs) && i < |reqs|
    ensures Admitted(limits, reqs, i) <==> InWindow(reqs[..i], KeyOf(reqs[i])) < limits(reqs[i].apiKey)
  {
    var upto, k := reqs[..i + 1], KeyOf(reqs[i]);
    CountersExact(upto, k);
    assert upto[..i] == reqs[..i];
    assert reqs[i].time < (k.minute + 1) * MINUTE;
  }

  // ---- How many get through ----

  /** Admitted requests among the first n that satisfy a condition. */
  function CountAdmitted(limits: nat -> nat, reqs: seq<Request>, n: nat, wanted: Request -> bool): nat
    requires n <= |reqs|
  {
    if n == 0 then 0
    else
      CountAdmitted(limits, reqs, n - 1, wanted)
      + if Admitted(limits, reqs, n - 1) && wanted(reqs[n - 1]) then 1 else 0
  }

  function AtMost(n: nat, limit: nat): nat {
    if n <= limit then n else limit
  }

  /** Each minute of each key admits exactly the smaller of its requests and its limit. */
  lemma {:induction false} MinuteAdmitsExactly(limits: nat -> nat, reqs: seq<Request>, n: nat, k: WindowKey)
    requires Chronological(reqs) && n <= |reqs|
    ensures CountAdmitted(limits, reqs, n, (r: Request) => KeyOf(r) == k)
         == AtMost(InWindow(reqs[..n], k), limits(k.apiKey))
  {
    if n == 0 {
    } else {
      MinuteAdmitsExactly(limits, reqs, n - 1, k);
      AdmittedByRank(limits, reqs, n - 1);
      assert reqs[..n][..n - 1] == reqs[..n - 1];
    }
  }

  /** A key without a limit of its own gets 60, 300, 1000 or 5000 requests through in a minute, by its tier. */
  lemma TierMinute(tiers: nat -> Tier, reqs: seq<Request>, k: WindowKey)
    requires Chronological(reqs)
    ensures var allowed := match tiers(k.apiKey) case Basic => 60 case Standard => 300 case Premium => 1000 case Enterprise => 5000;
            CountAdmitted(apiKey => EffectiveLimit(tiers(apiKey), 0), reqs, |reqs|, (r: Request) => KeyOf(r) == k)
            == AtMost(InWindow(reqs, k), allowed)
  {
    MinuteAdmitsExactly(apiKey => EffectiveLimit(tiers(apiKey), 0), reqs, |reqs|, k);
    assert reqs[..|reqs|] == reqs;
  }

  lemma {:induction false} CountSplits(
    limits: nat -> nat, reqs: seq<Request>, n: nat, p: Request -> bool, q: Request -> bool, r: Request -> bool)
    requires n <= |reqs|
    requires forall x :: p(x) ==> q(x) || r(x)
    ensures CountAdmitted(limits, reqs, n, p)
         <= CountAdmitted(limits, reqs, n, q) + CountAdmitted(limits, reqs, n, r)
  {
    if n == 0 {
    } else {
      CountSplits(limits, reqs, n - 1, p, q, r);
    }
  }

  /** No 60-second span admits more than twice the limit of a key. */
  lemma SpanAdmitsAtMostTwice(limits: nat -> nat, reqs: seq<Request>, apiKey: nat, start: int)
    requires Chronological(reqs)
    ensures CountAdmitted(limits, reqs, |reqs|, (r: Request) => r.apiKey == apiKey && start <= r.time < start + MINUTE)
         <= 2 * limits(apiKey)
  {
    var first, second := WindowKey(apiKey, start / MINUTE), WindowKey(apiKey, start / MINUTE + 1);
    MinuteAdmitsExactly(limits, reqs, |reqs|, first);
    MinuteAdmitsExactly(limits, reqs, |reqs|, second);
    CountSplits(limits, reqs, |reqs|,
                (r: Request) => r.apiKey == apiKey && start <= r.time < start + MINUTE,
                (r: Request) => KeyOf(r) == first,
                (r: Request) => KeyOf(r) == second);
  }

  /** L requests in the last second of one minute, L in the first second of the next. */
  function Straddling(apiKey: nat, limit: nat): (reqs: seq<Request>)
    ensures |reqs| == 2 * limit
    ensures forall i :: 0 <= i < |reqs| ==> reqs[i] == Request(apiKey, if i < limit then 59_000 else 60_000)
  {
    seq(2 * limit, i requires 0 <= i < 2 * limit => Request(apiKey, if i < limit then 59_000 else 60_000))
  }

  lemma {:induction false} StraddlingWindows(apiKey: nat, limit: nat, n: nat)
    requires n <= 2 * limit
    ensures InWindow(Straddling(apiKey, limit)[..n], WindowKey(apiKey, 0)) == AtMost(n, limit)
    ensures InWindow(Straddling(apiKey, limit)[..n], WindowKey(apiKey, 1)) == n - AtMost(n, limit)
  {
    if n == 0 {
    } else {
      StraddlingWindows(apiKey, limit, n - 1);
      assert Straddling(apiKey, limit)[..n][..n - 1] == Straddling(apiKey, limit)[..n - 1];
    }
  }

  lemma StraddlingAllAdmitted(limits: nat -> nat, apiKey: nat, i: nat)
    requires i < 2 * limits(apiKey)
    ensures Admitted(limits, Straddling(apiKey, limits(apiKey)), i)
  {
    var limit := limits(apiKey);
    var reqs := Straddling(apiKey, limit);
    StraddlingWindows(apiKey, limit, i);
    AdmittedByRank(limits, reqs, i);
    assert KeyOf(reqs[i]) == WindowKey(apiKey, if i < limit then 0 else 1);
  }

  lemma {:induction false} CountsAll(limits: nat -> nat, reqs: seq<Request>, n: nat, wanted: Request -> bool)
    requires n <= |reqs|
    requires forall i :: 0 <= i < n ==> Admitted(limits, reqs, i) && wanted(reqs[i])
    ensures CountAdmitted(limits, reqs, n, wanted) == n
  {
    if n == 0 {
    } else {
      CountsAll(limits, reqs, n - 1, wanted);
    }
  }

  /** The bound of twice the limit is reached, for every limit. */
  lemma SpanBoundIsTight(limits: nat -> nat, apiKey: nat)
    ensures var reqs := Straddling(apiKey, limits(apiKey));
            && Chronological(reqs)
            && CountAdmitted(limits, reqs, |reqs|,
                             (r: Request) => r.apiKey == apiKey && 59_000 <= r.time < 59_000 + MINUTE)
               == 2 * limits(apiKey)
  {
    var reqs := Straddling(apiKey, limits(apiKey));
    forall i | 0 <= i < |reqs|
      ensures Admitted(limits, reqs, i)
    {
      StraddlingAllAdmitted(limits, apiKey, i);
    }
    CountsAll(limits, reqs, |reqs|, (r: Request) => r.apiKey == apiKey && 59_000 <= r.time < 59_000 + MINUTE);
  }

  /** The counter after one more request is the number of requests of its key and minute. */
  lemma OneMoreCounted(reqs: seq<Request>, r: Request)
    requires Chronological(reqs) && forall x :: x in reqs ==> x.time <= r.time
    ensures Chronological(reqs + [r]) && Run(reqs + [r]) == Counted(Run(reqs), r)
    ensures Counted(Run(reqs), r)[KeyOf(r)].count == InWindow(reqs, KeyOf(r)) + 1
  {
    assert (reqs + [r])[..|reqs|] == reqs;
    CountersExact(reqs + [r], KeyOf(r));
  }

  // ---- The middleware ----

  datatype Answer = RateLimited | Allowed(limit: nat, remaining: nat, reset: int)

  /** The start of the minute after this one. */
  function NextMinute(now: int): (reset: int)
    ensures now < reset <= now + MINUTE && reset % MINUTE == 0
  {
    assert now / MINUTE * MINUTE <= now < now / MINUTE * MINUTE + MINUTE;
    (now / MINUTE + 1) * MINUTE
  }

  class RateLimiter {
    var store: Store
    ghost var history: seq<Request>

    /** The counters are those of the requests handled so far, in the order of the clock. */
    ghost predicate Valid()
      reads this
    {
      store == Run(history) && Chronological(history)
    }

    constructor ()
      ensures Valid() && history == []
    {
      store, history := map[], [];
    }

    /** One request: count it, then admit it unless the count has passed the limit. */
    method Handle(apiKey: nat, tier: Tier, custom: int, now: int) returns (answer: Answer)
      requires Valid() && forall r :: r in history ==> r.time <= now
      modifies this
      ensures Valid() && history == old(history) + [Request(apiKey, now)]
      ensures var limit, before := EffectiveLimit(tier, custom), InWindow(old(history), WindowKey(apiKey, now / MINUTE));
              && (answer.Allowed? <==> before < limit)
              && (answer.Allowed? ==> answer.limit == limit && answer.remaining == limit - before - 1
                                      && now < answer.reset <= now + MINUTE && answer.reset % MINUTE == 0)
    {
      var limit := EffectiveLimit(tier, custom);
      OneMoreCounted(history, Request(apiKey, now));
      var count := Increment(apiKey, now);
      history := history + [Request(apiKey, now)];
      if count > limit {
        return RateLimited;
      }
      answer := Allowed(limit, limit - count, NextMinute(now));
    }

    /** The INCR, and the EXPIRE when it returns one. */
    method Increment(apiKey: nat, now: int) returns (count: nat)
      modifies this`store
      ensures store == Counted(old(store), Request(apiKey, now))
      ensures count == store[WindowKey(apiKey, now / MINUTE)].count
    {
      var key := WindowKey(apiKey, now / MINUTE);
      store := Expired(store, now);
      count := (if key in store then store[key].count else 0) + 1;
      store := store[key := Counter(count, if count == 1 then now + MINUTE else store[key].expireAt)];
    }
  }
}
