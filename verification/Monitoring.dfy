/** Request metrics: a sliding window of response times per endpoint, its average and percentile ranks. */
module Monitoring {
  import opened Prelude

  const WINDOW: nat := 1000

  datatype Metrics = Metrics(
    requestCounts: map<string, nat>,
    responseTimes: map<string, seq<real>>,
    avgResponseTimes: map<string, real>,
    p95ResponseTimes: map<string, real>,
    p99ResponseTimes: map<string, real>)

  // ---- Sorting ----

  ghost predicate Ascending(s: seq<real>) {
    forall i, j :: 0 <= i < j < |s| ==> s[i] <= s[j]
  }

  function Placed(s: seq<real>, x: real): seq<real> {
    if s == [] || x < s[0] then [x] + s else [s[0]] + Placed(s[1..], x)
  }

  function SortedTimes(s: seq<real>): (r: seq<real>)
    ensures |r| == |s|
  {
    if s == [] then [] else PlacedLength(SortedTimes(s[..|s| - 1]), s[|s| - 1]); Placed(SortedTimes(s[..|s| - 1]), s[|s| - 1])
  }

  lemma {:induction false} PlacedLength(s: seq<real>, x: real)
    ensures |Placed(s, x)| == |s| + 1
  {
    if s != [] && !(x < s[0]) {
      PlacedLength(s[1..], x);
    }
  }

  lemma {:induction false} PlacedSameTimes(s: seq<real>, x: real)
    ensures multiset(Placed(s, x)) == multiset(s) + multiset{x}
  {
    if s != [] && !(x < s[0]) {
      PlacedSameTimes(s[1..], x);
      assert s == [s[0]] + s[1..];
    }
  }

  lemma {:induction false} PlacedAscending(s: seq<real>, x: real)
    requires Ascending(s)
    ensures Ascending(Placed(s, x))
    ensures forall y :: y in Placed(s, x) ==> y in s || y == x
  {
    if s != [] && !(x < s[0]) {
      PlacedAscending(s[1..], x);
      var rest := Placed(s[1..], x);
      forall j | 0 <= j < |rest|
        ensures s[0] <= rest[j]
      {
        assert rest[j] in rest;
      }
    }
  }

  lemma {:induction false} SortIsCorrect(s: seq<real>)
    ensures Ascending(SortedTimes(s)) && multiset(SortedTimes(s)) == multiset(s)
  {
    if s == [] {
    } else {
      SortIsCorrect(s[..|s| - 1]);
      PlacedAscending(SortedTimes(s[..|s| - 1]), s[|s| - 1]);
      PlacedSameTimes(SortedTimes(s[..|s| - 1]), s[|s| - 1]);
      assert s == s[..|s| - 1] + [s[|s| - 1]];
    }
  }

  // ---- Statistics ----

  /** `(len as f64 * pct) as usize`, kept below the length. */
  function PercentileIndex(length: nat, percent: nat): (i: nat)
    requires length > 0 && percent <= 100
    ensures i < length
    ensures i <= length * percent / 100
    ensures i < length - 1 ==> i == length * percent / 100
  {
    var raw := length * percent / 100;
    if raw < length then raw else length - 1
  }

  function Percentile(times: seq<real>, percent: nat): real
    requires times != [] && percent <= 100
  {
    SortedTimes(times)[PercentileIndex(|times|, percent)]
  }

  function Average(times: seq<real>): real
    requires times != []
  {
    Sum(SortedTimes(times)) / |times| as real
  }

  /** The last thousand samples. */
  function Window(samples: seq<real>): seq<real> {
    if |samples| > WINDOW then samples[|samples| - WINDOW..] else samples
  }

  function TimesOf(m: Metrics, endpoint: string): seq<real> {
    if endpoint in m.responseTimes then m.responseTimes[endpoint] else []
  }

  function CountOf(m: Metrics, endpoint: string): nat {
    if endpoint in m.requestCounts then m.requestCounts[endpoint] else 0
  }

  /** One more request counted and its time pushed into the window. */
  function Pushed(m: Metrics, endpoint: string, time: real): Metrics {
    m.(requestCounts := m.requestCounts[endpoint := CountOf(m, endpoint) + 1],
       responseTimes := m.responseTimes[endpoint := Window(TimesOf(m, endpoint) + [time])])
  }

  /** `calculate_percentiles` */
  function Calculated(m: Metrics, endpoint: string): Metrics {
    var times := TimesOf(m, endpoint);
    if times == [] then m
    else
      m.(avgResponseTimes := m.avgResponseTimes[endpoint := Average(times)],
         p95ResponseTimes := m.p95ResponseTimes[endpoint := Percentile(times, 95)],
         p99ResponseTimes := m.p99ResponseTimes[endpoint := Percentile(times, 99)])
  }

  function Recorded(m: Metrics, endpoint: string, time: real): Metrics {
    Calculated(Pushed(m, endpoint, time), endpoint)
  }

  // ---- What the numbers mean ----

  /** Averaging the sorted copy is averaging the window. */
  lemma AverageIsMean(times: seq<real>)
    requires times != []
    ensures Average(times) == Sum(times) / |times| as real
  {
    SortIsCorrect(times);
    SumIgnoresOrder(SortedTimes(times), times);
  }

  /** The average lies between the window's least and greatest sample. */
  lemma AverageBetween(times: seq<real>, lo: real, hi: real)
    requires times != [] && forall i :: 0 <= i < |times| ==> lo <= times[i] <= hi
    ensures lo <= Average(times) <= hi
  {
    AverageIsMean(times);
    SumBetween(times, lo, hi);
    DivideBounds(Sum(times), |times| as real, lo, hi);
  }

  function CountAtMost(s: seq<real>, x: real): (c: nat)
    ensures c <= |s|
  {
    if s == [] then 0 else (if s[0] <= x then 1 else 0) + CountAtMost(s[1..], x)
  }

  function CountAtLeast(s: seq<real>, x: real): (c: nat)
    ensures c <= |s|
  {
    if s == [] then 0 else (if s[0] >= x then 1 else 0) + CountAtLeast(s[1..], x)
  }

  ghost function AtMostAt(s: seq<real>, x: real): set<nat> {
    set i: nat | i < |s| && s[i] <= x
  }

  ghost function AtLeastAt(s: seq<real>, x: real): set<nat> {
    set i: nat | i < |s| && s[i] >= x
  }

  lemma AtMostMore(init: seq<real>, last: real, x: real)
    ensures |AtMostAt(init + [last], x)| == |AtMostAt(init, x)| + if last <= x then 1 else 0
  {
    if last <= x {
      assert AtMostAt(init + [last], x) == AtMostAt(init, x) + {|init|};
    } else {
      assert AtMostAt(init + [last], x) == AtMostAt(init, x);
    }
  }

  lemma AtLeastMore(init: seq<real>, last: real, x: real)
    ensures |AtLeastAt(init + [last], x)| == |AtLeastAt(init, x)| + if last >= x then 1 else 0
  {
    if last >= x {
      assert AtLeastAt(init + [last], x) == AtLeastAt(init, x) + {|init|};
    } else {
      assert AtLeastAt(init + [last], x) == AtLeastAt(init, x);
    }
  }

  /** The counts are numbers of positions. */
  lemma {:induction false} CountsArePositions(s: seq<real>, x: real)
    ensures CountAtMost(s, x) == |AtMostAt(s, x)|
    ensures CountAtLeast(s, x) == |AtLeastAt(s, x)|
  {
    if s == [] {
      assert AtMostAt(s, x) == {} && AtLeastAt(s, x) == {};
    } else {
      var init, last := s[..|s| - 1], s[|s| - 1];
      assert s == init + [last];
      CountsArePositions(init, x);
      CountsSplit(init, [last], x);
      OneCount(last, x);
      AtMostMore(init, last, x);
      AtLeastMore(init, last, x);
    }
  }

  lemma OneCount(y: real, x: real)
    ensures CountAtMost([y], x) == if y <= x then 1 else 0
    ensures CountAtLeast([y], x) == if y >= x then 1 else 0
  {
    assert [y][1..] == [];
  }

  lemma {:induction false} CountsSplit(a: seq<real>, b: seq<real>, x: real)
    ensures CountAtMost(a + b, x) == CountAtMost(a, x) + CountAtMost(b, x)
    ensures CountAtLeast(a + b, x) == CountAtLeast(a, x) + CountAtLeast(b, x)
  {
    if a == [] {
      assert a + b == b;
    } else {
      assert (a + b)[1..] == a[1..] + b;
      CountsSplit(a[1..], b, x);
    }
  }

  lemma {:induction false} CountsIgnoreOrder(a: seq<real>, b: seq<real>, x: real)
    requires multiset(a) == multiset(b)
    ensures CountAtMost(a, x) == CountAtMost(b, x) && CountAtLeast(a, x) == CountAtLeast(b, x)
  {
    if a == [] {
      assert |multiset(b)| == 0;
    } else {
      var j := TakeOutHead(a, b);
      assert b == b[..j] + ([b[j]] + b[j + 1..]);
      CountsIgnoreOrder(a[1..], b[..j] + b[j + 1..], x);
      CountsSplit(b[..j], [b[j]] + b[j + 1..], x);
      CountsSplit(b[..j], b[j + 1..], x);
    }
  }

  lemma {:induction false} CountAll(s: seq<real>, x: real)
    ensures (forall i :: 0 <= i < |s| ==> s[i] <= x) ==> CountAtMost(s, x) == |s|
    ensures (forall i :: 0 <= i < |s| ==> s[i] >= x) ==> CountAtLeast(s, x) == |s|
  {
    if s == [] {
    } else {
      CountAll(s[1..], x);
    }
  }

  lemma RankFromBelow(s: seq<real>, i: nat)
    requires Ascending(s) && i < |s|
    ensures CountAtMost(s, s[i]) >= i + 1
  {
    assert s == s[..i + 1] + s[i + 1..];
    CountsSplit(s[..i + 1], s[i + 1..], s[i]);
    CountAll(s[..i + 1], s[i]);
  }

  lemma RankFromAbove(s: seq<real>, i: nat)
    requires Ascending(s) && i < |s|
    ensures CountAtLeast(s, s[i]) >= |s| - i
  {
    assert s == s[..i] + s[i..];
    CountsSplit(s[..i], s[i..], s[i]);
    CountAll(s[i..], s[i]);
  }

  function Rank(w: nat, percent: nat): nat {
    if w * percent / 100 + 1 <= w then w * percent / 100 + 1 else w
  }

  /**
   The rank of a percentile among w samples: with r the smaller of w and floor(percent * w / 100) + 1, at least
   r samples are at most its value and at least w - r + 1 are at least its value.
   */
  lemma PercentileRank(times: seq<real>, percent: nat)
    requires times != [] && percent <= 100
    ensures var v, r := Percentile(times, percent), Rank(|times|, percent);
            && v in times
            && CountAtMost(times, v) >= r
            && CountAtLeast(times, v) >= |times| - r + 1
  {
    var i, s := PercentileIndex(|times|, percent), SortedTimes(times);
    SortIsCorrect(times);
    assert s[i] in multiset(s);
    CountsIgnoreOrder(s, times, s[i]);
    RankFromBelow(s, i);
    RankFromAbove(s, i);
  }

  lemma IndexGrows(length: nat, percent: nat, higher: nat)
    requires length > 0 && percent <= higher <= 100
    ensures PercentileIndex(length, percent) <= PercentileIndex(length, higher)
  {
    var a, b := length * percent, length * higher;
    assert b - a == length * (higher - percent);
    assert a / 100 <= b / 100;
  }

  /** A higher percentile is never lower: p95 is at most p99. */
  lemma PercentilesOrdered(times: seq<real>, percent: nat, higher: nat)
    requires times != [] && percent <= higher <= 100
    ensures Percentile(times, percent) <= Percentile(times, higher)
  {
    IndexGrows(|times|, percent, higher);
    SortIsCorrect(times);
    var i, j := PercentileIndex(|times|, percent), PercentileIndex(|times|, higher);
    assert i == j || SortedTimes(times)[i] <= SortedTimes(times)[j];
  }

  // ---- Runs ----

  datatype Sample = Sample(endpoint: string, time: real)

  const EMPTY: Metrics := Metrics(map[], map[], map[], map[], map[])

  function Run(samples: seq<Sample>): Metrics {
    if samples == [] then EMPTY
    else Recorded(Run(samples[..|samples| - 1]), samples[|samples| - 1].endpoint, samples[|samples| - 1].time)
  }

  /** All response times ever recorded for an endpoint. */
  function History(samples: seq<Sample>, endpoint: string): seq<real> {
    if samples == [] then []
    else
      var last := samples[|samples| - 1];
      History(samples[..|samples| - 1], endpoint) + if last.endpoint == endpoint then [last.time] else []
  }

  /** A window is the last thousand of its samples, or all when there are fewer. */
  lemma WindowIsLastThousand(samples: seq<real>)
    ensures |Window(samples)| == if |samples| <= 1000 then |samples| else 1000
    ensures Window(samples) == samples[|samples| - |Window(samples)|..]
  {
  }

  lemma WindowSlides(samples: seq<real>, time: real)
    ensures Window(Window(samples) + [time]) == Window(samples + [time])
  {
  }

  ghost predicate Current(m: Metrics, endpoint: string, h: seq<real>) {
    && TimesOf(m, endpoint) == Window(h)
    && CountOf(m, endpoint) == |h|
    && (h != [] ==>
          && endpoint in m.avgResponseTimes && m.avgResponseTimes[endpoint] == Average(Window(h))
          && endpoint in m.p95ResponseTimes && m.p95ResponseTimes[endpoint] == Percentile(Window(h), 95)
          && endpoint in m.p99ResponseTimes && m.p99ResponseTimes[endpoint] == Percentile(Window(h), 99))
  }

  lemma RecordedKeepsCurrent(m: Metrics, endpoint: string, h: seq<real>, other: string, time: real)
    requires Current(m, endpoint, h)
    ensures Current(Recorded(m, other, time), endpoint, if other == endpoint then h + [time] else h)
  {
    if other == endpoint {
      WindowSlides(h, time);
      var times := Window(h + [time]);
      assert Recorded(m, endpoint, time).responseTimes[endpoint] == times;
    }
  }

  /**
   After any sequence of requests each endpoint's window is exactly its last thousand samples, its count is
   exact, and its statistics are those of its window.
   */
  lemma {:induction false} MetricsAreCurrent(samples: seq<Sample>, endpoint: string)
    ensures Current(Run(samples), endpoint, History(samples, endpoint))
  {
    if samples == [] {
    } else {
      var before, last := samples[..|samples| - 1], samples[|samples| - 1];
      MetricsAreCurrent(before, endpoint);
      RecordedKeepsCurrent(Run(before), endpoint, History(before, endpoint), last.endpoint, last.time);
      assert History(before, endpoint) + [] == History(before, endpoint);
    }
  }

  lemma OneMoreRecorded(samples: seq<Sample>, s: Sample, endpoint: string)
    ensures Run(samples + [s]) == Recorded(Run(samples), s.endpoint, s.time)
    ensures s.endpoint == endpoint ==> Current(Run(samples + [s]), endpoint, History(samples, endpoint) + [s.time])
  {
    assert (samples + [s])[..|samples|] == samples;
    MetricsAreCurrent(samples + [s], endpoint);
  }

  // ---- The monitor ----

  class PerformanceMonitor {
    var requestCounts: map<string, nat>
    var responseTimes: map<string, seq<real>>
    var avgResponseTimes: map<string, real>
    var p95ResponseTimes: map<string, real>
    var p99ResponseTimes: map<string, real>
    ghost var history: seq<Sample>

    ghost function State(): Metrics
      reads this
    {
      Metrics(requestCounts, responseTimes, avgResponseTimes, p95ResponseTimes, p99ResponseTimes)
    }

    /** The metrics are those of the requests recorded so far. */
    ghost predicate Valid()
      reads this
    {
      State() == Run(history)
    }

    constructor ()
      ensures Valid() && history == []
    {
      history := [];
      requestCounts, responseTimes := map[], map[];
      avgResponseTimes, p95ResponseTimes, p99ResponseTimes := map[], map[], map[];
    }

    method RecordRequest(endpoint: string, time: real)
      requires Valid()
      modifies this
      ensures Valid() && history == old(history) + [Sample(endpoint, time)]
      ensures State() == Recorded(old(State()), endpoint, time)
      ensures Current(State(), endpoint, History(old(history), endpoint) + [time])
    {
      PushTime(endpoint, time);
      CalculatePercentiles(endpoint);
      OneMoreRecorded(history, Sample(endpoint, time), endpoint);
      history := history + [Sample(endpoint, time)];
    }

    /** Counts the request and slides its endpoint's window. */
    method PushTime(endpoint: string, time: real)
      modifies this`requestCounts, this`responseTimes
      ensures State() == Pushed(old(State()), endpoint, time)
    {
      var count := if endpoint in requestCounts then requestCounts[endpoint] else 0;
      requestCounts := requestCounts[endpoint := count + 1];
      var times := if endpoint in responseTimes then responseTimes[endpoint] else [];
      times := times + [time];
      if |times| > WINDOW {
        times := times[|times| - WINDOW..];
      }
      assert times == Window(TimesOf(old(State()), endpoint) + [time]);
      responseTimes := responseTimes[endpoint := times];
    }

    method CalculatePercentiles(endpoint: string)
      modifies this`avgResponseTimes, this`p95ResponseTimes, this`p99ResponseTimes
      ensures State() == Calculated(old(State()), endpoint)
    {
      if endpoint !in responseTimes || responseTimes[endpoint] == [] {
        return;
      }
      var sortedTimes := SortedTimes(responseTimes[endpoint]);
      var n := |sortedTimes|;
      var total := 0.0;
      var i := n;
      while i > 0
        invariant 0 <= i <= n
        invariant total == Sum(sortedTimes[i..])
      {
        i := i - 1;
        assert sortedTimes[i..][1..] == sortedTimes[i + 1..];
        total := total + sortedTimes[i];
      }
      assert sortedTimes[0..] == sortedTimes;
      avgResponseTimes := avgResponseTimes[endpoint := total / n as real];
      p95ResponseTimes := p95ResponseTimes[endpoint := sortedTimes[PercentileIndex(n, 95)]];
      p99ResponseTimes := p99ResponseTimes[endpoint := sortedTimes[PercentileIndex(n, 99)]];
    }
  }
}
