/**
 Filling the gaps of a daily series. Days are day numbers up to the calendar's last date; `format` is the
 date format, of which only injectivity matters.
 */
module TimeSeries {
  datatype Point = Point(date: string, count: int)

  /** The count a map collected from the points holds for a date: a later point replaces an earlier one. */
  function CountOf(data: seq<Point>, date: string): int {
    if data == [] then 0
    else if data[|data| - 1].date == date then data[|data| - 1].count
    else CountOf(data[..|data| - 1], date)
  }

  ghost predicate Injective(format: int -> string) {
    forall d, e :: format(d) == format(e) ==> d == e
  }

  function Days(start: int, end: int): nat {
    if start <= end then end - start + 1 else 0
  }

  /** Every day of [start, end], once, in order. */
  function Filled(data: seq<Point>, format: int -> string, start: int, end: int): (r: seq<Point>)
    ensures |r| == Days(start, end)
    ensures forall i :: 0 <= i < |r| ==> r[i] == Point(format(start + i), CountOf(data, format(start + i)))
  {
    seq(Days(start, end), i requires 0 <= i < Days(start, end) =>
      Point(format(start + i), CountOf(data, format(start + i))))
  }

  // ---- The loop ----

  /** `current.succ_opt().unwrap_or(end_date)` */
  function NextDay(day: int, end: int, lastDay: int): int {
    if day < lastDay then day + 1 else end
  }

  /** `current` after n turns. */
  function DayAfter(start: int, end: int, lastDay: int, n: nat): int {
    if n == 0 then start else NextDay(DayAfter(start, end, lastDay, n - 1), end, lastDay)
  }

  ghost predicate LoopEnds(start: int, end: int, lastDay: int) {
    exists n :: DayAfter(start, end, lastDay, n) > end
  }

  lemma {:induction false} CountsUp(start: int, end: int, lastDay: int, n: nat)
    requires start + n <= lastDay
    ensures DayAfter(start, end, lastDay, n) == start + n
  {
    if n == 0 {
    } else {
      CountsUp(start, end, lastDay, n - 1);
    }
  }

  lemma {:induction false} StuckAtLastDay(start: int, lastDay: int, n: nat)
    requires start <= lastDay
    ensures DayAfter(start, lastDay, lastDay, n) <= lastDay
  {
    if n == 0 {
    } else {
      StuckAtLastDay(start, lastDay, n - 1);
    }
  }

  /** The loop ends exactly when there is nothing to fill or the end is not the calendar's last date. */
  lemma EndsIffNotLastDay(start: int, end: int, lastDay: int)
    requires start <= lastDay && end <= lastDay
    ensures LoopEnds(start, end, lastDay) <==> start > end || end < lastDay
  {
    if start > end {
      assert DayAfter(start, end, lastDay, 0) > end;
    } else if end < lastDay {
      CountsUp(start, end, lastDay, end - start + 1);
    } else {
      forall n
        ensures DayAfter(start, end, lastDay, n) <= end
      {
        StuckAtLastDay(start, lastDay, n);
      }
    }
  }

  method FillTimeSeriesGaps(data: seq<Point>, format: int -> string, start: int, end: int, lastDay: int)
    returns (result: seq<Point>)
    requires start <= lastDay && end <= lastDay
    requires LoopEnds(start, end, lastDay)
    ensures result == Filled(data, format, start, end)
  {
    EndsIffNotLastDay(start, end, lastDay);
    var counts := CollectCounts(data);
    result := [];
    var current := start;
    while current <= end
      invariant current == start + |result|
      invariant |result| <= Days(start, end)
      invariant result == Filled(data, format, start, end)[..|result|]
      decreases end - current
    {
      var key := format(current);
      result := result + [Point(key, if key in counts then counts[key] else 0)];
      current := NextDay(current, end, lastDay);
    }
  }

  method CollectCounts(data: seq<Point>) returns (counts: map<string, int>)
    ensures forall k :: CountOf(data, k) == if k in counts then counts[k] else 0
  {
    counts := map[];
    var i := 0;
    while i < |data|
      invariant 0 <= i <= |data|
      invariant forall k :: CountOf(data[..i], k) == if k in counts then counts[k] else 0
    {
      assert data[..i + 1][..i] == data[..i];
      counts := counts[data[i].date := data[i].count];
      i := i + 1;
    }
    assert data[..i] == data;
  }

  // ---- Every day once, and the total ----

  /** Each day of the range has exactly one entry, at its own position. */
  lemma EveryDayOnce(data: seq<Point>, format: int -> string, start: int, end: int, day: int)
    requires Injective(format) && start <= day <= end
    ensures var r := Filled(data, format, start, end);
            && r[day - start].date == format(day)
            && forall i :: 0 <= i < |r| && r[i].date == format(day) ==> i == day - start
  {
    assert start + (day - start) == day;
  }

  /** A range that ends before it starts has no entry. */
  lemma NothingToFill(data: seq<Point>, format: int -> string, start: int, end: int)
    requires start > end
    ensures Filled(data, format, start, end) == []
  {
  }

  function Total(points: seq<Point>): int {
    if points == [] then 0 else Total(points[..|points| - 1]) + points[|points| - 1].count
  }

  function DaySum(data: seq<Point>, format: int -> string, start: int, n: nat): int {
    if n == 0 then 0 else DaySum(data, format, start, n - 1) + CountOf(data, format(start + n - 1))
  }

  ghost predicate InRange(format: int -> string, start: int, n: nat, date: string) {
    exists day :: start <= day < start + n && format(day) == date
  }

  /** The total of the points dated within the range. */
  ghost function InRangeTotal(data: seq<Point>, format: int -> string, start: int, n: nat): int {
    if data == [] then 0
    else
      var p := data[|data| - 1];
      InRangeTotal(data[..|data| - 1], format, start, n) + if InRange(format, start, n, p.date) then p.count else 0
  }

  /** The total of in-range counts that a later point of the same date replaced. */
  ghost function Overwritten(data: seq<Point>, format: int -> string, start: int, n: nat): int {
    if data == [] then 0
    else
      var before, p := data[..|data| - 1], data[|data| - 1];
      Overwritten(before, format, start, n) + if InRange(format, start, n, p.date) then CountOf(before, p.date) else 0
  }

  lemma {:induction false} TotalIsDaySum(data: seq<Point>, format: int -> string, start: int, end: int, n: nat)
    requires n <= Days(start, end)
    ensures Total(Filled(data, format, start, end)[..n]) == DaySum(data, format, start, n)
  {
    if n == 0 {
    } else {
      TotalIsDaySum(data, format, start, end, n - 1);
      assert Filled(data, format, start, end)[..n][..n - 1] == Filled(data, format, start, end)[..n - 1];
    }
  }

  /** One more point moves the sum by its count less what it replaced, if it lies in range. */
  lemma {:induction false} PointAdds(before: seq<Point>, p: Point, format: int -> string, start: int, n: nat)
    requires Injective(format)
    ensures DaySum(before + [p], format, start, n)
         == DaySum(before, format, start, n)
            + if InRange(format, start, n, p.date) then p.count - CountOf(before, p.date) else 0
  {
    if n == 0 {
    } else {
      PointAdds(before, p, format, start, n - 1);
      assert (before + [p])[..|before|] == before;
      var last := start + n - 1;
      if format(last) == p.date {
        assert forall day :: start <= day < last ==> format(day) != p.date;
      } else if InRange(format, start, n, p.date) {
        var day :| start <= day < start + n && format(day) == p.date;
        assert day != last;
      }
    }
  }

  lemma {:induction false} SumBalances(data: seq<Point>, format: int -> string, start: int, n: nat)
    requires Injective(format)
    ensures DaySum(data, format, start, n) + Overwritten(data, format, start, n) == InRangeTotal(data, format, start, n)
  {
    if data == [] {
      NothingToSum(format, start, n);
    } else {
      var before, p := data[..|data| - 1], data[|data| - 1];
      SumBalances(before, format, start, n);
      PointAdds(before, p, format, start, n);
      assert before + [p] == data;
    }
  }

  lemma {:induction false} NothingToSum(format: int -> string, start: int, n: nat)
    ensures DaySum([], format, start, n) == 0
  {
    if n == 0 {
    } else {
      NothingToSum(format, start, n - 1);
    }
  }

  /** The filled series totals the in-range points exactly when the counts that were replaced sum to zero. */
  lemma TotalPreservedIffReplacedSumToZero(data: seq<Point>, format: int -> string, start: int, end: int)
    requires Injective(format)
    ensures var n := Days(start, end);
            Total(Filled(data, format, start, end)) == InRangeTotal(data, format, start, n)
            <==> Overwritten(data, format, start, n) == 0
  {
    var n, r := Days(start, end), Filled(data, format, start, end);
    TotalIsDaySum(data, format, start, end, n);
    assert r[..n] == r;
    SumBalances(data, format, start, n);
  }

  ghost predicate Superseded(data: seq<Point>, i: nat)
    requires i < |data|
  {
    exists j :: i < j < |data| && data[j].date == data[i].date
  }

  lemma {:induction false} CountOfLast(data: seq<Point>, date: string)
    ensures (exists i :: 0 <= i < |data| && data[i].date == date && !Superseded(data, i) && data[i].count == CountOf(data, date))
            || (CountOf(data, date) == 0 && forall i :: 0 <= i < |data| ==> data[i].date != date)
  {
    if data == [] {
    } else {
      var n := |data| - 1;
      if data[n].date == date {
        assert !Superseded(data, n);
      } else {
        CountOfLast(data[..n], date);
        if i :| 0 <= i < n && data[..n][i].date == date && !Superseded(data[..n], i) && data[..n][i].count == CountOf(data[..n], date) {
          SupersededMore(data, i);
          assert !Superseded(data, i);
        }
      }
    }
  }

  /** One more point supersedes exactly the points of its date. */
  lemma SupersededMore(data: seq<Point>, i: nat)
    requires i < |data| - 1
    ensures Superseded(data, i) <==> Superseded(data[..|data| - 1], i) || data[|data| - 1].date == data[i].date
  {
    var before := data[..|data| - 1];
    if j :| i < j < |data| && data[j].date == data[i].date {
      if j < |data| - 1 {
        assert before[j].date == before[i].date;
      }
    }
    if j :| i < j < |before| && before[j].date == before[i].date {
      assert data[j].date == data[i].date;
    }
  }

  ghost predicate NonNegative(data: seq<Point>) {
    forall i :: 0 <= i < |data| ==> data[i].count >= 0
  }

  /** Every in-range point that a later point of its date replaces counts nothing. */
  ghost predicate SupersededAreZero(data: seq<Point>, format: int -> string, start: int, n: nat) {
    forall i :: 0 <= i < |data| && InRange(format, start, n, data[i].date) && Superseded(data, i) ==> data[i].count == 0
  }

  lemma {:induction false} OverwrittenNonNegative(data: seq<Point>, format: int -> string, start: int, n: nat)
    requires NonNegative(data)
    ensures Overwritten(data, format, start, n) >= 0
  {
    if data == [] {
    } else {
      var before, p := data[..|data| - 1], data[|data| - 1];
      OverwrittenNonNegative(before, format, start, n);
      CountOfLast(before, p.date);
    }
  }

  lemma SupersededAreZeroStep(data: seq<Point>, format: int -> string, start: int, n: nat)
    requires data != [] && NonNegative(data)
    ensures var before, p := data[..|data| - 1], data[|data| - 1];
            SupersededAreZero(data, format, start, n)
            <==> SupersededAreZero(before, format, start, n) && (InRange(format, start, n, p.date) ==> CountOf(before, p.date) == 0)
  {
    var before, p := data[..|data| - 1], data[|data| - 1];
    CountOfLast(before, p.date);
    forall i | 0 <= i < |before|
      ensures Superseded(data, i) <==> Superseded(before, i) || p.date == before[i].date
    {
      SupersededMore(data, i);
    }
    assert !Superseded(data, |before|);
    if SupersededAreZero(data, format, start, n) {
      forall i | 0 <= i < |before| && InRange(format, start, n, before[i].date) && Superseded(before, i)
        ensures before[i].count == 0
      {
        assert data[i] == before[i];
      }
    }
  }

  lemma {:induction false} OverwrittenZeroIff(data: seq<Point>, format: int -> string, start: int, n: nat)
    requires NonNegative(data)
    ensures Overwritten(data, format, start, n) == 0 <==> SupersededAreZero(data, format, start, n)
  {
    if data == [] {
    } else {
      var before, p := data[..|data| - 1], data[|data| - 1];
      OverwrittenZeroIff(before, format, start, n);
      OverwrittenNonNegative(before, format, start, n);
      CountOfLast(before, p.date);
      SupersededAreZeroStep(data, format, start, n);
    }
  }

  /**
   For counts, which are not negative, the total is preserved exactly when every in-range point that has a
   later point of its date counts nothing.
   */
  lemma TotalPreservedIffSupersededAreZero(data: seq<Point>, format: int -> string, start: int, end: int)
    requires Injective(format) && NonNegative(data)
    ensures var n := Days(start, end);
            Total(Filled(data, format, start, end)) == InRangeTotal(data, format, start, n)
            <==> SupersededAreZero(data, format, start, n)
  {
    TotalPreservedIffReplacedSumToZero(data, format, start, end);
    OverwrittenZeroIff(data, format, start, Days(start, end));
  }

  /** Counts of both signs can cancel: here two points of some value are replaced and the total is preserved. */
  lemma ReplacedCountsMayCancel(format: int -> string)
    requires Injective(format)
    ensures var d := format(0);
            Total(Filled([Point(d, 5), Point(d, -5), Point(d, 7)], format, 0, 0))
            == InRangeTotal([Point(d, 5), Point(d, -5), Point(d, 7)], format, 0, 1)
  {
    var d := format(0);
    var a, b := [Point(d, 5)], [Point(d, 5), Point(d, -5)];
    var data := [Point(d, 5), Point(d, -5), Point(d, 7)];
    assert data[..2] == b && b[..1] == a && a[..0] == [];
    assert InRange(format, 0, 1, d);
    assert Overwritten(a, format, 0, 1) == 0;
    assert Overwritten(b, format, 0, 1) == 5;
    TotalPreservedIffReplacedSumToZero(data, format, 0, 0);
  }

  ghost predicate DistinctDates(data: seq<Point>) {
    forall i, j :: 0 <= i < j < |data| ==> data[i].date != data[j].date
  }

  lemma {:induction false} AbsentCountsZero(data: seq<Point>, date: string)
    requires forall i :: 0 <= i < |data| ==> data[i].date != date
    ensures CountOf(data, date) == 0
  {
    if data == [] {
    } else {
      AbsentCountsZero(data[..|data| - 1], date);
    }
  }

  lemma {:induction false} DistinctOverwritesNothing(data: seq<Point>, format: int -> string, start: int, n: nat)
    requires DistinctDates(data)
    ensures Overwritten(data, format, start, n) == 0
  {
    if data == [] {
    } else {
      var before, p := data[..|data| - 1], data[|data| - 1];
      DistinctOverwritesNothing(before, format, start, n);
      AbsentCountsZero(before, p.date);
    }
  }

  /** With distinct input dates the total of the in-range counts is preserved. */
  lemma DistinctDatesPreserveTotal(data: seq<Point>, format: int -> string, start: int, end: int)
    requires Injective(format) && DistinctDates(data)
    ensures Total(Filled(data, format, start, end)) == InRangeTotal(data, format, start, Days(start, end))
  {
    DistinctOverwritesNothing(data, format, start, Days(start, end));
    TotalPreservedIffReplacedSumToZero(data, format, start, end);
  }
}
