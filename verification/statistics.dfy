/**
 * `_insert_statistics`: appending hourly points to the cumulative
 * energy-consumption statistic, after the last point already stored.
 *
 * The recorder is abstracted: the last stored point is an input, and the
 * one call to `async_add_external_statistics` is the output.
 */
module StatisticsLedger {
  import opened Wrappers
  import opened HourlySums

  /** The `start` and `sum` of the last stored point (`get_last_statistics(..., 1, ...)`). */
  datatype LastStatistic = LastStatistic(start: int, sum: real)

  /** One `StatisticData`: the hour, its consumption and the running total. */
  datatype StatisticPoint = StatisticPoint(start: int, state: real, sum: real)

  /** What `_insert_statistics` does to the recorder. */
  datatype StoreCall =
    | NoStoreAccess                                          // early return: no query, no write
    | AddExternalStatistics(statistics: seq<StatisticPoint>)  // query, then one write of this list

  /** `last_stats_time`: the watermark, None when nothing is stored. */
  function LastStatsTime(last: Option<LastStatistic>): Option<int> {
    if last.Some? then Some(last.value.start) else None
  }

  /** The running sum's starting value. */
  function InitialSum(last: Option<LastStatistic>): real {
    if last.Some? then last.value.sum else 0.0
  }

  /**
   * `last_stats_time and hour.timestamp() <= last_stats_time`: a watermark of
   * None or 0 is falsy and skips nothing.
   */
  predicate AlreadyProcessed(lastStatsTime: Option<int>, hour: int) {
    lastStatsTime.Some? && lastStatsTime.value != 0 && hour <= lastStatsTime.value
  }

  /** The entries the loop does not skip, in iteration order. */
  function Pending(t: HourlyTable, lastStatsTime: Option<int>): (p: HourlyTable)
    ensures |p| <= |t|
  {
    if t == [] then []
    else (if AlreadyProcessed(lastStatsTime, t[0].hour) then [] else [t[0]]) + Pending(t[1..], lastStatsTime)
  }

  /** An entry is kept exactly when it is in the table and not at or before a truthy watermark. */
  lemma {:induction false} PendingMembers(t: HourlyTable, lastStatsTime: Option<int>, e: Entry)
    ensures e in Pending(t, lastStatsTime) <==> e in t && !AlreadyProcessed(lastStatsTime, e.hour)
  {
    if t != [] {
      PendingMembers(t[1..], lastStatsTime, e);
      assert t == [t[0]] + t[1..];
    }
  }

  /** The points the loop appends, the running sum starting at `sums`. */
  function Emitted(t: HourlyTable, lastStatsTime: Option<int>, sums: real): seq<StatisticPoint> {
    if t == [] then []
    else if AlreadyProcessed(lastStatsTime, t[0].hour) then Emitted(t[1..], lastStatsTime, sums)
    else
      var s := sums + t[0].data.day;
      [StatisticPoint(t[0].hour, t[0].data.day, s)] + Emitted(t[1..], lastStatsTime, s)
  }

  /** The recorder effect of `_insert_statistics(consumptions)`. */
  function StoreCallFor(consumptions: HourlyTable, last: Option<LastStatistic>): (call: StoreCall)
    ensures call.NoStoreAccess? <==> |consumptions| == 0
  {
    if consumptions == [] then NoStoreAccess
    else AddExternalStatistics(Emitted(consumptions, LastStatsTime(last), InitialSum(last)))
  }

  /** `_insert_statistics`; `last` is what the recorder query returns. */
  method InsertStatistics(consumptions: HourlyTable, last: Option<LastStatistic>) returns (call: StoreCall)
    ensures call == StoreCallFor(consumptions, last)
  {
    if |consumptions| == 0 {
      return NoStoreAccess;
    }
    var lastStatsTime := LastStatsTime(last);
    var sums := InitialSum(last);
    var statistics := [];
    var i := 0;
    while i < |consumptions|
      invariant 0 <= i <= |consumptions|
      invariant EmittedFrom(consumptions, 0, lastStatsTime, InitialSum(last))
                == statistics + EmittedFrom(consumptions, i, lastStatsTime, sums)
    {
      var entry := consumptions[i];
      if !AlreadyProcessed(lastStatsTime, entry.hour) {
        sums := sums + entry.data.day;
        var point := StatisticPoint(entry.hour, entry.data.day, sums);
        AppendAssociates(statistics, point, EmittedFrom(consumptions, i + 1, lastStatsTime, sums));
        statistics := statistics + [point];
      }
      i := i + 1;
    }
    assert statistics + [] == statistics;
    EmittedFromSuffix(consumptions, 0, lastStatsTime, InitialSum(last));
    assert consumptions[0..] == consumptions;
    call := AddExternalStatistics(statistics);
  }

  /** Appending one point, then the rest, is appending both at once. */
  lemma AppendAssociates(a: seq<StatisticPoint>, p: StatisticPoint, b: seq<StatisticPoint>)
    ensures a + ([p] + b) == (a + [p]) + b
  {
  }

  /** `Emitted` read from position i of the table onwards, as the loop reads it. */
  function EmittedFrom(t: HourlyTable, i: nat, lastStatsTime: Option<int>, sums: real): seq<StatisticPoint>
    decreases |t| - i
  {
    if i >= |t| then []
    else if AlreadyProcessed(lastStatsTime, t[i].hour) then EmittedFrom(t, i + 1, lastStatsTime, sums)
    else
      var s := sums + t[i].data.day;
      [StatisticPoint(t[i].hour, t[i].data.day, s)] + EmittedFrom(t, i + 1, lastStatsTime, s)
  }

  /** Reading from position i is reading the suffix that starts there. */
  lemma {:induction false} EmittedFromSuffix(t: HourlyTable, i: nat, lastStatsTime: Option<int>, sums: real)
    requires i <= |t|
    ensures EmittedFrom(t, i, lastStatsTime, sums) == Emitted(t[i..], lastStatsTime, sums)
    decreases |t| - i
  {
    if i < |t| {
      assert t[i..][1..] == t[i + 1..];
      EmittedFromSuffix(t, i + 1, lastStatsTime, sums);
      EmittedFromSuffix(t, i + 1, lastStatsTime, sums + t[i].data.day);
    }
  }

  /** The running sum after the points: the last point's sum, or the start when there is none. */
  function FinalSum(points: seq<StatisticPoint>, sums: real): real {
    if points == [] then sums else points[|points| - 1].sum
  }

  /** The consumption of all points. */
  function StateTotal(points: seq<StatisticPoint>): real {
    if points == [] then 0.0 else points[0].state + StateTotal(points[1..])
  }

  /** One point per entry not skipped, in iteration order, with that hour and its bucket's day energy. */
  lemma {:induction false} EmittedFollowsPending(t: HourlyTable, lastStatsTime: Option<int>, sums: real)
    ensures var e, p := Emitted(t, lastStatsTime, sums), Pending(t, lastStatsTime);
      |e| == |p| && forall i :: 0 <= i < |e| ==> e[i].start == p[i].hour && e[i].state == p[i].data.day
  {
    if t != [] {
      if AlreadyProcessed(lastStatsTime, t[0].hour) {
        EmittedFollowsPending(t[1..], lastStatsTime, sums);
      } else {
        EmittedFollowsPending(t[1..], lastStatsTime, sums + t[0].data.day);
      }
    }
  }

  /** Skipping respects iteration order: the entries kept from a + b are those kept from a, then from b. */
  lemma {:induction false} PendingAppend(a: HourlyTable, b: HourlyTable, lastStatsTime: Option<int>)
    ensures Pending(a + b, lastStatsTime) == Pending(a, lastStatsTime) + Pending(b, lastStatsTime)
  {
    if a == [] {
      assert a + b == b;
    } else {
      var ab := a + b;
      assert ab[0] == a[0];
      assert ab[1..] == a[1..] + b;
      PendingAppend(a[1..], b, lastStatsTime);
      var head := if AlreadyProcessed(lastStatsTime, a[0].hour) then [] else [a[0]];
      assert Pending(ab, lastStatsTime) == head + Pending(ab[1..], lastStatsTime);
      assert Pending(a, lastStatsTime) == head + Pending(a[1..], lastStatsTime);
    }
  }

  /** No point is at or before a (truthy) watermark. */
  lemma NothingAtOrBeforeWatermark(t: HourlyTable, w: int, sums: real)
    requires w != 0
    ensures forall p :: p in Emitted(t, Some(w), sums) ==> p.start > w
  {
    var e, q := Emitted(t, Some(w), sums), Pending(t, Some(w));
    EmittedFollowsPending(t, Some(w), sums);
    forall p | p in e ensures p.start > w {
      var i :| 0 <= i < |e| && e[i] == p;
      assert q[i] in q;
      PendingMembers(t, Some(w), q[i]);
    }
  }

  /** Each point's sum is the previous point's sum (or the starting sum) plus its own state. */
  lemma {:induction false} EmittedRunningSum(t: HourlyTable, lastStatsTime: Option<int>, sums: real)
    ensures var e := Emitted(t, lastStatsTime, sums);
      && (e != [] ==> e[0].sum == sums + e[0].state)
      && forall i :: 0 < i < |e| ==> e[i].sum == e[i - 1].sum + e[i].state
  {
    if t != [] {
      if AlreadyProcessed(lastStatsTime, t[0].hour) {
        EmittedRunningSum(t[1..], lastStatsTime, sums);
      } else {
        var s := sums + t[0].data.day;
        var rest := Emitted(t[1..], lastStatsTime, s);
        EmittedRunningSum(t[1..], lastStatsTime, s);
        var e := [StatisticPoint(t[0].hour, t[0].data.day, s)] + rest;
        assert Emitted(t, lastStatsTime, sums) == e;
        forall i | 0 < i < |e| ensures e[i].sum == e[i - 1].sum + e[i].state {
          assert e[i] == rest[i - 1];
          if i > 1 {
            assert e[i - 1] == rest[i - 2];
          }
        }
      }
    }
  }

  /** The final running sum is the starting sum plus the consumption of every appended point. */
  lemma {:induction false} EmittedFinalSum(t: HourlyTable, lastStatsTime: Option<int>, sums: real)
    ensures var e := Emitted(t, lastStatsTime, sums);
      FinalSum(e, sums) == sums + StateTotal(e)
  {
    if t != [] {
      if AlreadyProcessed(lastStatsTime, t[0].hour) {
        EmittedFinalSum(t[1..], lastStatsTime, sums);
      } else {
        var s := sums + t[0].data.day;
        var rest := Emitted(t[1..], lastStatsTime, s);
        EmittedFinalSum(t[1..], lastStatsTime, s);
        assert ([StatisticPoint(t[0].hour, t[0].data.day, s)] + rest)[1..] == rest;
      }
    }
  }

  /** Each point's sum is at least the one before it, the first at least `sums`. */
  predicate NondecreasingFrom(points: seq<StatisticPoint>, sums: real) {
    points == [] || (sums <= points[0].sum && NondecreasingFrom(points[1..], points[0].sum))
  }

  /** No bucket holds negative day energy. */
  predicate NoNegativeDay(t: HourlyTable) {
    forall i :: 0 <= i < |t| ==> t[i].data.day >= 0.0
  }

  /** Sums that never go down step by step never go down between any two points. */
  lemma {:induction false} NondecreasingPairwise(points: seq<StatisticPoint>, sums: real)
    requires NondecreasingFrom(points, sums)
    ensures forall i :: 0 <= i < |points| ==> sums <= points[i].sum
    ensures forall i, j :: 0 <= i <= j < |points| ==> points[i].sum <= points[j].sum
  {
    if points != [] {
      var rest := points[1..];
      NondecreasingPairwise(rest, points[0].sum);
      assert forall i :: 1 <= i < |points| ==> points[i] == rest[i - 1];
    }
  }

  /** With no negative consumption, the cumulative sum never decreases. */
  lemma {:induction false} EmittedSumsNondecreasing(t: HourlyTable, lastStatsTime: Option<int>, sums: real)
    requires NoNegativeDay(t)
    ensures NondecreasingFrom(Emitted(t, lastStatsTime, sums), sums)
  {
    if t != [] {
      assert NoNegativeDay(t[1..]) by {
        assert forall i :: 0 <= i < |t[1..]| ==> t[1..][i] == t[i + 1];
      }
      if AlreadyProcessed(lastStatsTime, t[0].hour) {
        EmittedSumsNondecreasing(t[1..], lastStatsTime, sums);
      } else {
        var s := sums + t[0].data.day;
        var rest := Emitted(t[1..], lastStatsTime, s);
        EmittedSumsNondecreasing(t[1..], lastStatsTime, s);
        var e := [StatisticPoint(t[0].hour, t[0].data.day, s)] + rest;
        assert Emitted(t, lastStatsTime, sums) == e;
        assert e[1..] == rest;
      }
    }
  }

  /** A watermark of 0 is falsy: nothing is skipped. */
  lemma {:induction false} ZeroWatermarkSkipsNothing(t: HourlyTable)
    ensures Pending(t, Some(0)) == t
  {
    if t != [] {
      ZeroWatermarkSkipsNothing(t[1..]);
    }
  }

  /** When every entry is at or before the watermark, nothing is appended. */
  lemma {:induction false} AllProcessedEmitsNothing(t: HourlyTable, lastStatsTime: Option<int>, sums: real)
    requires forall i :: 0 <= i < |t| ==> AlreadyProcessed(lastStatsTime, t[i].hour)
    ensures Emitted(t, lastStatsTime, sums) == []
  {
    if t != [] {
      AllProcessedEmitsNothing(t[1..], lastStatsTime, sums);
    }
  }

  /** An entry after the watermark always yields a point. */
  lemma UnprocessedIsEmitted(t: HourlyTable, k: int, lastStatsTime: Option<int>, sums: real)
    requires 0 <= k < |t| && !AlreadyProcessed(lastStatsTime, t[k].hour)
    ensures Emitted(t, lastStatsTime, sums) != []
  {
    EmittedFollowsPending(t, lastStatsTime, sums);
    PendingMembers(t, lastStatsTime, t[k]);
  }

  /** With hours in increasing order, the last appended point is the table's last hour. */
  lemma {:induction false} LastEmittedIsLastHour(t: HourlyTable, lastStatsTime: Option<int>, sums: real)
    requires HoursIncreasing(t)
    requires Emitted(t, lastStatsTime, sums) != []
    ensures var e := Emitted(t, lastStatsTime, sums);
      e[|e| - 1].start == t[|t| - 1].hour
  {
    var r := t[1..];
    var s := if AlreadyProcessed(lastStatsTime, t[0].hour) then sums else sums + t[0].data.day;
    var rest := Emitted(r, lastStatsTime, s);
    if r != [] {
      if !AlreadyProcessed(lastStatsTime, t[0].hour) {
        assert r[|r| - 1].hour > t[0].hour;
        UnprocessedIsEmitted(r, |r| - 1, lastStatsTime, s);
      }
      LastEmittedIsLastHour(r, lastStatsTime, s);
    }
  }

  /**
   * Idempotence: with hours in increasing order, once the last appended point
   * is stored, running again with the same table appends nothing (the
   * recorder is still called, with an empty list).
   */
  lemma RerunAppendsNothing(t: HourlyTable, last: Option<LastStatistic>)
    requires HoursIncreasing(t)
    requires StoreCallFor(t, last).AddExternalStatistics?
    requires var e := StoreCallFor(t, last).statistics; e != [] && e[|e| - 1].start != 0
    ensures var e := StoreCallFor(t, last).statistics;
      StoreCallFor(t, Some(LastStatistic(e[|e| - 1].start, e[|e| - 1].sum))) == AddExternalStatistics([])
  {
    var e := StoreCallFor(t, last).statistics;
    var w := e[|e| - 1].start;
    LastEmittedIsLastHour(t, LastStatsTime(last), InitialSum(last));
    assert forall i :: 0 <= i < |t| ==> t[i].hour <= w;
    AllProcessedEmitsNothing(t, Some(w), e[|e| - 1].sum);
  }
}
