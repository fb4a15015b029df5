/**
 * The three steps chained as the update cycle chains them: filter the
 * response, sum per hour, append to the statistic. Only the recorder effect
 * is modelled; the login, the fetch and the value the cycle returns are not.
 */
module Pipeline {
  import opened Wrappers
  import opened Hours
  import opened Consumption
  import opened HourlySums
  import opened StatisticsLedger

  /** The recorder effect of one cycle for a fetched response. */
  function CycleStoreCall(response: ConsumptionResponse, last: Option<LastStatistic>): StoreCall {
    StoreCallFor(HourlySumsOf(Kept(response.response)), last)
  }

  /** Summing a non-empty list of intervals always yields at least one bucket. */
  lemma {:induction false} BucketedNonEmpty(cs: seq<ConsumptionData>)
    requires cs != []
    ensures Bucketed(cs) != []
  {
    BucketedKeys(cs);
    assert HourStart(cs[0].fromDate) in HoursOf(cs);
  }

  /** The recorder is touched exactly when some record of the response has readings. */
  lemma StoreTouchedIffReadings(response: ConsumptionResponse, last: Option<LastStatistic>)
    ensures CycleStoreCall(response, last).NoStoreAccess? <==>
            forall i :: 0 <= i < |response.response| ==> !HasReadings(response.response[i])
  {
    var cs := Kept(response.response);
    if cs != [] {
      BucketedNonEmpty(cs[StartIndex(cs)..]);
      var x := cs[0];
      KeptMembers(response.response, x);
    } else if exists i :: 0 <= i < |response.response| && HasReadings(response.response[i]) {
      var i :| 0 <= i < |response.response| && HasReadings(response.response[i]);
      KeptMembers(response.response, ToData(response.response[i]));
    }
  }

  /** Ten o'clock on the first day of the epoch. */
  const TenOClock: int := 10 * SecondsPerHour

  function QuarterReading(minute: int): ConsumptionRecord {
    ConsumptionRecord(0.5, 0.0, TenOClock + 60 * minute, TenOClock + 60 * minute + 900, false, Some(1))
  }

  /** The four quarter-hour readings of the ten o'clock hour. */
  function QuarterReadings(): seq<ConsumptionRecord> {
    [QuarterReading(0), QuarterReading(15), QuarterReading(30), QuarterReading(45)]
  }

  /** All four readings have a readings count, so all four are kept in order. */
  lemma QuarterReadingsKept()
    ensures Kept(QuarterReadings()) == [ToData(QuarterReading(0)), ToData(QuarterReading(15)),
                                        ToData(QuarterReading(30)), ToData(QuarterReading(45))]
  {
    var r0, r1, r2, r3 := QuarterReading(0), QuarterReading(15), QuarterReading(30), QuarterReading(45);
    KeptAppend([r0, r1, r2], [r3]);
    KeptAppend([r0, r1], [r2]);
    KeptAppend([r0], [r1]);
    KeptSingle(r0);
    KeptSingle(r1);
    KeptSingle(r2);
    KeptSingle(r3);
    assert [r0, r1, r2] + [r3] == QuarterReadings();
    assert [r0, r1] + [r2] == [r0, r1, r2];
    assert [r0] + [r1] == [r0, r1];
  }

  /** The four kept readings fill one bucket of 2.0 kWh. */
  lemma QuarterReadingsBucketed()
    ensures HourlySumsOf(Kept(QuarterReadings())) == [Entry(TenOClock, EmptyBucket(TenOClock).(day := 2.0))]
  {
    QuarterReadingsKept();
    var cs := Kept(QuarterReadings());
    assert FirstTopOfHour(cs) == 0;
    assert cs[StartIndex(cs)..] == cs;
    var b := EmptyBucket(TenOClock);
    assert cs[..3][..2][..1][..0] == [];
    assert Bucketed(cs[..3][..2][..1]) == [Entry(TenOClock, b.(day := 0.5))];
    assert Bucketed(cs[..3][..2]) == [Entry(TenOClock, b.(day := 1.0))];
    assert Bucketed(cs[..3]) == [Entry(TenOClock, b.(day := 1.5))];
  }

  /**
   * Four quarter-hour readings of 0.5 kWh from 10:00 give one point for the
   * ten o'clock hour: consumption 2.0, cumulative sum the stored sum plus 2.0.
   */
  lemma QuarterHoursMakeOnePoint(prior: LastStatistic)
    requires prior.start < TenOClock
    ensures CycleStoreCall(ConsumptionResponse(QuarterReadings()), Some(prior))
            == AddExternalStatistics([StatisticPoint(TenOClock, 2.0, prior.sum + 2.0)])
  {
    QuarterReadingsBucketed();
    var t := [Entry(TenOClock, EmptyBucket(TenOClock).(day := 2.0))];
    assert t[1..] == [];
    assert Emitted(t, Some(prior.start), prior.sum) == [StatisticPoint(TenOClock, 2.0, prior.sum + 2.0)];
  }

  /**
   * Into an empty statistic, buckets for 10:00 (1.0 kWh) and 11:00 (1.5 kWh)
   * give the points (10:00, 1.0, 1.0) and (11:00, 1.5, 2.5); storing the last
   * and running again appends nothing.
   */
  lemma FirstMergeThenRerun()
    ensures var t := [Entry(TenOClock, EmptyBucket(TenOClock).(day := 1.0)),
                      Entry(TenOClock + SecondsPerHour, EmptyBucket(TenOClock + SecondsPerHour).(day := 1.5))];
      && StoreCallFor(t, None) == AddExternalStatistics([StatisticPoint(TenOClock, 1.0, 1.0),
                                                        StatisticPoint(TenOClock + SecondsPerHour, 1.5, 2.5)])
      && StoreCallFor(t, Some(LastStatistic(TenOClock + SecondsPerHour, 2.5))) == AddExternalStatistics([])
  {
    var e0 := Entry(TenOClock, EmptyBucket(TenOClock).(day := 1.0));
    var e1 := Entry(TenOClock + SecondsPerHour, EmptyBucket(TenOClock + SecondsPerHour).(day := 1.5));
    var t := [e0, e1];
    assert t[1..] == [e1];
    assert [e1][1..] == [];
    assert Emitted([e1], None, 1.0) == [StatisticPoint(e1.hour, 1.5, 2.5)];
    assert Emitted(t, None, 0.0) == [StatisticPoint(e0.hour, 1.0, 1.0)] + Emitted([e1], None, 1.0);
    AllProcessedEmitsNothing(t, Some(TenOClock + SecondsPerHour), 2.5);
  }

  /**
   * A stored point at instant 0 is a falsy watermark: running again re-appends
   * that hour and counts it twice.
   */
  lemma ZeroWatermarkCountsTwice()
    ensures var t := [Entry(0, EmptyBucket(0).(day := 1.0))];
      && StoreCallFor(t, None) == AddExternalStatistics([StatisticPoint(0, 1.0, 1.0)])
      && StoreCallFor(t, Some(LastStatistic(0, 1.0))) == AddExternalStatistics([StatisticPoint(0, 1.0, 2.0)])
  {
    var t := [Entry(0, EmptyBucket(0).(day := 1.0))];
    assert t[1..] == [];
    assert Emitted(t, None, 0.0) == [StatisticPoint(0, 1.0, 1.0)];
    assert Emitted(t, Some(0), 1.0) == [StatisticPoint(0, 1.0, 2.0)];
  }

  /**
   * Hours are visited in insertion order, not sorted: when a later hour comes
   * first, the sums written run backwards in `start` order (the 2 h point gets
   * 1.0, the earlier 1 h point 3.0). What a rerun does then depends on which
   * point the recorder reports as the last one: the point written last
   * (1 h, 3.0) lets the 2 h bucket be appended again with sum 4.0, while the
   * point with the latest start (2 h, 1.0) skips both hours.
   */
  lemma OutOfOrderHours()
    ensures var t := [Entry(2 * SecondsPerHour, EmptyBucket(2 * SecondsPerHour).(day := 1.0)),
                      Entry(SecondsPerHour, EmptyBucket(SecondsPerHour).(day := 2.0))];
      && StoreCallFor(t, None) == AddExternalStatistics([StatisticPoint(2 * SecondsPerHour, 1.0, 1.0),
                                                        StatisticPoint(SecondsPerHour, 2.0, 3.0)])
      && StoreCallFor(t, Some(LastStatistic(SecondsPerHour, 3.0)))
         == AddExternalStatistics([StatisticPoint(2 * SecondsPerHour, 1.0, 4.0)])
      && StoreCallFor(t, Some(LastStatistic(2 * SecondsPerHour, 1.0))) == AddExternalStatistics([])
  {
    var e0 := Entry(2 * SecondsPerHour, EmptyBucket(2 * SecondsPerHour).(day := 1.0));
    var e1 := Entry(SecondsPerHour, EmptyBucket(SecondsPerHour).(day := 2.0));
    var t := [e0, e1];
    assert t[1..] == [e1];
    assert [e1][1..] == [];
    assert Emitted([e1], None, 1.0) == [StatisticPoint(e1.hour, 2.0, 3.0)];
    assert Emitted(t, None, 0.0) == [StatisticPoint(e0.hour, 1.0, 1.0)] + Emitted([e1], None, 1.0);
    assert Emitted([e1], Some(SecondsPerHour), 4.0) == [];
    assert Emitted(t, Some(SecondsPerHour), 3.0) == [StatisticPoint(e0.hour, 1.0, 4.0)] + Emitted([e1], Some(SecondsPerHour), 4.0);
    AllProcessedEmitsNothing(t, Some(2 * SecondsPerHour), 1.0);
  }

  /**
   * With no negative `day` in the fetched records, the sums one cycle writes
   * never drop below the stored sum and never decrease from point to point.
   */
  lemma CycleSumsNondecreasing(response: ConsumptionResponse, last: Option<LastStatistic>)
    requires forall i :: 0 <= i < |response.response| ==> response.response[i].day >= 0.0
    ensures CycleStoreCall(response, last).AddExternalStatistics? ==>
      var e := CycleStoreCall(response, last).statistics;
      && (forall i :: 0 <= i < |e| ==> InitialSum(last) <= e[i].sum)
      && (forall i, j :: 0 <= i <= j < |e| ==> e[i].sum <= e[j].sum)
  {
    var cs := Kept(response.response);
    forall k | 0 <= k < |cs|
      ensures cs[k].day >= 0.0
    {
      KeptMembers(response.response, cs[k]);
    }
    var processed := cs[StartIndex(cs)..];
    assert forall k :: 0 <= k < |processed| ==> processed[k] == cs[StartIndex(cs) + k];
    BucketedDayNonNegative(processed);
    var t := HourlySumsOf(cs);
    EmittedSumsNondecreasing(t, LastStatsTime(last), InitialSum(last));
    NondecreasingPairwise(Emitted(t, LastStatsTime(last), InitialSum(last)), InitialSum(last));
  }
}
