/**
 * `_sum_hourly_consumptions`: skipping to the first interval that starts on
 * the hour, then summing day energy into one bucket per hour.
 */
module HourlySums {
  import opened Hours
  import opened Consumption

  /** One item of the returned dict: an hour start and its bucket. */
  datatype Entry = Entry(hour: int, data: ConsumptionData)

  /** A Python dict keyed by hour start, as its items in insertion order. */
  type HourlyTable = seq<Entry>

  /** The position of hour k in the table, or |t| when k is not a key. */
  function FindHour(t: HourlyTable, k: int): (j: nat)
    ensures j <= |t|
    ensures j < |t| ==> t[j].hour == k
    ensures forall i :: 0 <= i < j ==> t[i].hour != k
  {
    if t == [] then 0
    else if t[0].hour == k then 0
    else 1 + FindHour(t[1..], k)
  }

  /** The bucket created the first time hour k is seen. */
  function EmptyBucket(k: int): ConsumptionData {
    ConsumptionData(0.0, 0.0, k, k + SecondsPerHour)
  }

  /** One pass of the summing loop: create the bucket if needed, add `day` into it. */
  function AddConsumption(t: HourlyTable, c: ConsumptionData): HourlyTable {
    var k := HourStart(c.fromDate);
    var j := FindHour(t, k);
    var t' := if j == |t| then t + [Entry(k, EmptyBucket(k))] else t;
    var current := t'[j].data;
    t'[j := Entry(k, current.(day := current.day + c.day))]
  }

  /** The table built from all of cs, in order. */
  function Bucketed(cs: seq<ConsumptionData>): HourlyTable {
    if cs == [] then [] else AddConsumption(Bucketed(cs[..|cs| - 1]), cs[|cs| - 1])
  }

  /** The index of the first interval that starts in minute 0, or |cs| when none does. */
  function FirstTopOfHour(cs: seq<ConsumptionData>): (r: nat)
    ensures r <= |cs|
    ensures r < |cs| ==> IsTopOfHour(cs[r].fromDate)
    ensures forall i :: 0 <= i < r ==> !IsTopOfHour(cs[i].fromDate)
  {
    if cs == [] then 0
    else if IsTopOfHour(cs[0].fromDate) then 0
    else 1 + FirstTopOfHour(cs[1..])
  }

  /** `start_idx`: the first interval starting in minute 0, or 0 when none does. */
  function StartIndex(cs: seq<ConsumptionData>): (r: nat)
    ensures r <= |cs|
    ensures (exists i :: 0 <= i < |cs| && IsTopOfHour(cs[i].fromDate)) ==>
              r < |cs| && IsTopOfHour(cs[r].fromDate) &&
              forall i :: 0 <= i < r ==> !IsTopOfHour(cs[i].fromDate)
    ensures (forall i :: 0 <= i < |cs| ==> !IsTopOfHour(cs[i].fromDate)) ==> r == 0
  {
    var f := FirstTopOfHour(cs);
    if f < |cs| then f else 0
  }

  /** The dict `_sum_hourly_consumptions` returns. */
  function HourlySumsOf(cs: seq<ConsumptionData>): HourlyTable {
    Bucketed(cs[StartIndex(cs)..])
  }

  /** `_sum_hourly_consumptions`. */
  method SumHourlyConsumptions(consumptions: seq<ConsumptionData>) returns (hourlySums: HourlyTable)
    ensures hourlySums == HourlySumsOf(consumptions)
  {
    var startIdx := 0;
    var idx := 0;
    while idx < |consumptions|
      invariant 0 <= idx <= |consumptions|
      invariant forall i :: 0 <= i < idx ==> !IsTopOfHour(consumptions[i].fromDate)
    {
      if consumptions[idx].fromDate % SecondsPerHour < 60 {
        startIdx := idx;
        break;
      }
      idx := idx + 1;
    }
    assert startIdx == StartIndex(consumptions);

    var processed := consumptions[startIdx..];
    hourlySums := [];
    var n := 0;
    while n < |processed|
      invariant 0 <= n <= |processed|
      invariant hourlySums == Bucketed(processed[..n])
    {
      var consumption := processed[n];
      assert processed[..n + 1][..n] == processed[..n];
      var hourKey := consumption.fromDate - consumption.fromDate % SecondsPerHour;
      ghost var before := hourlySums;
      var j := FindHour(hourlySums, hourKey);
      if j == |hourlySums| {
        hourlySums := hourlySums + [Entry(hourKey, ConsumptionData(0.0, 0.0, hourKey, hourKey + SecondsPerHour))];
      }
      var current := hourlySums[j].data;
      hourlySums := hourlySums[j := Entry(hourKey, current.(day := current.day + consumption.day))];
      assert hourlySums == AddConsumption(before, consumption);
      n := n + 1;
    }
    assert processed[..n] == processed;
  }

  /** The hour keys of a table. */
  function KeysOf(t: HourlyTable): set<int> {
    set e | e in t :: e.hour
  }

  /** The hour starts of the intervals in cs. */
  function HoursOf(cs: seq<ConsumptionData>): set<int> {
    set c | c in cs :: HourStart(c.fromDate)
  }

  /** Distinct hour keys; every bucket spans exactly its hour and holds no night energy. */
  predicate WellFormed(t: HourlyTable) {
    && (forall i, j :: 0 <= i < j < |t| ==> t[i].hour != t[j].hour)
    && forall i :: 0 <= i < |t| ==>
         && IsHourAligned(t[i].hour)
         && t[i].data.fromDate == t[i].hour
         && t[i].data.toDate == t[i].hour + SecondsPerHour
         && t[i].data.night == 0.0
  }

  /** Day energy of the intervals in cs that start in hour k. */
  function DayInHour(cs: seq<ConsumptionData>, k: int): real {
    if cs == [] then 0.0
    else
      var c := cs[|cs| - 1];
      DayInHour(cs[..|cs| - 1], k) + (if HourStart(c.fromDate) == k then c.day else 0.0)
  }

  /** Day energy of all intervals in cs. */
  function TotalDay(cs: seq<ConsumptionData>): real {
    if cs == [] then 0.0 else TotalDay(cs[..|cs| - 1]) + cs[|cs| - 1].day
  }

  /** Day energy of all buckets of a table. */
  function TableDay(t: HourlyTable): real {
    if t == [] then 0.0 else TableDay(t[..|t| - 1]) + t[|t| - 1].data.day
  }

  /** Interval starts never go backwards. */
  predicate StartsAscending(cs: seq<ConsumptionData>) {
    forall i, j :: 0 <= i < j < |cs| ==> cs[i].fromDate <= cs[j].fromDate
  }

  /** Hour keys strictly increase in iteration order. */
  predicate HoursIncreasing(t: HourlyTable) {
    forall i, j :: 0 <= i < j < |t| ==> t[i].hour < t[j].hour
  }

  /** Adding an interval keeps every existing key in place and appends its hour only when new. */
  lemma AddConsumptionShape(t: HourlyTable, c: ConsumptionData)
    ensures var t' := AddConsumption(t, c);
      && |t'| == (if HourStart(c.fromDate) in KeysOf(t) then |t| else |t| + 1)
      && (forall i :: 0 <= i < |t| ==> t'[i].hour == t[i].hour)
      && (|t'| > |t| ==> t'[|t|].hour == HourStart(c.fromDate))
      && KeysOf(t') == KeysOf(t) + {HourStart(c.fromDate)}
  {
    var k := HourStart(c.fromDate);
    var j := FindHour(t, k);
    var t' := AddConsumption(t, c);
    if j < |t| {
      assert t[j] in t;
    } else {
      assert k !in KeysOf(t);
    }
    assert t'[j].hour == k;
    forall h | h in KeysOf(t') ensures h in KeysOf(t) + {k} {
      var e :| e in t' && e.hour == h;
      var i :| 0 <= i < |t'| && t'[i] == e;
      if i < |t| { assert t[i] in t; }
    }
    forall h | h in KeysOf(t) + {k} ensures h in KeysOf(t') {
      if h == k {
        assert t'[j] in t';
      } else {
        var e :| e in t && e.hour == h;
        var i :| 0 <= i < |t| && t[i] == e;
        assert t'[i] in t';
      }
    }
  }

  /** Every table built by the summing loop is well formed. */
  lemma {:induction false} BucketedWellFormed(cs: seq<ConsumptionData>)
    ensures WellFormed(Bucketed(cs))
  {
    if cs != [] {
      var t := Bucketed(cs[..|cs| - 1]);
      BucketedWellFormed(cs[..|cs| - 1]);
      AddConsumptionShape(t, cs[|cs| - 1]);
    }
  }

  /** The keys are exactly the hours in which some interval starts. */
  lemma {:induction false} BucketedKeys(cs: seq<ConsumptionData>)
    ensures KeysOf(Bucketed(cs)) == HoursOf(cs)
  {
    if cs != [] {
      var init := cs[..|cs| - 1];
      var c := cs[|cs| - 1];
      BucketedKeys(init);
      AddConsumptionShape(Bucketed(init), c);
      assert cs == init + [c];
      assert HoursOf(cs) == HoursOf(init) + {HourStart(c.fromDate)};
    }
  }

  /** No energy is attributed to an hour in which no interval starts. */
  lemma {:induction false} DayInAbsentHour(cs: seq<ConsumptionData>, k: int)
    requires k !in HoursOf(cs)
    ensures DayInHour(cs, k) == 0.0
  {
    if cs != [] {
      var init := cs[..|cs| - 1];
      assert HoursOf(init) <= HoursOf(cs);
      assert cs[|cs| - 1] in cs;
      DayInAbsentHour(init, k);
    }
  }

  /** Each bucket holds the day energy of exactly the intervals that start in its hour. */
  lemma {:induction false} BucketedDay(cs: seq<ConsumptionData>, i: int)
    requires 0 <= i < |Bucketed(cs)|
    ensures Bucketed(cs)[i].data.day == DayInHour(cs, Bucketed(cs)[i].hour)
  {
    var init := cs[..|cs| - 1];
    var c := cs[|cs| - 1];
    var t := Bucketed(init);
    var k := HourStart(c.fromDate);
    var j := FindHour(t, k);
    AddConsumptionShape(t, c);
    assert cs == init + [c];
    if i < |t| {
      BucketedDay(init, i);
      BucketedWellFormed(init);
      if t[i].hour == k {
        assert i == j;
      } else {
        assert i != j;
      }
    } else {
      BucketedKeys(init);
      DayInAbsentHour(init, k);
    }
  }

  /** An hour receives no negative energy when no interval carries negative energy. */
  lemma {:induction false} DayInHourNonNegative(cs: seq<ConsumptionData>, k: int)
    requires forall i :: 0 <= i < |cs| ==> cs[i].day >= 0.0
    ensures DayInHour(cs, k) >= 0.0
  {
    if cs != [] {
      var init := cs[..|cs| - 1];
      assert forall i :: 0 <= i < |init| ==> init[i] == cs[i];
      DayInHourNonNegative(init, k);
    }
  }

  /** Intervals with no negative energy give buckets with no negative energy. */
  lemma BucketedDayNonNegative(cs: seq<ConsumptionData>)
    requires forall i :: 0 <= i < |cs| ==> cs[i].day >= 0.0
    ensures forall i :: 0 <= i < |Bucketed(cs)| ==> Bucketed(cs)[i].data.day >= 0.0
  {
    forall i | 0 <= i < |Bucketed(cs)|
      ensures Bucketed(cs)[i].data.day >= 0.0
    {
      BucketedDay(cs, i);
      DayInHourNonNegative(cs, Bucketed(cs)[i].hour);
    }
  }

  /** Replacing one bucket changes the table total by the difference of the two days. */
  lemma {:induction false} TableDayUpdate(t: HourlyTable, j: int, e: Entry)
    requires 0 <= j < |t|
    ensures TableDay(t[j := e]) == TableDay(t) - t[j].data.day + e.data.day
  {
    var init := t[..|t| - 1];
    if j == |t| - 1 {
      assert t[j := e][..|t| - 1] == init;
    } else {
      assert t[j := e][..|t| - 1] == init[j := e];
      TableDayUpdate(init, j, e);
    }
  }

  /** Summing into buckets neither loses nor invents day energy. */
  lemma {:induction false} BucketedTotal(cs: seq<ConsumptionData>)
    ensures TableDay(Bucketed(cs)) == TotalDay(cs)
  {
    if cs != [] {
      var init := cs[..|cs| - 1];
      var c := cs[|cs| - 1];
      var t := Bucketed(init);
      var k := HourStart(c.fromDate);
      var j := FindHour(t, k);
      var t' := if j == |t| then t + [Entry(k, EmptyBucket(k))] else t;
      BucketedTotal(init);
      if j == |t| {
        assert t'[..|t'| - 1] == t;
      }
      TableDayUpdate(t', j, Entry(k, t'[j].data.(day := t'[j].data.day + c.day)));
    }
  }

  /** Intervals delivered in time order give hour keys in increasing order. */
  lemma {:induction false} BucketedAscending(cs: seq<ConsumptionData>)
    requires StartsAscending(cs)
    ensures HoursIncreasing(Bucketed(cs))
  {
    if cs != [] {
      var init := cs[..|cs| - 1];
      var c := cs[|cs| - 1];
      var t := Bucketed(init);
      var k := HourStart(c.fromDate);
      BucketedAscending(init);
      BucketedKeys(init);
      AddConsumptionShape(t, c);
      forall i | 0 <= i < |t| ensures t[i].hour <= k {
        assert t[i] in t;
        assert t[i].hour in HoursOf(init);
        var d :| d in init && HourStart(d.fromDate) == t[i].hour;
        HourStartMonotone(d.fromDate, c.fromDate);
      }
    }
  }

  /** Intervals before the first one that starts in minute 0 contribute nothing. */
  lemma SkipsLeadingPartialHour(p: seq<ConsumptionData>, s: seq<ConsumptionData>)
    requires forall i :: 0 <= i < |p| ==> !IsTopOfHour(p[i].fromDate)
    requires s != [] && IsTopOfHour(s[0].fromDate)
    ensures HourlySumsOf(p + s) == Bucketed(s)
  {
    var cs := p + s;
    assert IsTopOfHour(cs[|p|].fromDate);
    assert cs[|p|..] == s;
  }

  /** When no interval starts in minute 0, every interval is summed. */
  lemma NoTopOfHourSumsAll(cs: seq<ConsumptionData>)
    requires forall i :: 0 <= i < |cs| ==> !IsTopOfHour(cs[i].fromDate)
    ensures HourlySumsOf(cs) == Bucketed(cs)
  {
    assert cs[0..] == cs;
  }
}
