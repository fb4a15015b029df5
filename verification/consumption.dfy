/**
 * The records of the portal's readings response and the `ConsumptionData`
 * values the coordinator builds from them.
 */
module Consumption {
  import opened Wrappers

  /** One interval of the readings response (`ConsumptionRecord`). */
  datatype ConsumptionRecord = ConsumptionRecord(
    day: real,
    night: real,
    from: int,
    to: int,
    isPending: bool,
    readingsCount: Option<int>)

  /** The parsed response body: `{"response": [...]}`. */
  datatype ConsumptionResponse = ConsumptionResponse(response: seq<ConsumptionRecord>)

  /** Day and night energy of one interval, with its start and end instants. */
  datatype ConsumptionData = ConsumptionData(day: real, night: real, fromDate: int, toDate: int)

  /** A value `ConsumptionData.get` can return: an energy or an instant. */
  datatype Attribute = Energy(kwh: real) | Instant(t: int)

  /** The attribute names of a `ConsumptionData`. */
  const FieldNames: seq<string> := ["day", "night", "from_date", "to_date"]

  /**
   * `get(property_name)`: the attribute of that name, or None where Python's
   * `getattr` raises AttributeError.
   */
  function Get(c: ConsumptionData, propertyName: string): (r: Option<Attribute>)
    ensures r.Some? <==> propertyName in FieldNames
  {
    match propertyName
    case "day" => Some(Energy(c.day))
    case "night" => Some(Energy(c.night))
    case "from_date" => Some(Instant(c.fromDate))
    case "to_date" => Some(Instant(c.toDate))
    case _ => None
  }

  /** Two values that agree on every named attribute are the same value. */
  lemma GetDeterminesData(a: ConsumptionData, b: ConsumptionData)
    requires forall name :: name in FieldNames ==> Get(a, name) == Get(b, name)
    ensures a == b
  {
    assert Get(a, FieldNames[0]) == Get(b, FieldNames[0]);
    assert Get(a, FieldNames[1]) == Get(b, FieldNames[1]);
    assert Get(a, FieldNames[2]) == Get(b, FieldNames[2]);
    assert Get(a, FieldNames[3]) == Get(b, FieldNames[3]);
  }

  /** Reading the four attributes by name gives back the value's own fields. */
  lemma GetRoundTrip(c: ConsumptionData)
    ensures Get(c, "day") == Some(Energy(c.day)) && Get(c, "night") == Some(Energy(c.night))
    ensures Get(c, "from_date") == Some(Instant(c.fromDate)) && Get(c, "to_date") == Some(Instant(c.toDate))
    ensures ConsumptionData(Get(c, "day").value.kwh, Get(c, "night").value.kwh,
                            Get(c, "from_date").value.t, Get(c, "to_date").value.t) == c
  {
  }

  /** A record is kept when its `readings_count` is not None. */
  predicate HasReadings(r: ConsumptionRecord) {
    r.readingsCount.Some?
  }

  /** The `ConsumptionData` built from one record: its four values copied. */
  function ToData(r: ConsumptionRecord): ConsumptionData {
    ConsumptionData(r.day, r.night, r.from, r.to)
  }

  /** The data of the records with readings, in response order. */
  function Kept(rs: seq<ConsumptionRecord>): seq<ConsumptionData> {
    if rs == [] then []
    else
      var last := rs[|rs| - 1];
      Kept(rs[..|rs| - 1]) + (if HasReadings(last) then [ToData(last)] else [])
  }

  /** `ConsumptionData.from_api_response`. */
  method FromApiResponse(data: ConsumptionResponse) returns (statistics: seq<ConsumptionData>)
    ensures statistics == Kept(data.response)
  {
    statistics := [];
    var i := 0;
    while i < |data.response|
      invariant 0 <= i <= |data.response|
      invariant statistics == Kept(data.response[..i])
    {
      var record := data.response[i];
      assert data.response[..i + 1][..i] == data.response[..i];
      if record.readingsCount.Some? {
        statistics := statistics + [ConsumptionData(record.day, record.night, record.from, record.to)];
      }
      i := i + 1;
    }
    assert data.response[..i] == data.response;
  }

  /** Filtering distributes over concatenation: input order is kept. */
  lemma {:induction false} KeptAppend(a: seq<ConsumptionRecord>, b: seq<ConsumptionRecord>)
    ensures Kept(a + b) == Kept(a) + Kept(b)
  {
    if b == [] {
      assert a + b == a;
    } else {
      var b' := b[..|b| - 1];
      assert (a + b)[..|a + b| - 1] == a + b';
      assert (a + b)[|a + b| - 1] == b[|b| - 1];
      KeptAppend(a, b');
    }
  }

  /** A single record is kept, copied unchanged, exactly when it has readings. */
  lemma KeptSingle(r: ConsumptionRecord)
    ensures Kept([r]) == if HasReadings(r) then [ToData(r)] else []
  {
    assert [r][..0] == [];
  }

  /** The output is never longer than the input, and is as long only when every record has readings. */
  lemma {:induction false} KeptLength(rs: seq<ConsumptionRecord>)
    ensures |Kept(rs)| <= |rs|
    ensures |Kept(rs)| == |rs| <==> forall i :: 0 <= i < |rs| ==> HasReadings(rs[i])
  {
    if rs != [] {
      var init := rs[..|rs| - 1];
      KeptLength(init);
      if !HasReadings(rs[|rs| - 1]) {
        assert |Kept(rs)| < |rs|;
      } else if |Kept(rs)| != |rs| {
        var i :| 0 <= i < |init| && !HasReadings(init[i]);
        assert rs[i] == init[i];
      }
    }
  }

  /** Every output value is the copy of an input record that has readings, and every such record is copied. */
  lemma {:induction false} KeptMembers(rs: seq<ConsumptionRecord>, x: ConsumptionData)
    ensures x in Kept(rs) <==> exists i :: 0 <= i < |rs| && HasReadings(rs[i]) && x == ToData(rs[i])
  {
    if rs != [] {
      var init := rs[..|rs| - 1];
      KeptMembers(init, x);
      if exists i :: 0 <= i < |rs| && HasReadings(rs[i]) && x == ToData(rs[i]) {
        var i :| 0 <= i < |rs| && HasReadings(rs[i]) && x == ToData(rs[i]);
        if i < |init| {
          assert init[i] == rs[i];
        }
      }
      if x in Kept(init) {
        var i :| 0 <= i < |init| && HasReadings(init[i]) && x == ToData(init[i]);
        assert rs[i] == init[i];
      }
    }
  }
}
