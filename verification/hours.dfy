/**
 * Wall-clock time as whole seconds since the epoch. The coordinator works on
 * `datetime` values; with a whole-hour UTC offset, "the minute of a datetime"
 * and "the start of its hour" depend only on the timestamp modulo one hour,
 * which is what this module captures.
 */
module Hours {

  /** Length of one hour, the width of every bucket. */
  const SecondsPerHour: int := 3600

  predicate IsHourAligned(t: int) {
    t % SecondsPerHour == 0
  }

  /** `t.replace(minute=0, second=0, microsecond=0)`: the start of t's hour. */
  function HourStart(t: int): (h: int)
    ensures IsHourAligned(h)
    ensures h <= t < h + SecondsPerHour
  {
    t - t % SecondsPerHour
  }

  /** `t.minute == 0`: t lies in the first minute of its hour. */
  predicate IsTopOfHour(t: int) {
    t % SecondsPerHour < 60
  }

  /** An hour start is the only hour-aligned instant at most one hour before t. */
  lemma HourStartUnique(t: int, h: int)
    requires IsHourAligned(h) && h <= t < h + SecondsPerHour
    ensures HourStart(t) == h
  {
    var g := HourStart(t);
    assert g == (g / SecondsPerHour) * SecondsPerHour;
    assert h == (h / SecondsPerHour) * SecondsPerHour;
  }

  /** Truncating to the hour never reverses the order of two instants. */
  lemma HourStartMonotone(a: int, b: int)
    requires a <= b
    ensures HourStart(a) <= HourStart(b)
  {
    if HourStart(a) > HourStart(b) {
      HourStartUnique(b, HourStart(b));
      assert HourStart(b) < HourStart(a) <= b;
      HourStartUnique(b, HourStart(a));
    }
  }
}
