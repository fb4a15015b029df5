# AIL energy consumption pipeline: a Dafny model

This project models the consumption pipeline of the AIL energy integration for
Home Assistant (`custom_components/ail/coordinator.py`). Every hour the
integration fetches the meter's interval readings from the AIL portal. It then
folds them into the cumulative long-term statistic `ail:energy_consumption`
in three steps, each modelled as an imperative Dafny method that is proved
against a specification function:

1. **Record filter** (`ConsumptionData.from_api_response`): keeps the records
   whose `readings_count` is not None, in response order, copying `day`,
   `night`, `from` and `to`. Modelled by `Consumption.FromApiResponse`, with
   the specification `Consumption.Kept`.
2. **Hourly bucketing** (`_sum_hourly_consumptions`): skips to the first
   interval that starts in minute 0, then adds each interval's `day` into a
   bucket for its hour. The bucket is created the first time the hour is seen.
   `night` is never accumulated. Modelled by
   `HourlySums.SumHourlyConsumptions`, with the specification
   `HourlySums.HourlySumsOf` and `HourlySums.Bucketed`.
3. **Statistics merge** (`_insert_statistics`): reads the last stored point
   (its `start` is the watermark, its `sum` the running total). It walks the
   buckets in dict order and skips every hour at or before a truthy watermark.
   For each remaining hour it appends `(start=hour, state=day, sum=running)`.
   Modelled by `StatisticsLedger.InsertStatistics`, with the specification
   `StatisticsLedger.StoreCallFor` and `StatisticsLedger.Emitted`.

`Pipeline` chains the three steps as the update cycle does. It also holds
worked scenarios. One shows how a watermark of 0 lets the ledger count an
hour twice. Another shows that hours not in increasing order are written with
sums that run backwards in `start` order; whether a rerun then counts an hour
twice depends on which point the recorder reports as the last one (the point
written last does, the point with the latest `start` does not).

Modelling choices:

- Instants are whole seconds since the epoch (`int`). The start of an hour is
  `t - t % 3600`, and "minute == 0" is `t % 3600 < 60`. Both assume the local
  time zone's offset from UTC is a whole number of hours.
- Energy values are `real`.
- A Python dict is a sequence of `Entry(hour, data)` items in insertion order
  with distinct hours (`HourlySums.WellFormed`).
- The recorder is abstracted. The last stored point is an input
  (`Option<LastStatistic>`). The effect is a `StoreCall`: `NoStoreAccess` for
  the early return on an empty dict (no query, no write), or
  `AddExternalStatistics(points)` for the single write, which may be of an
  empty list.
- `current.day += consumption.day` mutates a bucket object that only the dict
  refers to. It is modelled as replacing that dict item.

The code does not do the following, and neither does the model:

- filter intervals by a completeness (sample-count) threshold;
- keep a night or total series, or reclassify energy by hour of day;
- sort the hours before appending them (they are visited in insertion order);
- treat a watermark of 0 as a watermark (it is falsy and skips nothing);
- skip the write when a non-empty dict has all its hours skipped (an empty
  list is written);
- backfill hours at or before the watermark.

## Model

| member | source | states |
|---|---|---|
| `Hours.HourStart` | custom_components/ail/coordinator.py:121 | the hour key is hour-aligned and is the last aligned instant at or before the interval start |
| `Hours.HourStartMonotone` | custom_components/ail/coordinator.py:121 | truncating to the hour preserves the order of instants |
| `Consumption.Get` | custom_components/ail/coordinator.py:35-37 | a lookup succeeds exactly for the four attribute names `day`, `night`, `from_date`, `to_date` (otherwise `getattr` raises) |
| `Consumption.GetRoundTrip` | custom_components/ail/coordinator.py:30-37 | `get("day")`, `get("night")`, `get("from_date")`, `get("to_date")` return exactly the value's own four fields, so the value is rebuilt from them |
| `Consumption.HasReadings` | custom_components/ail/coordinator.py:44 | (definition) a record is kept when its `readings_count` is not None |
| `Consumption.ToData` | custom_components/ail/coordinator.py:46-51 | (definition) the value built from a record copies `day`, `night`, `from` and `to` |
| `Consumption.Kept` | custom_components/ail/coordinator.py:41-53 | (specification of the filter) the copies of the records with readings, in order; characterised by the `Kept*` lemmas below |
| `Consumption.GetDeterminesData` | custom_components/ail/coordinator.py:26-37 | two values that `get` cannot tell apart by any attribute name are equal |
| `Consumption.FromApiResponse` | custom_components/ail/coordinator.py:39-53 | the loop returns exactly `Kept(response)`: the copies of the records with a readings count, in order |
| `Consumption.KeptAppend` | custom_components/ail/coordinator.py:42-52 | the filter keeps input order: filtering a concatenation concatenates the filtered parts |
| `Consumption.KeptSingle` | custom_components/ail/coordinator.py:44-52 | one record is kept, with `day`/`night`/`from`/`to` copied unchanged, iff its `readings_count` is not None |
| `Consumption.KeptLength` | custom_components/ail/coordinator.py:41-53 | output length is at most input length, with equality iff every record has a readings count |
| `Consumption.KeptMembers` | custom_components/ail/coordinator.py:42-52 | a value is in the output iff it is the copy of some input record with a readings count |
| `Hours.IsTopOfHour` | custom_components/ail/coordinator.py:115 | (definition) an instant lies in minute 0 of its hour |
| `HourlySums.EmptyBucket` | custom_components/ail/coordinator.py:123-128 | (definition) a new bucket for an hour: `day` = `night` = 0.0, from the hour to one hour later |
| `HourlySums.AddConsumption` | custom_components/ail/coordinator.py:121-131 | (specification of one loop step) create the hour's bucket if absent, then add the interval's `day` to it; characterised by `AddConsumptionShape` |
| `HourlySums.Bucketed` | custom_components/ail/coordinator.py:119-131 | (specification of the second loop) the steps applied to each interval in order; characterised by the `Bucketed*` lemmas |
| `HourlySums.HourlySumsOf` | custom_components/ail/coordinator.py:107-133 | (specification of `_sum_hourly_consumptions`) the buckets of the intervals from `start_idx` on |
| `HourlySums.FindHour` | custom_components/ail/coordinator.py:122 | dict membership: the index of the hour's item, or the length when the hour is not yet a key |
| `HourlySums.FirstTopOfHour` | custom_components/ail/coordinator.py:113-117 | the first index whose start minute is 0, with no earlier one, or the length when there is none |
| `HourlySums.StartIndex` | custom_components/ail/coordinator.py:112-117 | `start_idx` is the first interval starting in minute 0 when one exists, and 0 when none does |
| `HourlySums.SumHourlyConsumptions` | custom_components/ail/coordinator.py:107-133 | the two loops return the table obtained by adding every interval from `start_idx` on, in order |
| `HourlySums.AddConsumptionShape` | custom_components/ail/coordinator.py:121-128 | one step keeps every existing key in place, and appends the interval's hour only when it is new |
| `HourlySums.BucketedWellFormed` | custom_components/ail/coordinator.py:121-128 | keys are distinct and hour-aligned; every bucket has `from_date` = key, `to_date` = key + 1 h and `night` = 0.0 |
| `HourlySums.BucketedKeys` | custom_components/ail/coordinator.py:120-128 | the keys are exactly the hours in which some processed interval starts |
| `HourlySums.DayInAbsentHour` | custom_components/ail/coordinator.py:124-131 | an hour in which no interval starts receives no energy |
| `HourlySums.BucketedDay` | custom_components/ail/coordinator.py:124-131 | each bucket's `day` is the sum of `day` over the processed intervals that start in its hour |
| `HourlySums.DayInHourNonNegative` | custom_components/ail/coordinator.py:124-131 | an hour's energy is not negative when no interval's `day` is |
| `HourlySums.BucketedDayNonNegative` | custom_components/ail/coordinator.py:119-131 | intervals with no negative `day` give buckets with no negative `day` |
| `HourlySums.TableDayUpdate` | custom_components/ail/coordinator.py:130-131 | updating one bucket in place changes the total by exactly that bucket's change |
| `HourlySums.BucketedTotal` | custom_components/ail/coordinator.py:120-131 | the buckets' `day` values add up to the processed intervals' `day` values |
| `HourlySums.BucketedAscending` | custom_components/ail/coordinator.py:120-128 | intervals in time order give keys in strictly increasing insertion order |
| `HourlySums.SkipsLeadingPartialHour` | custom_components/ail/coordinator.py:112-120 | intervals before the first one starting in minute 0 are ignored |
| `HourlySums.NoTopOfHourSumsAll` | custom_components/ail/coordinator.py:113-120 | when no interval starts in minute 0, every interval is processed |
| `StatisticsLedger.LastStatsTime` | custom_components/ail/coordinator.py:147-149 | (definition) the watermark is the stored point's `start`, or None when nothing is stored |
| `StatisticsLedger.InitialSum` | custom_components/ail/coordinator.py:158 | (definition) the running sum starts at the stored point's `sum`, or 0.0 when nothing is stored |
| `StatisticsLedger.AlreadyProcessed` | custom_components/ail/coordinator.py:164 | (definition) an hour is skipped when the watermark is truthy (present and nonzero) and the hour is at or before it |
| `StatisticsLedger.Emitted` | custom_components/ail/coordinator.py:162-174 | (specification of the loop) the points appended for the unskipped hours, each carrying the running sum; characterised by the `Emitted*` lemmas |
| `StatisticsLedger.Pending` | custom_components/ail/coordinator.py:162-165 | the hours the loop keeps are never more than the hours it visits |
| `StatisticsLedger.PendingMembers` | custom_components/ail/coordinator.py:162-165 | an item is kept iff it is not at or before a truthy watermark |
| `StatisticsLedger.PendingAppend` | custom_components/ail/coordinator.py:162-165 | skipping keeps iteration order |
| `StatisticsLedger.StoreCallFor` | custom_components/ail/coordinator.py:138-140 | the recorder is neither queried nor written iff the dict is empty |
| `StatisticsLedger.InsertStatistics` | custom_components/ail/coordinator.py:135-182 | the loop makes exactly the recorder call `StoreCallFor`: no access for an empty dict, else one write of the emitted points |
| `StatisticsLedger.EmittedFromSuffix` | custom_components/ail/coordinator.py:162-174 | the loop's view from position i equals the points emitted for the items from i on |
| `StatisticsLedger.EmittedFollowsPending` | custom_components/ail/coordinator.py:162-174 | one point per kept hour, in iteration order, with `start` = hour and `state` = that bucket's `day` |
| `StatisticsLedger.NothingAtOrBeforeWatermark` | custom_components/ail/coordinator.py:164 | with a nonzero watermark, every emitted point starts strictly after it |
| `StatisticsLedger.EmittedRunningSum` | custom_components/ail/coordinator.py:158-174 | the first point's sum is the stored sum (or 0.0) plus its state; each later sum is the previous sum plus its state |
| `StatisticsLedger.EmittedFinalSum` | custom_components/ail/coordinator.py:158-174 | the final running sum is the starting sum plus the total of the emitted states |
| `StatisticsLedger.NondecreasingPairwise` | custom_components/ail/coordinator.py:166-174 | step-by-step non-decreasing sums are non-decreasing between any two points |
| `StatisticsLedger.EmittedSumsNondecreasing` | custom_components/ail/coordinator.py:166-174 | with no negative consumption, the cumulative sum never decreases and never drops below the stored sum |
| `StatisticsLedger.ZeroWatermarkSkipsNothing` | custom_components/ail/coordinator.py:164 | a stored start of 0 is falsy: every hour is kept |
| `StatisticsLedger.AllProcessedEmitsNothing` | custom_components/ail/coordinator.py:162-165 | when every hour is at or before the watermark, nothing is emitted |
| `StatisticsLedger.UnprocessedIsEmitted` | custom_components/ail/coordinator.py:162-168 | any hour after the watermark yields at least one point |
| `StatisticsLedger.LastEmittedIsLastHour` | custom_components/ail/coordinator.py:162-174 | with increasing hours, the last emitted point is the dict's last hour |
| `StatisticsLedger.RerunAppendsNothing` | custom_components/ail/coordinator.py:143-174 | idempotence: with increasing hours and a non-empty first write whose last point has a nonzero `start`, once that point is stored a second run writes an empty list |
| `Pipeline.CycleStoreCall` | custom_components/ail/coordinator.py:81-99 | (definition) the recorder effect of one cycle: filter, bucket, then `_insert_statistics` |
| `Pipeline.BucketedNonEmpty` | custom_components/ail/coordinator.py:119-131 | summing a non-empty list of intervals gives at least one bucket |
| `Pipeline.CycleSumsNondecreasing` | custom_components/ail/coordinator.py:81-99 | with no negative `day` in the fetched records, the sums one cycle writes never drop below the stored sum and never decrease |
| `Pipeline.StoreTouchedIffReadings` | custom_components/ail/coordinator.py:81-99 | a cycle reaches the recorder iff some fetched record has a readings count |
| `Pipeline.QuarterReadingsKept` | custom_components/ail/coordinator.py:40-53 | four counted quarter-hour records are all kept, in order |
| `Pipeline.QuarterReadingsBucketed` | custom_components/ail/coordinator.py:107-133 | four 0.5 kWh quarter-hours from 10:00 fill one 10:00 bucket of 2.0 kWh |
| `Pipeline.QuarterHoursMakeOnePoint` | custom_components/ail/coordinator.py:81-99 | those readings give one point `(10:00, 2.0, prior + 2.0)` after an earlier watermark |
| `Pipeline.FirstMergeThenRerun` | custom_components/ail/coordinator.py:135-182 | into an empty statistic, 10:00 (1.0) and 11:00 (1.5) give sums 1.0 and 2.5; rerunning writes nothing new |
| `Pipeline.ZeroWatermarkCountsTwice` | custom_components/ail/coordinator.py:147-165 | a stored point at instant 0 does not stop the same hour from being appended again |
| `Pipeline.OutOfOrderHours` | custom_components/ail/coordinator.py:143-174 | a dict with a later hour first gets sums that run backwards in `start` order; a rerun re-appends that hour if the recorder reports the point written last, and writes nothing if it reports the point with the latest `start` |

## Left out

- `custom_components/ail/api_client.py` is not part of this model. It holds the login form POST, the scraping of the token and meter ID from HTML, the readings POST and the pydantic JSON parsing. All of this is network I/O or foreign libraries. Its `ConsumptionRecord` and `ConsumptionResponse` appear only as datatypes.
- The update cycle `_async_update_data` (coordinator.py:72-105) is not modelled as a method. That covers the login, the `datetime.now()` fetch window, the returned `consumption_data[-1]` and the wrapping of errors into `UpdateFailed` or `ConfigEntryAuthFailed`. Its empty-data branch builds `ConsumptionData(total=...)`, a field that does not exist. That raises `TypeError`, which then becomes `UpdateFailed`. Only the recorder effect of chaining the three steps is modelled (`Pipeline.CycleStoreCall`), and it agrees with that branch because it does not touch the recorder either.
- The recorder functions `get_last_statistics` and `async_add_external_statistics` are foreign. They are abstracted as the input last point and the output `StoreCall`. The statistic metadata is not modelled.
- Floating-point rounding is not modelled: energy values are `real`.
- Time zones, DST and sub-second parts of `datetime` are not modelled: instants are whole epoch seconds, and whole-hour UTC offsets are assumed. The recorder's `start` is a float timestamp in the source and an `int` here.
- A JSON `null` for `day` or `night` is not modelled: both are optional floats in the parsed response, and the model's values are always numbers. In the source a null `day` survives the filter and makes `current.day += consumption.day` raise `TypeError`; a null `night` survives into the filtered values but is harmless, because `night` is never summed.
- Logging (`_LOGGER.debug`, `.warning` and `.error` at coordinator.py:82, 90, 100, 104 and 139) has no effect on the data or the recorder and is not modelled.
- Which stored point `get_last_statistics` reports as the last one (the latest `start`, or the last written) is recorder behaviour outside this code; the model takes the point as an input, and `Pipeline.OutOfOrderHours` shows both readings.
- `Consumption.Get` returns None for every name other than the four fields. Python's `getattr` would also return methods and dunder attributes.
- `is_pending` is carried in `ConsumptionRecord`, but the source's filter ignores it, and so does the model.
