# Energy telemetry ingestion and efficiency analytics, in Dafny

This project models the two services of a fleet-charging telemetry backend.

- **Ingestion.** The ingestion service takes an untyped reading and sorts it by field sniffing. A reading is a grid meter reading (AC energy consumed, voltage) or a vehicle battery reading (DC energy delivered, state of charge, battery temperature). Each accepted reading is written twice:
  - one immutable row is appended to that stream's history log;
  - the entity's current-status row is overwritten, and the last arrival wins.

  The service also registers vehicle-to-meter mappings as unique pairs.
- **Analytics.** The analytics service reads the same tables.
  - `getPerformance` joins a vehicle's readings from the last 24 hours with the readings of its mapped meters, matching within five minutes. It then sums DC and AC energy, computes the DC/AC efficiency ratio and raises an alert below 85 %.
  - Two status readers return the current-status row of a vehicle or of a meter.

Files:

- `wrappers.dfy` (module `Wrappers`): `Option` and `Result`.
- `telemetry.dfy` (module `Telemetry`): the table rows and the mapping pair. It also defines the meaning of a current-status table: the table you get by replaying the history log in arrival order (`MeterCurrentOf`, `VehicleCurrentOf`). It proves that the last arrival wins whatever the timestamps.
- `ingestion.dfy` (module `Ingestion`): the payload, the router `Classify` and the class `IngestionService`. The class holds the five collections as fields: two `seq` history logs, two `map` status tables and a `set` of mapping pairs. Its methods perform the dual writes. Its invariant `Valid()` says that each status table is the replay of its log.
- `analytics.dfy` (module `Analytics`): the SQL query of `getPerformance`, written as explicit functions. It has lemmas about which rows the join produces, when the result is NotFound, how often a reading is counted, and the ratio and alert. It also has the two status readers.

Energy, voltage, state of charge and temperature are Dafny `real`s. Timestamps are `int` seconds. The query's `NOW()` is the parameter `now`.

The model follows the code as written, including these behaviours:

- **Both shapes.** A payload that has both the meter shape and the vehicle shape goes to the meter path.
- **No mapping.** The mapping join is an inner join. A vehicle with readings but no mapped meter gets NotFound.
- **Joined rows.** `total_dc`, `total_ac`, `record_count` and the average battery temperature are taken over the joined rows. A vehicle reading counts once per matching meter reading, and once per mapped meter that has no match. A meter reading counts once per vehicle reading it is within tolerance of.
- **Window.** The window has only a lower bound (`ts >= now - 86400`). Readings stamped after `now` take part.
- **Alert.** The alert compares the unrounded DC/AC quotient with 0.85, before the ratio is rounded for the answer.
- **Validation.** The service itself does no field validation. Fields that are missing besides the routing fields reach the history insert, and that insert is refused (see `Ingestion.MeterRow`).

## Model

| member | source | states |
|---|---|---|
| `Telemetry.MeterCurrentOf` | src/ingestion/ingestion.service.ts:40-48 | replaying the meter log through the upsert gives a table whose keys are exactly the meter ids that occur in the log |
| `Telemetry.VehicleCurrentOf` | src/ingestion/ingestion.service.ts:71-80 | the same for the vehicle log: a key is present exactly when some reading for that vehicle was ingested |
| `Telemetry.MeterLastWriteWins` | src/ingestion/ingestion.service.ts:40-48 | a meter's status row is the one written by the last reading to arrive for it, whatever the readings' timestamps |
| `Telemetry.VehicleLastWriteWins` | src/ingestion/ingestion.service.ts:71-80 | a vehicle's status row holds the soc, battery temperature, DC energy and timestamp of the last reading to arrive for it |
| `Ingestion.Classify` | src/ingestion/ingestion.service.ts:93-113 | routes to the meter path iff meterId is non-empty and kwhConsumedAc is defined; otherwise to the vehicle path iff vehicleId is non-empty and kwhDeliveredDc is defined; otherwise unrouted; the DTO carries the payload's fields unchanged |
| `Ingestion.MeterRow` | src/ingestion/ingestion.service.ts:32-37 | the meter history insert succeeds iff voltage and timestamp are present (NOT NULL columns), and then stores exactly the DTO's four fields |
| `Ingestion.VehicleRow` | src/ingestion/ingestion.service.ts:62-68 | the vehicle history insert succeeds iff soc, batteryTemp and timestamp are present, and then stores exactly the DTO's five fields |
| `Ingestion.MeterPayloadRoundTrip` | src/ingestion/ingestion.service.ts:94-100 | a complete meter payload with a non-empty id is routed to the meter path and yields the original reading |
| `Ingestion.VehiclePayloadRoundTrip` | src/ingestion/ingestion.service.ts:103-110 | a complete vehicle payload with a non-empty id is routed to the vehicle path and yields the original reading |
| `Ingestion.IngestionService.constructor` | src/ingestion/ingestion.service.ts:15-26 | the service starts with empty logs, tables and mapping set, and satisfies its invariant |
| `Ingestion.IngestionService.IngestMeter` | src/ingestion/ingestion.service.ts:28-55 | appends exactly one row to the meter log, overwrites the status row of that meter only, leaves the vehicle side and mappings unchanged, keeps status == replay(log), returns "meter data saved" with the id and timestamp |
| `Ingestion.IngestionService.IngestVehicle` | src/ingestion/ingestion.service.ts:58-87 | appends exactly one row to the vehicle log, overwrites the status row of that vehicle only, leaves the meter side and mappings unchanged, returns "vehicle data saved" with the id and timestamp |
| `Ingestion.IngestionService.IngestPolymorphic` | src/ingestion/ingestion.service.ts:93-114 | an unrouted payload fails with the "Invalid payload" message and changes nothing; a routed payload whose history row is refused changes nothing; otherwise the chosen dual write happens and its acknowledgement is returned |
| `Ingestion.IngestionService.RegisterVehicleMeterMapping` | src/ingestion/ingestion.service.ts:116-130 | the mapping set becomes old + {(vehicleId, meterId)}; a pair already present leaves the set identical; the answer is always "mapping registered" with both ids |
| `Analytics.MappedMeters` | src/analytics/analytics.service.ts:42 | a meter is mapped to a vehicle iff the pair (vehicleId, meterId) is in the mapping set |
| `Analytics.SelectReadings` | src/analytics/analytics.service.ts:47-48 | a reading is selected iff it is in the log, belongs to the requested vehicle and is no older than now - 86400 |
| `Analytics.MatchRows` | src/analytics/analytics.service.ts:43-46 | the matched rows of a reading v are exactly the pairs (v, m) with m in the meter log, m's meter mapped to v's vehicle and v.ts - 300 <= m.ts <= v.ts + 300 |
| `Analytics.UnmatchedMeters` | src/analytics/analytics.service.ts:43-46 | the meters that yield a null row for v are exactly the mapped meters with no reading within tolerance of v |
| `Analytics.InWindow` | src/analytics/analytics.service.ts:47-48 | the WHERE clause: the requested vehicle, and ts >= now - 86400 with no upper bound |
| `Analytics.WithinTolerance` | src/analytics/analytics.service.ts:45-46 | the time part of the LEFT JOIN: v.ts - 300 <= m.ts <= v.ts + 300, both ends inclusive |
| `Analytics.NullRows` | src/analytics/analytics.service.ts:43-46 | n null rows for v: exactly n rows, each pairing v with no meter reading |
| `Analytics.RowsFor` | src/analytics/analytics.service.ts:42-46 | the rows one reading v forms number the matched rows plus the unmatched mapped meters; all are headed by v; the first ones carry a logged meter reading of a mapped meter within tolerance, the rest are null |
| `Analytics.JoinRows` | src/analytics/analytics.service.ts:41-46 | every row of the join of readings vs is headed by a reading of vs, and every non-null row carries a logged meter reading that joins that reading |
| `Analytics.Joined` | src/analytics/analytics.service.ts:41-48 | every row the aggregates run over is headed by a logged reading of the vehicle no older than now - 86400, and every non-null row carries a logged reading of a mapped meter within tolerance of it |
| `Analytics.TotalDc` | src/analytics/analytics.service.ts:24 | SUM(kwh_delivered_dc) over the joined rows, one term per row; not negative when no delivered energy is |
| `Analytics.TotalTemp` | src/analytics/analytics.service.ts:33 | SUM(battery_temp) over the joined rows, one term per row, which AVG divides by the row count; its properties are in `TotalTempFanOut` and `TempSumBounds` |
| `Analytics.TotalAc` | src/analytics/analytics.service.ts:25 | the AC total sums only matched meter readings and is 0 when no row has a meter reading |
| `Analytics.EfficiencyRatio` | src/analytics/analytics.service.ts:26-32 | when AC > 0 the ratio times AC equals DC; otherwise the ratio is 0 (no division by zero) |
| `Analytics.Alert` | src/analytics/analytics.service.ts:35-40 | the alert is present iff AC > 0 and 100·DC < 85·AC (strictly), and then carries the warning text |
| `Analytics.Report` | src/analytics/analytics.service.ts:22-40 | the report names the vehicle; the record count is the number of joined rows; with AC > 0 the ratio times AC equals DC, otherwise the ratio is 0; the alert is present iff AC > 0 and 100·DC < 85·AC over the totals, and then carries the warning text |
| `Analytics.GetPerformance` | src/analytics/analytics.service.ts:19-58 | failure is NotFound with the vehicle's message; a report names the requested vehicle, has a positive record count, and its ratio and alert obey the guarded-division and strict-threshold rules |
| `Analytics.GetCurrentStatus` | src/analytics/analytics.service.ts:65-86 | returns the stored row iff the vehicle id is a key, otherwise NotFound with the vehicle's message |
| `Analytics.GetMeterCurrentStatus` | src/analytics/analytics.service.ts:92-112 | returns the stored row iff the meter id is a key, otherwise NotFound with the meter's message |
| `Analytics.JoinRowsMember` | src/analytics/analytics.service.ts:41-46 | a row is in the join of a set of readings iff its reading is among them and produces it |
| `Analytics.JoinedMatchedRow` | src/analytics/analytics.service.ts:42-48 | (v, m) is a joined row iff v is the vehicle's reading with ts >= now - 86400, m is in the meter log, m's meter is mapped to the vehicle, and v.ts - 300 <= m.ts <= v.ts + 300 (inclusive) |
| `Analytics.JoinedNullRow` | src/analytics/analytics.service.ts:43-48 | (v, null) is a joined row iff v is selected and some meter mapped to the vehicle has no reading within tolerance of v |
| `Analytics.RowsForNonEmpty` | src/analytics/analytics.service.ts:42-46 | a reading produces some row iff at least one meter is mapped to its vehicle |
| `Analytics.JoinRowsEmpty` | src/analytics/analytics.service.ts:42-46 | the join is empty iff no reading among the selected ones has a mapped meter |
| `Analytics.NotFoundIff` | src/analytics/analytics.service.ts:42-56 | getPerformance is NotFound iff the vehicle has no reading in the window or has no mapping at all |
| `Analytics.CountMatchingPositive` | src/analytics/analytics.service.ts:43-46 | a meter has a reading within tolerance iff the count of such readings is positive |
| `Analytics.MatchRowsSingleMeter` | src/analytics/analytics.service.ts:43-46 | with one mapped meter, the matched rows of v are as many as that meter's readings within tolerance |
| `Analytics.SingleMeterFanOut` | src/analytics/analytics.service.ts:43-46 | with one mapped meter, a reading with k >= 1 matching meter readings forms k rows, and with none it forms one null row |
| `Analytics.MatchRowsCount` | src/analytics/analytics.service.ts:43-46 | the matched rows of v are as many as the positions j of the meter log whose reading is of a mapped meter and within tolerance of v |
| `Analytics.RowsForCount` | src/analytics/analytics.service.ts:42-46 | a reading forms one row per meter log position that joins it plus one null row per mapped meter with no reading within tolerance |
| `Analytics.NoMatchNoRows` | src/analytics/analytics.service.ts:43-46 | a reading that no meter reading matches has no matched row |
| `Analytics.UnmatchedOncePerMappedMeter` | src/analytics/analytics.service.ts:42-46 | a reading that no meter reading matches forms exactly one null row per mapped meter |
| `Analytics.TimesIsProduct` | src/analytics/analytics.service.ts:33 | adding a value up once per row over n rows is multiplying it by n, which turns the temperature sum bounds into bounds on AVG |
| `Analytics.SumsOfConcat` | src/analytics/analytics.service.ts:24-33 | the DC, AC and temperature sums are additive over concatenated row sets |
| `Analytics.SumsOfUniformRows` | src/analytics/analytics.service.ts:24-33 | rows headed by one reading sum to that reading's DC energy and temperature counted once per row |
| `Analytics.NullRowsAddNoAc` | src/analytics/analytics.service.ts:25 | the null rows of the LEFT JOIN add nothing to the AC total |
| `Analytics.GroupSums` | src/analytics/analytics.service.ts:24-33 | one reading's rows followed by the rest sum to that reading's values counted once per row plus the rest |
| `Analytics.TotalDcFanOut` | src/analytics/analytics.service.ts:24 | SUM(kwh_delivered_dc) over the join counts each selected reading's DC energy once per row it forms |
| `Analytics.TotalAcFanOut` | src/analytics/analytics.service.ts:25 | SUM(kwh_consumed_ac) over the join adds, for each selected reading, the AC energy of every meter reading it meets; a meter reading near several vehicle readings counts once for each, and null rows add nothing |
| `Analytics.TotalTempFanOut` | src/analytics/analytics.service.ts:33 | the temperature sum behind AVG counts each selected reading once per row it forms |
| `Analytics.RowCountFanOut` | src/analytics/analytics.service.ts:34 | COUNT(v.id) is the number of rows each selected reading forms, summed |
| `Analytics.PerformanceFanOut` | src/analytics/analytics.service.ts:24-34 | a report's total DC, record count and average temperature are the selected readings weighted by their row counts, and its total AC is the sum over the selected readings of the AC energy of the meter readings each meets |
| `Analytics.TempSumBounds` | src/analytics/analytics.service.ts:33 | when every row's battery temperature lies in [lo, hi], the temperature sum lies between n·lo and n·hi for n rows |
| `Analytics.ReportAvgTempBounds` | src/analytics/analytics.service.ts:33 | the average temperature of rows whose temperatures lie in [lo, hi] lies in [lo, hi] |
| `Analytics.AvgTempWithinReadings` | src/analytics/analytics.service.ts:33-48 | however the join weights the readings, the reported average battery temperature lies within the range of the selected readings' temperatures |
| `Analytics.CurrentStatusIsLastArrival` | src/analytics/analytics.service.ts:65-85 | after any vehicle ingest history, getCurrentStatus returns the row of the last reading to arrive for that vehicle |
| `Analytics.MeterCurrentStatusIsLastArrival` | src/analytics/analytics.service.ts:92-112 | after any meter ingest history, getMeterCurrentStatus returns the row of the last reading to arrive for that meter |
| `Analytics.CurrentStatusNotFound` | src/analytics/analytics.service.ts:65-85 | after any vehicle ingest history, getCurrentStatus is NotFound iff no reading for that vehicle was ingested |
| `Analytics.MeterCurrentStatusNotFound` | src/analytics/analytics.service.ts:92-112 | after any meter ingest history, getMeterCurrentStatus is NotFound iff no reading for that meter was ingested |
| `Analytics.ThresholdExamples` | src/analytics/analytics.service.spec.ts:59-78 | DC 120 against AC 150 gives ratio 0.8 and an alert; 127.5 against 150 gives exactly 0.85 and no alert; AC 0 gives ratio 0 and no alert |
| `Analytics.ExampleMatchRows` | src/analytics/analytics.service.ts:43-46 | of meter readings at -120 s, +120 s and +360 s from a vehicle reading, only the first two match it |
| `Analytics.ExampleNoNullRows` | src/analytics/analytics.service.ts:43-46 | in that example the mapped meter has a match, so there is no null row |
| `Analytics.ToleranceExampleRows` | src/analytics/analytics.service.ts:41-48 | in that example the join is exactly the two matching pairs |
| `Analytics.ToleranceExample` | src/analytics/analytics.service.ts:19-58 | in that example the report has 2 rows, DC 20 (10 counted twice), AC 13 and no alert |

## Left out

- Controllers, modules and bootstrap (HTTP routing, TypeORM/Postgres configuration) are not part of this model.
- Date handling is not modelled. ISO-8601 parsing and the `Date` objects in the answers are replaced by integer seconds. Microsecond precision and time zones are not modelled.
- The database-managed `updatedAt` and `createdAt` columns are wall-clock values and are left out of the rows.
- Payload fields are typed `Option`s. JavaScript's distinction between `null` and `undefined` is not modelled; the source treats `kwhConsumedAc: null` as defined. Identifiers of non-string type that are truthy are not modelled either.
- `class-validator` decorators on the DTOs are not modelled. The polymorphic endpoint accepts `any` body, and the service does no validation.
- Ingestion.MeterRow / Ingestion.VehicleRow: a missing row field is refused in one of two ways. A missing voltage, soc or batteryTemp reaches a NOT NULL column (`@Column()` in the entities). A missing timestamp becomes an invalid `Date` through `new Date(data.timestamp)` (src/ingestion/ingestion.service.ts:29 and 59), which the insert rejects. The model folds both into one `NotNullViolation`. The database's real error and the column it names are not modelled.
- Analytics.Report: the efficiency ratio and the average temperature are exact reals. `ROUND(..., 4)` and `ROUND(..., 2)` are not modelled. The alert is stated over the totals (100·DC < 85·AC), which is the unrounded comparison the source makes. In the source the answer can therefore hold a ratio rounded to 0.8500 together with the alert (a quotient of 0.84996, say); the model's unrounded ratio does not show that.
- Floating-point arithmetic and the database's numeric column types are not modelled. The column types are not declared in the entities, and schema synchronisation is off. Energy is exact `real`.
- Async execution, concurrent upserts on the same key, and partial failure between the history insert and the status upsert are not modelled. Each ingest is atomic here.
- Ingestion.IngestionService.RegisterVehicleMeterMapping: vehicleId and meterId are always strings. A request body that lacks them is not modelled.
- The SQL result's row order is not modelled. The joined rows come in one fixed order, and every aggregate is order-independent.
- The end-to-end test suite drives a live server. Its invalid-payload cases (test/app.e2e-spec.ts:92-120) post a payload with only a timestamp, and a vehicle payload without kwhDeliveredDc and batteryTemp, and expect a 4xx status. In the model the first is unrouted and the second is unrouted too, since kwhDeliveredDc is a routing field.
