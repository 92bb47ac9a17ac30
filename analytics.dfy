/**
 * The analytics service.  getPerformance is one SQL query over the history
 * logs and the mapping table; here each of its clauses is a function over the
 * logs:
 *   - the WHERE clause selects the vehicle's readings no older than 24 hours;
 *   - the inner JOIN with the mapping table keeps a reading only once per mapped meter;
 *   - the LEFT JOIN pairs it with every meter reading of that meter within five minutes
 *     (both ends inclusive), or with a null row when there is none;
 *   - SUM, COUNT and AVG then run over the joined rows.
 * The two status readers are lookups in the current-status tables.
 */
module Analytics {
  import opened Wrappers
  import opened Telemetry

  /** INTERVAL '24 HOURS', in seconds. */
  const LookbackSeconds: int := 86400
  /** INTERVAL '5 minutes', in seconds. */
  const ToleranceSeconds: int := 300
  const AlertMessage := "WARNING: Efficiency below 85% - possible hardware fault or energy leakage detected"

  datatype QueryError = NotFound(message: string)

  /** A row of the join: a vehicle reading and its meter reading, or null when the LEFT JOIN found none. */
  datatype JoinedRow = JoinedRow(v: VehicleReading, m: Option<MeterReading>)

  /** The single group the query returns (efficiency ratio and average are not rounded here). */
  datatype PerformanceReport = PerformanceReport(
    vehicleId: string,
    totalDc: real,
    totalAc: real,
    efficiencyRatio: real,
    avgBatteryTemp: real,
    recordCount: nat,
    alert: Option<string>)

  /** The WHERE clause: the requested vehicle, and no older than 24 hours (there is no upper bound). */
  predicate InWindow(v: VehicleReading, vehicleId: string, now: int) {
    v.vehicleId == vehicleId && v.timestamp >= now - LookbackSeconds
  }

  /** The time part of the LEFT JOIN condition: within five minutes either way, both ends inclusive. */
  predicate WithinTolerance(v: VehicleReading, m: MeterReading) {
    v.timestamp - ToleranceSeconds <= m.timestamp && m.timestamp <= v.timestamp + ToleranceSeconds
  }

  /** Meter reading m joins vehicle reading v: its meter is mapped to v's vehicle and it is in tolerance. */
  predicate Matches(mappings: set<Mapping>, v: VehicleReading, m: MeterReading) {
    (v.vehicleId, m.meterId) in mappings && WithinTolerance(v, m)
  }

  /** The meters mapped to a vehicle. */
  function MappedMeters(mappings: set<Mapping>, vehicleId: string): (meters: set<string>)
    ensures forall meterId :: meterId in meters <==> (vehicleId, meterId) in mappings
  {
    set p | p in mappings && p.0 == vehicleId :: p.1
  }

  /** The vehicle readings the WHERE clause keeps, in log order. */
  function SelectReadings(vh: seq<VehicleReading>, vehicleId: string, now: int): (r: seq<VehicleReading>)
    ensures forall v :: v in r <==> v in vh && InWindow(v, vehicleId, now)
  {
    if vh == [] then []
    else (if InWindow(vh[0], vehicleId, now) then [vh[0]] else []) + SelectReadings(vh[1..], vehicleId, now)
  }

  /** Some reading of meter meterId lies within tolerance of v. */
  predicate HasMatch(mh: seq<MeterReading>, v: VehicleReading, meterId: string) {
    exists m | m in mh :: m.meterId == meterId && WithinTolerance(v, m)
  }

  /** The rows in which v meets a meter reading: one per matching reading of any mapped meter. */
  function MatchRows(mh: seq<MeterReading>, mappings: set<Mapping>, v: VehicleReading): (rows: seq<JoinedRow>)
    ensures forall i :: 0 <= i < |rows| ==>
      rows[i].v == v && rows[i].m.Some? && rows[i].m.value in mh && Matches(mappings, v, rows[i].m.value)
    ensures forall m :: JoinedRow(v, Some(m)) in rows <==> m in mh && Matches(mappings, v, m)
  {
    if mh == [] then []
    else
      (if Matches(mappings, v, mh[0]) then [JoinedRow(v, Some(mh[0]))] else []) + MatchRows(mh[1..], mappings, v)
  }

  /** The mapped meters of v's vehicle that have no reading within tolerance of v. */
  function UnmatchedMeters(mh: seq<MeterReading>, mappings: set<Mapping>, v: VehicleReading): (meters: set<string>)
    ensures meters <= MappedMeters(mappings, v.vehicleId)
    ensures forall meterId :: meterId in meters <==>
      (v.vehicleId, meterId) in mappings && !HasMatch(mh, v, meterId)
  {
    set meterId | meterId in MappedMeters(mappings, v.vehicleId) && !HasMatch(mh, v, meterId)
  }

  /** n null rows for v: what the LEFT JOIN yields for n mapped meters with no matching reading. */
  function NullRows(v: VehicleReading, n: nat): (rows: seq<JoinedRow>)
    ensures |rows| == n
    ensures forall i :: 0 <= i < n ==> rows[i] == JoinedRow(v, None)
  {
    if n == 0 then [] else [JoinedRow(v, None)] + NullRows(v, n - 1)
  }

  /**
   * Every joined row produced by one vehicle reading: one row per matching
   * meter reading, then one null row per mapped meter with no match.
   */
  function RowsFor(mh: seq<MeterReading>, mappings: set<Mapping>, v: VehicleReading): (rows: seq<JoinedRow>)
    ensures |rows| == |MatchRows(mh, mappings, v)| + |UnmatchedMeters(mh, mappings, v)|
    ensures forall i :: 0 <= i < |rows| ==> rows[i].v == v
    ensures forall i :: 0 <= i < |rows| ==> (rows[i].m.Some? <==> i < |MatchRows(mh, mappings, v)|)
    ensures forall i :: 0 <= i < |rows| && rows[i].m.Some? ==>
      rows[i].m.value in mh && Matches(mappings, v, rows[i].m.value)
  {
    var matched := MatchRows(mh, mappings, v);
    var nulls := NullRows(v, |UnmatchedMeters(mh, mappings, v)|);
    var rows: seq<JoinedRow> := matched + nulls;
    assert forall i :: |matched| <= i < |rows| ==> rows[i] == nulls[i - |matched|];
    rows
  }

  /** The joined rows of a sequence of vehicle readings: each row is headed by one of them. */
  function JoinRows(vs: seq<VehicleReading>, mh: seq<MeterReading>, mappings: set<Mapping>): (rows: seq<JoinedRow>)
    ensures forall i :: 0 <= i < |rows| ==> rows[i].v in vs
    ensures forall i :: 0 <= i < |rows| && rows[i].m.Some? ==>
      rows[i].m.value in mh && Matches(mappings, rows[i].v, rows[i].m.value)
  {
    if vs == [] then [] else RowsFor(mh, mappings, vs[0]) + JoinRows(vs[1..], mh, mappings)
  }

  /**
   * The FROM/JOIN/WHERE part of the query: the rows the aggregates run over.
   * Every row is headed by a logged reading of the vehicle no older than 24
   * hours, and every non-null row pairs it with a logged reading of a mapped
   * meter within tolerance.
   */
  function Joined(vh: seq<VehicleReading>, mh: seq<MeterReading>, mappings: set<Mapping>,
                  vehicleId: string, now: int): (rows: seq<JoinedRow>)
    ensures forall i :: 0 <= i < |rows| ==> rows[i].v in vh && InWindow(rows[i].v, vehicleId, now)
    ensures forall i :: 0 <= i < |rows| && rows[i].m.Some? ==>
      && rows[i].m.value in mh
      && (vehicleId, rows[i].m.value.meterId) in mappings
      && WithinTolerance(rows[i].v, rows[i].m.value)
  {
    JoinRows(SelectReadings(vh, vehicleId, now), mh, mappings)
  }

  /** SUM(v.kwh_delivered_dc) over the joined rows: never negative when no delivered energy is. */
  function TotalDc(rows: seq<JoinedRow>): (total: real)
    ensures (forall i :: 0 <= i < |rows| ==> rows[i].v.kwhDeliveredDc >= 0.0) ==> total >= 0.0
  {
    if rows == [] then 0.0 else rows[0].v.kwhDeliveredDc + TotalDc(rows[1..])
  }

  /** SUM(m.kwh_consumed_ac) over the joined rows, null rows adding nothing; 0 when no row has a meter reading. */
  function TotalAc(rows: seq<JoinedRow>): (total: real)
    ensures (forall i :: 0 <= i < |rows| ==> rows[i].m.None?) ==> total == 0.0
  {
    if rows == [] then 0.0
    else (if rows[0].m.Some? then rows[0].m.value.kwhConsumedAc else 0.0) + TotalAc(rows[1..])
  }

  /** SUM(v.battery_temp) over the joined rows; AVG divides it by the row count. */
  function TotalTemp(rows: seq<JoinedRow>): real {
    if rows == [] then 0.0 else rows[0].v.batteryTemp + TotalTemp(rows[1..])
  }

  /** dc / ac when ac > 0, else 0: the guard means there is never a division by zero. */
  function EfficiencyRatio(dc: real, ac: real): (ratio: real)
    ensures ac > 0.0 ==> ratio * ac == dc
    ensures ac <= 0.0 ==> ratio == 0.0
  {
    if ac > 0.0 then dc / ac else 0.0
  }

  /** The alert: present exactly when ac > 0 and dc / ac < 0.85, strictly (stated by cross-multiplication). */
  function Alert(dc: real, ac: real): (alert: Option<string>)
    ensures alert.Some? <==> ac > 0.0 && 100.0 * dc < 85.0 * ac
    ensures alert.Some? ==> alert.value == AlertMessage
  {
    if ac > 0.0 && dc / ac < 0.85 then Some(AlertMessage) else None
  }

  /**
   * The aggregates of the single group formed by the joined rows.  The alert
   * is decided on the totals, before the ratio is rounded for display.
   */
  function Report(vehicleId: string, rows: seq<JoinedRow>): (r: PerformanceReport)
    requires rows != []
    ensures r.vehicleId == vehicleId
    ensures r.recordCount == |rows| > 0
    ensures r.totalAc > 0.0 ==> r.efficiencyRatio * r.totalAc == r.totalDc
    ensures r.totalAc <= 0.0 ==> r.efficiencyRatio == 0.0
    ensures r.alert.Some? <==> r.totalAc > 0.0 && 100.0 * r.totalDc < 85.0 * r.totalAc
    ensures r.alert.Some? ==> r.alert.value == AlertMessage
  {
    var dc := TotalDc(rows);
    var ac := TotalAc(rows);
    PerformanceReport(vehicleId, dc, ac, EfficiencyRatio(dc, ac), TotalTemp(rows) / (|rows| as real), |rows|,
                      Alert(dc, ac))
  }

  /**
   * getPerformance: NotFound when the join yields no row, otherwise the
   * aggregates of the joined rows, whose alert is present exactly when the
   * matched AC energy is positive and the DC total is below 85% of it.
   */
  function GetPerformance(vh: seq<VehicleReading>, mh: seq<MeterReading>, mappings: set<Mapping>,
                          vehicleId: string, now: int): (r: Result<PerformanceReport, QueryError>)
    ensures r.Failure? ==> r.error == NotFound("No telemetry data found for vehicle: " + vehicleId)
    ensures r.Success? ==> r.value.vehicleId == vehicleId && r.value.recordCount > 0
    ensures r.Success? ==>
      (r.value.alert.Some? <==> r.value.totalAc > 0.0 && 100.0 * r.value.totalDc < 85.0 * r.value.totalAc)
    ensures r.Success? && r.value.totalAc > 0.0 ==> r.value.efficiencyRatio * r.value.totalAc == r.value.totalDc
    ensures r.Success? && r.value.totalAc <= 0.0 ==> r.value.efficiencyRatio == 0.0
  {
    var rows := Joined(vh, mh, mappings, vehicleId, now);
    if rows == [] then Failure(NotFound("No telemetry data found for vehicle: " + vehicleId))
    else Success(Report(vehicleId, rows))
  }

  /** getCurrentStatus: the stored row of the vehicle, or NotFound when the key was never ingested. */
  function GetCurrentStatus(current: map<string, VehicleStatus>, vehicleId: string)
    : (r: Result<VehicleStatus, QueryError>)
    ensures r.Success? <==> vehicleId in current
    ensures r.Success? ==> r.value == current[vehicleId]
    ensures r.Failure? ==> r.error == NotFound("No current status found for vehicle: " + vehicleId)
  {
    if vehicleId in current then Success(current[vehicleId])
    else Failure(NotFound("No current status found for vehicle: " + vehicleId))
  }

  /** getMeterCurrentStatus: the stored row of the meter, or NotFound when the key was never ingested. */
  function GetMeterCurrentStatus(current: map<string, MeterStatus>, meterId: string)
    : (r: Result<MeterStatus, QueryError>)
    ensures r.Success? <==> meterId in current
    ensures r.Success? ==> r.value == current[meterId]
    ensures r.Failure? ==> r.error == NotFound("No current status found for meter: " + meterId)
  {
    if meterId in current then Success(current[meterId])
    else Failure(NotFound("No current status found for meter: " + meterId))
  }

  // ---------------------------------------------------------------------------
  // Which rows the join produces
  // ---------------------------------------------------------------------------

  /** A row is in the join of vs exactly when its vehicle reading is in vs and produces it. */
  lemma {:induction false} JoinRowsMember(vs: seq<VehicleReading>, mh: seq<MeterReading>, mappings: set<Mapping>,
                                          row: JoinedRow)
    ensures row in JoinRows(vs, mh, mappings) <==> row.v in vs && row in RowsFor(mh, mappings, row.v)
  {
    if vs != [] {
      JoinRowsMember(vs[1..], mh, mappings, row);
      assert vs == [vs[0]] + vs[1..];
    }
  }

  /**
   * The join condition: vehicle reading v and meter reading m form a row
   * exactly when v is one of the requested vehicle's readings no older than 24
   * hours (newer than now is allowed), m's meter is mapped to that vehicle, and
   * v.ts - 300 <= m.ts <= v.ts + 300.
   */
  lemma JoinedMatchedRow(vh: seq<VehicleReading>, mh: seq<MeterReading>, mappings: set<Mapping>,
                         vehicleId: string, now: int, v: VehicleReading, m: MeterReading)
    ensures JoinedRow(v, Some(m)) in Joined(vh, mh, mappings, vehicleId, now) <==>
      && v in vh && v.vehicleId == vehicleId && v.timestamp >= now - LookbackSeconds
      && m in mh && (vehicleId, m.meterId) in mappings
      && v.timestamp - ToleranceSeconds <= m.timestamp <= v.timestamp + ToleranceSeconds
  {
    var row := JoinedRow(v, Some(m));
    JoinRowsMember(SelectReadings(vh, vehicleId, now), mh, mappings, row);
    var matched := MatchRows(mh, mappings, v);
    var nulls := NullRows(v, |UnmatchedMeters(mh, mappings, v)|);
    assert row in matched + nulls <==> row in matched;
  }

  /**
   * The LEFT JOIN's null rows: v forms a row with no meter reading exactly
   * when v is selected and some meter mapped to its vehicle has no reading
   * within tolerance of v.
   */
  lemma JoinedNullRow(vh: seq<VehicleReading>, mh: seq<MeterReading>, mappings: set<Mapping>,
                      vehicleId: string, now: int, v: VehicleReading)
    ensures JoinedRow(v, None) in Joined(vh, mh, mappings, vehicleId, now) <==>
      && v in vh && InWindow(v, vehicleId, now)
      && exists meterId :: (vehicleId, meterId) in mappings && !HasMatch(mh, v, meterId)
  {
    var row := JoinedRow(v, None);
    JoinRowsMember(SelectReadings(vh, vehicleId, now), mh, mappings, row);
    var unmatched := UnmatchedMeters(mh, mappings, v);
    var matched := MatchRows(mh, mappings, v);
    var nulls := NullRows(v, |unmatched|);
    assert row !in matched;
    assert row in matched + nulls <==> row in nulls;
    assert row in nulls <==> |unmatched| > 0 by {
      if |unmatched| > 0 { assert nulls[0] == row; }
    }
    if v.vehicleId == vehicleId {
      if exists meterId :: (vehicleId, meterId) in mappings && !HasMatch(mh, v, meterId) {
        var meterId :| (vehicleId, meterId) in mappings && !HasMatch(mh, v, meterId);
        assert meterId in unmatched;
      }
      if |unmatched| > 0 {
        var meterId :| meterId in unmatched;
        assert (vehicleId, meterId) in mappings && !HasMatch(mh, v, meterId);
      }
    }
  }

  /** A vehicle reading produces at least one row exactly when some meter is mapped to its vehicle. */
  lemma RowsForNonEmpty(mh: seq<MeterReading>, mappings: set<Mapping>, v: VehicleReading)
    ensures RowsFor(mh, mappings, v) != [] <==> MappedMeters(mappings, v.vehicleId) != {}
  {
    var mapped := MappedMeters(mappings, v.vehicleId);
    var matched := MatchRows(mh, mappings, v);
    var unmatched := UnmatchedMeters(mh, mappings, v);
    assert matched != [] ==> matched[0].m.value.meterId in mapped;
    if mapped != {} {
      var meterId :| meterId in mapped;
      if HasMatch(mh, v, meterId) {
        var m :| m in mh && m.meterId == meterId && WithinTolerance(v, m);
        assert JoinedRow(v, Some(m)) in matched;
      } else {
        assert meterId in unmatched;
      }
    }
  }

  /** The join of vs is empty exactly when no reading of vs has a mapped meter. */
  lemma {:induction false} JoinRowsEmpty(vs: seq<VehicleReading>, mh: seq<MeterReading>, mappings: set<Mapping>)
    ensures JoinRows(vs, mh, mappings) == [] <==>
      forall v :: v in vs ==> MappedMeters(mappings, v.vehicleId) == {}
  {
    if vs != [] {
      JoinRowsEmpty(vs[1..], mh, mappings);
      RowsForNonEmpty(mh, mappings, vs[0]);
      assert forall v :: v in vs <==> v == vs[0] || v in vs[1..];
    }
  }

  /**
   * NotFound exactly when the requested vehicle has no reading in the window,
   * or has readings but no mapped meter (the mapping join is an inner join).
   */
  lemma NotFoundIff(vh: seq<VehicleReading>, mh: seq<MeterReading>, mappings: set<Mapping>,
                    vehicleId: string, now: int)
    ensures GetPerformance(vh, mh, mappings, vehicleId, now).Failure? <==>
      (forall v :: v in vh ==> !InWindow(v, vehicleId, now)) ||
      (forall meterId :: (vehicleId, meterId) !in mappings)
  {
    var selected := SelectReadings(vh, vehicleId, now);
    JoinRowsEmpty(selected, mh, mappings);
    if selected != [] {
      assert selected[0] in selected;
    }
    if MappedMeters(mappings, vehicleId) != {} {
      var meterId :| meterId in MappedMeters(mappings, vehicleId);
      assert (vehicleId, meterId) in mappings;
    }
  }

  // ---------------------------------------------------------------------------
  // How often a vehicle reading is counted
  // ---------------------------------------------------------------------------

  /** The number of readings of meter meterId within tolerance of v. */
  function CountMatching(mh: seq<MeterReading>, v: VehicleReading, meterId: string): nat {
    if mh == [] then 0
    else (if mh[0].meterId == meterId && WithinTolerance(v, mh[0]) then 1 else 0) + CountMatching(mh[1..], v, meterId)
  }

  lemma {:induction false} CountMatchingPositive(mh: seq<MeterReading>, v: VehicleReading, meterId: string)
    ensures CountMatching(mh, v, meterId) > 0 <==> HasMatch(mh, v, meterId)
  {
    if mh != [] {
      CountMatchingPositive(mh[1..], v, meterId);
      assert forall m :: m in mh <==> m == mh[0] || m in mh[1..];
    }
  }

  lemma {:induction false} MatchRowsSingleMeter(mh: seq<MeterReading>, mappings: set<Mapping>, v: VehicleReading,
                                                meterId: string)
    requires MappedMeters(mappings, v.vehicleId) == {meterId}
    ensures |MatchRows(mh, mappings, v)| == CountMatching(mh, v, meterId)
  {
    if mh != [] {
      MatchRowsSingleMeter(mh[1..], mappings, v, meterId);
      assert Matches(mappings, v, mh[0]) <==> mh[0].meterId == meterId && WithinTolerance(v, mh[0]) by {
        assert mh[0].meterId in MappedMeters(mappings, v.vehicleId) <==> (v.vehicleId, mh[0].meterId) in mappings;
      }
    }
  }

  /** The positions of the meter log whose reading joins v. */
  function MatchPositions(mh: seq<MeterReading>, mappings: set<Mapping>, v: VehicleReading): set<nat> {
    set j: nat | j < |mh| && Matches(mappings, v, mh[j])
  }

  /** The positions from k on whose reading joins v. */
  function MatchPositionsFrom(mh: seq<MeterReading>, mappings: set<Mapping>, v: VehicleReading, k: nat): set<nat> {
    set j: nat | k <= j < |mh| && Matches(mappings, v, mh[j])
  }

  lemma {:induction false} MatchRowsCountFrom(mh: seq<MeterReading>, mappings: set<Mapping>, v: VehicleReading,
                                              k: nat)
    requires k <= |mh|
    ensures |MatchRows(mh[k..], mappings, v)| == |MatchPositionsFrom(mh, mappings, v, k)|
    decreases |mh| - k
  {
    if k == |mh| {
      assert MatchPositionsFrom(mh, mappings, v, k) == {};
    } else {
      MatchRowsCountFrom(mh, mappings, v, k + 1);
      assert mh[k..][0] == mh[k];
      assert mh[k..][1..] == mh[k + 1..];
      var rest := MatchPositionsFrom(mh, mappings, v, k + 1);
      var here: set<nat> := if Matches(mappings, v, mh[k]) then {k} else {};
      assert MatchPositionsFrom(mh, mappings, v, k) == here + rest;
      assert k !in rest;
    }
  }

  /** A vehicle reading meets exactly as many meter readings as there are log positions that join it. */
  lemma MatchRowsCount(mh: seq<MeterReading>, mappings: set<Mapping>, v: VehicleReading)
    ensures |MatchRows(mh, mappings, v)| == |MatchPositions(mh, mappings, v)|
  {
    MatchRowsCountFrom(mh, mappings, v, 0);
    assert mh[0..] == mh;
    assert MatchPositionsFrom(mh, mappings, v, 0) == MatchPositions(mh, mappings, v);
  }

  /**
   * The rows one vehicle reading forms: one per meter log position that
   * joins it, plus one per mapped meter with no reading within tolerance.
   */
  lemma RowsForCount(mh: seq<MeterReading>, mappings: set<Mapping>, v: VehicleReading)
    ensures |RowsFor(mh, mappings, v)| == |MatchPositions(mh, mappings, v)| + |UnmatchedMeters(mh, mappings, v)|
  {
    MatchRowsCount(mh, mappings, v);
  }

  /**
   * Fan-out with one mapped meter: a vehicle reading with k >= 1 matching
   * meter readings forms k rows; with none it forms one null row.
   */
  lemma SingleMeterFanOut(mh: seq<MeterReading>, mappings: set<Mapping>, v: VehicleReading, meterId: string)
    requires MappedMeters(mappings, v.vehicleId) == {meterId}
    ensures var k := CountMatching(mh, v, meterId);
      |RowsFor(mh, mappings, v)| == if k == 0 then 1 else k
  {
    MatchRowsSingleMeter(mh, mappings, v, meterId);
    CountMatchingPositive(mh, v, meterId);
    var unmatched := UnmatchedMeters(mh, mappings, v);
    if HasMatch(mh, v, meterId) {
      assert unmatched == {};
    } else {
      assert unmatched == {meterId};
    }
  }

  lemma {:induction false} NoMatchNoRows(mh: seq<MeterReading>, mappings: set<Mapping>, v: VehicleReading)
    requires forall m :: m in mh ==> !Matches(mappings, v, m)
    ensures MatchRows(mh, mappings, v) == []
  {
    if mh != [] {
      assert mh[0] in mh;
      NoMatchNoRows(mh[1..], mappings, v);
    }
  }

  /**
   * Fan-out over mapped meters: a vehicle reading that no meter reading
   * matches still forms one null row per meter mapped to its vehicle.
   */
  lemma UnmatchedOncePerMappedMeter(mh: seq<MeterReading>, mappings: set<Mapping>, v: VehicleReading)
    requires forall m :: m in mh ==> !Matches(mappings, v, m)
    ensures |RowsFor(mh, mappings, v)| == |MappedMeters(mappings, v.vehicleId)|
    ensures forall row :: row in RowsFor(mh, mappings, v) ==> row == JoinedRow(v, None)
  {
    NoMatchNoRows(mh, mappings, v);
    var mapped := MappedMeters(mappings, v.vehicleId);
    forall meterId | meterId in mapped ensures !HasMatch(mh, v, meterId) {
      assert (v.vehicleId, meterId) in mappings;
    }
    assert UnmatchedMeters(mh, mappings, v) == mapped;
  }

  /** x added up n times: a value counted once per row. */
  function Times(x: real, n: nat): real {
    if n == 0 then 0.0 else x + Times(x, n - 1)
  }

  lemma {:induction false} TimesIsProduct(x: real, n: nat)
    ensures Times(x, n) == x * (n as real)
  {
    if n > 0 {
      TimesIsProduct(x, n - 1);
    }
  }

  /** Sum over the selected readings of each reading's DC energy counted once per row it forms. */
  function WeightedDc(vs: seq<VehicleReading>, mh: seq<MeterReading>, mappings: set<Mapping>): real {
    if vs == [] then 0.0
    else Times(vs[0].kwhDeliveredDc, |RowsFor(mh, mappings, vs[0])|) + WeightedDc(vs[1..], mh, mappings)
  }

  /** Sum over the selected readings of each reading's battery temperature counted once per row it forms. */
  function WeightedTemp(vs: seq<VehicleReading>, mh: seq<MeterReading>, mappings: set<Mapping>): real {
    if vs == [] then 0.0
    else Times(vs[0].batteryTemp, |RowsFor(mh, mappings, vs[0])|) + WeightedTemp(vs[1..], mh, mappings)
  }

  /** Sum over the selected readings of the AC energy of the meter readings each one meets. */
  function WeightedAc(vs: seq<VehicleReading>, mh: seq<MeterReading>, mappings: set<Mapping>): real {
    if vs == [] then 0.0
    else TotalAc(MatchRows(mh, mappings, vs[0])) + WeightedAc(vs[1..], mh, mappings)
  }

  /** The number of rows the selected readings form, summed reading by reading. */
  function RowCount(vs: seq<VehicleReading>, mh: seq<MeterReading>, mappings: set<Mapping>): nat {
    if vs == [] then 0 else |RowsFor(mh, mappings, vs[0])| + RowCount(vs[1..], mh, mappings)
  }

  lemma {:induction false} SumsOfConcat(a: seq<JoinedRow>, b: seq<JoinedRow>)
    ensures TotalDc(a + b) == TotalDc(a) + TotalDc(b)
    ensures TotalAc(a + b) == TotalAc(a) + TotalAc(b)
    ensures TotalTemp(a + b) == TotalTemp(a) + TotalTemp(b)
  {
    if a == [] {
      assert a + b == b;
    } else {
      SumsOfConcat(a[1..], b);
      assert (a + b)[0] == a[0];
      assert (a + b)[1..] == a[1..] + b;
    }
  }

  lemma {:induction false} SumsOfUniformRows(rows: seq<JoinedRow>, v: VehicleReading)
    requires forall i :: 0 <= i < |rows| ==> rows[i].v == v
    ensures TotalDc(rows) == Times(v.kwhDeliveredDc, |rows|)
    ensures TotalTemp(rows) == Times(v.batteryTemp, |rows|)
  {
    if rows != [] {
      SumsOfUniformRows(rows[1..], v);
    }
  }

  /** Null rows carry no meter reading, so they add nothing to the AC total. */
  lemma NullRowsAddNoAc(mh: seq<MeterReading>, mappings: set<Mapping>, v: VehicleReading)
    ensures TotalAc(RowsFor(mh, mappings, v)) == TotalAc(MatchRows(mh, mappings, v))
  {
    var nulls := NullRows(v, |UnmatchedMeters(mh, mappings, v)|);
    SumsOfConcat(MatchRows(mh, mappings, v), nulls);
  }

  /** The sums over one reading's rows followed by the rest. */
  lemma GroupSums(head: seq<JoinedRow>, tail: seq<JoinedRow>, v: VehicleReading)
    requires forall i :: 0 <= i < |head| ==> head[i].v == v
    ensures TotalDc(head + tail) == Times(v.kwhDeliveredDc, |head|) + TotalDc(tail)
    ensures TotalTemp(head + tail) == Times(v.batteryTemp, |head|) + TotalTemp(tail)
  {
    SumsOfUniformRows(head, v);
    SumsOfConcat(head, tail);
  }

  /** Each selected reading contributes its DC energy once per row it forms. */
  lemma {:induction false} TotalDcFanOut(vs: seq<VehicleReading>, mh: seq<MeterReading>, mappings: set<Mapping>)
    ensures TotalDc(JoinRows(vs, mh, mappings)) == WeightedDc(vs, mh, mappings)
  {
    if vs != [] {
      TotalDcFanOut(vs[1..], mh, mappings);
      GroupSums(RowsFor(mh, mappings, vs[0]), JoinRows(vs[1..], mh, mappings), vs[0]);
    }
  }

  /** Each selected reading contributes its battery temperature once per row it forms. */
  lemma {:induction false} TotalTempFanOut(vs: seq<VehicleReading>, mh: seq<MeterReading>, mappings: set<Mapping>)
    ensures TotalTemp(JoinRows(vs, mh, mappings)) == WeightedTemp(vs, mh, mappings)
  {
    if vs != [] {
      TotalTempFanOut(vs[1..], mh, mappings);
      GroupSums(RowsFor(mh, mappings, vs[0]), JoinRows(vs[1..], mh, mappings), vs[0]);
    }
  }

  /**
   * Each selected reading adds the AC energy of every meter reading it meets,
   * so a meter reading within tolerance of several vehicle readings is counted
   * once for each of them, and null rows add nothing.
   */
  lemma {:induction false} TotalAcFanOut(vs: seq<VehicleReading>, mh: seq<MeterReading>, mappings: set<Mapping>)
    ensures TotalAc(JoinRows(vs, mh, mappings)) == WeightedAc(vs, mh, mappings)
  {
    if vs != [] {
      TotalAcFanOut(vs[1..], mh, mappings);
      NullRowsAddNoAc(mh, mappings, vs[0]);
      SumsOfConcat(RowsFor(mh, mappings, vs[0]), JoinRows(vs[1..], mh, mappings));
    }
  }

  /** The record count is the number of joined rows, summed reading by reading. */
  lemma {:induction false} RowCountFanOut(vs: seq<VehicleReading>, mh: seq<MeterReading>, mappings: set<Mapping>)
    ensures |JoinRows(vs, mh, mappings)| == RowCount(vs, mh, mappings)
  {
    if vs != [] {
      RowCountFanOut(vs[1..], mh, mappings);
    }
  }

  /**
   * SUM, COUNT and AVG run over the joined rows, not the readings: each
   * selected vehicle reading contributes its DC energy and battery temperature
   * once per row it forms, and the record count is the number of rows.
   */
  lemma PerformanceFanOut(vh: seq<VehicleReading>, mh: seq<MeterReading>, mappings: set<Mapping>,
                          vehicleId: string, now: int)
    requires GetPerformance(vh, mh, mappings, vehicleId, now).Success?
    ensures var r := GetPerformance(vh, mh, mappings, vehicleId, now).value;
      var vs := SelectReadings(vh, vehicleId, now);
      && r.totalDc == WeightedDc(vs, mh, mappings)
      && r.totalAc == WeightedAc(vs, mh, mappings)
      && r.recordCount == RowCount(vs, mh, mappings)
      && r.avgBatteryTemp == WeightedTemp(vs, mh, mappings) / (RowCount(vs, mh, mappings) as real)
  {
    var vs := SelectReadings(vh, vehicleId, now);
    TotalDcFanOut(vs, mh, mappings);
    TotalAcFanOut(vs, mh, mappings);
    TotalTempFanOut(vs, mh, mappings);
    RowCountFanOut(vs, mh, mappings);
  }

  /** A sum of n terms, each between lo and hi, lies between lo and hi added up n times. */
  lemma {:induction false} TempSumBounds(rows: seq<JoinedRow>, lo: real, hi: real)
    requires forall i :: 0 <= i < |rows| ==> lo <= rows[i].v.batteryTemp <= hi
    ensures Times(lo, |rows|) <= TotalTemp(rows) <= Times(hi, |rows|)
  {
    if rows != [] {
      TempSumBounds(rows[1..], lo, hi);
    }
  }

  lemma QuotientBounds(lo: real, hi: real, t: real, n: real)
    requires n > 0.0
    requires lo * n <= t <= hi * n
    ensures lo <= t / n <= hi
  {
  }

  /**
   * Fan-out weights the average but cannot move it outside the range of the
   * readings: when every selected reading's battery temperature lies in
   * [lo, hi], so does the reported average.
   */
  lemma AvgTempWithinReadings(vh: seq<VehicleReading>, mh: seq<MeterReading>, mappings: set<Mapping>,
                              vehicleId: string, now: int, lo: real, hi: real)
    requires GetPerformance(vh, mh, mappings, vehicleId, now).Success?
    requires forall v :: v in vh && InWindow(v, vehicleId, now) ==> lo <= v.batteryTemp <= hi
    ensures lo <= GetPerformance(vh, mh, mappings, vehicleId, now).value.avgBatteryTemp <= hi
  {
    var rows := Joined(vh, mh, mappings, vehicleId, now);
    assert forall i :: 0 <= i < |rows| ==> lo <= rows[i].v.batteryTemp <= hi;
    ReportAvgTempBounds(vehicleId, rows, lo, hi);
  }

  lemma ReportAvgTempBounds(vehicleId: string, rows: seq<JoinedRow>, lo: real, hi: real)
    requires rows != []
    requires forall i :: 0 <= i < |rows| ==> lo <= rows[i].v.batteryTemp <= hi
    ensures lo <= Report(vehicleId, rows).avgBatteryTemp <= hi
  {
    var n := |rows| as real;
    var t := TotalTemp(rows);
    TempSumBounds(rows, lo, hi);
    TimesIsProduct(lo, |rows|);
    TimesIsProduct(hi, |rows|);
    assert Times(lo, |rows|) == lo * n && Times(hi, |rows|) == hi * n;
    QuotientBounds(lo, hi, t, n);
    assert Report(vehicleId, rows).avgBatteryTemp == t / n;
  }

  // ---------------------------------------------------------------------------
  // The current-status readers against the ingestion history
  // ---------------------------------------------------------------------------

  /**
   * After a history of vehicle ingests, getCurrentStatus returns the row of the
   * last reading to arrive for that vehicle.
   */
  lemma CurrentStatusIsLastArrival(h: seq<VehicleReading>, i: nat)
    requires i < |h|
    requires forall j :: i < j < |h| ==> h[j].vehicleId != h[i].vehicleId
    ensures GetCurrentStatus(VehicleCurrentOf(h), h[i].vehicleId) == Success(VehicleStatusOf(h[i]))
  {
    VehicleLastWriteWins(h, i);
  }

  /** The same for meters: getMeterCurrentStatus returns the row of the last meter reading to arrive. */
  lemma MeterCurrentStatusIsLastArrival(h: seq<MeterReading>, i: nat)
    requires i < |h|
    requires forall j :: i < j < |h| ==> h[j].meterId != h[i].meterId
    ensures GetMeterCurrentStatus(MeterCurrentOf(h), h[i].meterId) == Success(MeterStatusOf(h[i]))
  {
    MeterLastWriteWins(h, i);
  }

  /** getCurrentStatus answers NotFound exactly for a vehicle no reading was ever ingested for. */
  lemma CurrentStatusNotFound(h: seq<VehicleReading>, vehicleId: string)
    ensures GetCurrentStatus(VehicleCurrentOf(h), vehicleId).Failure? <==>
      forall j :: 0 <= j < |h| ==> h[j].vehicleId != vehicleId
  {
  }

  /** getMeterCurrentStatus answers NotFound exactly for a meter no reading was ever ingested for. */
  lemma MeterCurrentStatusNotFound(h: seq<MeterReading>, meterId: string)
    ensures GetMeterCurrentStatus(MeterCurrentOf(h), meterId).Failure? <==>
      forall j :: 0 <= j < |h| ==> h[j].meterId != meterId
  {
  }

  // ---------------------------------------------------------------------------
  // Worked examples
  // ---------------------------------------------------------------------------

  /** 120 kWh DC against 150 kWh AC is a ratio of 0.8 and alerts; 127.5 against 150 is exactly 0.85 and does not. */
  lemma ThresholdExamples()
    ensures EfficiencyRatio(120.0, 150.0) == 0.8 && Alert(120.0, 150.0) == Some(AlertMessage)
    ensures EfficiencyRatio(127.5, 150.0) == 0.85 && Alert(127.5, 150.0) == None
    ensures EfficiencyRatio(50.0, 0.0) == 0.0 && Alert(50.0, 0.0) == None
  {
  }

  const ExampleReading := VehicleReading("vehicle-1", 80.0, 10.0, 30.0, 1000)
  const ExampleMeters := [MeterReading("meter-1", 6.0, 230.0, 880), MeterReading("meter-1", 7.0, 230.0, 1120),
                          MeterReading("meter-1", 9.0, 230.0, 1360)]
  const ExampleMappings: set<Mapping> := {("vehicle-1", "meter-1")}

  /** The meter readings within tolerance of the example reading: the first two. */
  lemma ExampleMatchRows()
    ensures MatchRows(ExampleMeters, ExampleMappings, ExampleReading) ==
      [JoinedRow(ExampleReading, Some(ExampleMeters[0])), JoinedRow(ExampleReading, Some(ExampleMeters[1]))]
  {
    var v, mh, mappings := ExampleReading, ExampleMeters, ExampleMappings;
    assert mh[1..] == [mh[1], mh[2]] && mh[1..][1..] == [mh[2]] && mh[1..][1..][1..] == [];
    assert MatchRows([mh[2]], mappings, v) == [];
    assert MatchRows([mh[1], mh[2]], mappings, v) == [JoinedRow(v, Some(mh[1]))];
  }

  /** The example reading's one mapped meter has a match, so the LEFT JOIN adds no null row. */
  lemma ExampleNoNullRows()
    ensures UnmatchedMeters(ExampleMeters, ExampleMappings, ExampleReading) == {}
  {
    assert MappedMeters(ExampleMappings, "vehicle-1") == {"meter-1"};
    assert HasMatch(ExampleMeters, ExampleReading, "meter-1") by { assert ExampleMeters[0] in ExampleMeters; }
  }

  /**
   * Two meter readings four minutes apart both join the vehicle reading
   * between them; the third, six minutes away, does not.
   */
  lemma ToleranceExampleRows()
    ensures Joined([ExampleReading], ExampleMeters, ExampleMappings, "vehicle-1", 1000) ==
      [JoinedRow(ExampleReading, Some(ExampleMeters[0])), JoinedRow(ExampleReading, Some(ExampleMeters[1]))]
  {
    var v, mh, mappings := ExampleReading, ExampleMeters, ExampleMappings;
    var rows := [JoinedRow(v, Some(mh[0])), JoinedRow(v, Some(mh[1]))];
    ExampleMatchRows();
    ExampleNoNullRows();
    assert RowsFor(mh, mappings, v) == rows + NullRows(v, 0);
    assert RowsFor(mh, mappings, v) == rows;
    assert SelectReadings([v], "vehicle-1", 1000) == [v];
    assert JoinRows([v], mh, mappings) == RowsFor(mh, mappings, v) + JoinRows([v][1..], mh, mappings);
    assert [v][1..] == [];
  }

  /** The report for that example counts two rows, so the vehicle's 10 kWh DC is counted twice. */
  lemma ToleranceExample()
    ensures GetPerformance([ExampleReading], ExampleMeters, ExampleMappings, "vehicle-1", 1000) ==
      Success(PerformanceReport("vehicle-1", 20.0, 13.0, 20.0 / 13.0, 30.0, 2, None))
  {
    ToleranceExampleRows();
    var v := VehicleReading("vehicle-1", 80.0, 10.0, 30.0, 1000);
    var m1 := MeterReading("meter-1", 6.0, 230.0, 880);
    var m2 := MeterReading("meter-1", 7.0, 230.0, 1120);
    assert ExampleReading == v && ExampleMeters[0] == m1 && ExampleMeters[1] == m2;
    var last := [JoinedRow(v, Some(m2))];
    var rows := [JoinedRow(v, Some(m1))] + last;
    assert rows[1..] == last && last[1..] == [];
    assert TotalDc(last) == 10.0 && TotalAc(last) == 7.0 && TotalTemp(last) == 30.0;
    assert TotalDc(rows) == 20.0 && TotalAc(rows) == 13.0 && TotalTemp(rows) == 60.0;
  }
}
