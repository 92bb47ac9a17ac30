/**
 * The rows of the telemetry tables: the two append-only history logs, the two
 * current-status tables keyed by entity id, and the vehicle-to-meter mapping
 * pairs.  Also the meaning of the current-status tables in terms of the history
 * logs: replaying the log, the last arrival for a key wins.
 */
module Telemetry {

  /** One row of the meter history log (id column: its position in the log). */
  datatype MeterReading = MeterReading(meterId: string, kwhConsumedAc: real, voltage: real, timestamp: int)

  /** One row of the vehicle history log (id column: its position in the log). */
  datatype VehicleReading = VehicleReading(
    vehicleId: string, soc: real, kwhDeliveredDc: real, batteryTemp: real, timestamp: int)

  /** The current-status row of a meter, keyed by meterId. */
  datatype MeterStatus = MeterStatus(meterId: string, lastKwhConsumedAc: real, lastVoltage: real, lastSeen: int)

  /** The current-status row of a vehicle, keyed by vehicleId. */
  datatype VehicleStatus = VehicleStatus(
    vehicleId: string, soc: real, batteryTemp: real, lastKwhDeliveredDc: real, lastSeen: int)

  /** A row of the mapping table: (vehicleId, meterId), unique as a pair. */
  type Mapping = (string, string)

  /** The status row that ingesting reading r writes for r.meterId. */
  function MeterStatusOf(r: MeterReading): MeterStatus {
    MeterStatus(r.meterId, r.kwhConsumedAc, r.voltage, r.timestamp)
  }

  /** The status row that ingesting reading r writes for r.vehicleId. */
  function VehicleStatusOf(r: VehicleReading): VehicleStatus {
    VehicleStatus(r.vehicleId, r.soc, r.batteryTemp, r.kwhDeliveredDc, r.timestamp)
  }

  /**
   * The meter current-status table obtained by upserting every row of the
   * history log h in arrival order.  A key is present exactly when some
   * reading for it was ingested.
   */
  function MeterCurrentOf(h: seq<MeterReading>): (current: map<string, MeterStatus>)
    ensures forall id :: id in current <==> exists i :: 0 <= i < |h| && h[i].meterId == id
  {
    if h == [] then map[]
    else
      var last := h[|h| - 1];
      MeterCurrentOf(h[..|h| - 1])[last.meterId := MeterStatusOf(last)]
  }

  /** The vehicle current-status table obtained by upserting every row of h in arrival order. */
  function VehicleCurrentOf(h: seq<VehicleReading>): (current: map<string, VehicleStatus>)
    ensures forall id :: id in current <==> exists i :: 0 <= i < |h| && h[i].vehicleId == id
  {
    if h == [] then map[]
    else
      var last := h[|h| - 1];
      VehicleCurrentOf(h[..|h| - 1])[last.vehicleId := VehicleStatusOf(last)]
  }

  /**
   * Last write wins: the status row of a meter is the one written by the last
   * reading for it to ARRIVE (position i, with no later reading for the same
   * meter), whatever the timestamps of the readings.
   */
  lemma {:induction false} MeterLastWriteWins(h: seq<MeterReading>, i: nat)
    requires i < |h|
    requires forall j :: i < j < |h| ==> h[j].meterId != h[i].meterId
    ensures h[i].meterId in MeterCurrentOf(h)
    ensures MeterCurrentOf(h)[h[i].meterId] == MeterStatusOf(h[i])
  {
    if i < |h| - 1 {
      var init := h[..|h| - 1];
      assert forall j :: i < j < |init| ==> init[j] == h[j];
      MeterLastWriteWins(init, i);
    }
  }

  /** Last write wins on the vehicle side, whatever the timestamps of the readings. */
  lemma {:induction false} VehicleLastWriteWins(h: seq<VehicleReading>, i: nat)
    requires i < |h|
    requires forall j :: i < j < |h| ==> h[j].vehicleId != h[i].vehicleId
    ensures h[i].vehicleId in VehicleCurrentOf(h)
    ensures VehicleCurrentOf(h)[h[i].vehicleId] == VehicleStatusOf(h[i])
  {
    if i < |h| - 1 {
      var init := h[..|h| - 1];
      assert forall j :: i < j < |init| ==> init[j] == h[j];
      VehicleLastWriteWins(init, i);
    }
  }
}
