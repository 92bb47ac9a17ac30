/**
 * The ingestion service: routes an untyped telemetry payload to the meter or
 * the vehicle path, and on each path appends one row to the history log and
 * overwrites the current-status row of the reading's id (the "dual write").
 * Also registers vehicle-to-meter mappings.
 */
module Ingestion {
  import opened Wrappers
  import opened Telemetry

  const MeterSaved := "meter data saved"
  const VehicleSaved := "vehicle data saved"
  const MappingRegistered := "mapping registered"
  const InvalidPayloadMessage :=
    "Invalid payload: Must contain either meterId (meter) or vehicleId (vehicle) with corresponding fields"

  /**
   * The untyped request body: every field may be absent.  Identifiers are
   * strings and numeric fields numbers when present; timestamps are seconds.
   */
  datatype Payload = Payload(
    meterId: Option<string>,
    kwhConsumedAc: Option<real>,
    voltage: Option<real>,
    vehicleId: Option<string>,
    soc: Option<real>,
    kwhDeliveredDc: Option<real>,
    batteryTemp: Option<real>,
    timestamp: Option<int>)

  /** The meter DTO built by the router: only meterId and kwhConsumedAc are known to be present. */
  datatype MeterDto = MeterDto(meterId: string, kwhConsumedAc: real, voltage: Option<real>, timestamp: Option<int>)

  /** The vehicle DTO built by the router: only vehicleId and kwhDeliveredDc are known to be present. */
  datatype VehicleDto = VehicleDto(
    vehicleId: string, soc: Option<real>, kwhDeliveredDc: real, batteryTemp: Option<real>, timestamp: Option<int>)

  /** Where the router sends a payload. */
  datatype Route = ToMeter(meter: MeterDto) | ToVehicle(vehicle: VehicleDto) | Unrouted

  /** The answer of a successful ingest. */
  datatype IngestAck =
    | MeterAck(status: string, meterId: string, timestamp: int)
    | VehicleAck(status: string, vehicleId: string, timestamp: int)

  /** The answer of a mapping registration. */
  datatype MappingAck = MappingAck(status: string, vehicleId: string, meterId: string)

  /**
   * Why an ingest fails: the payload has neither shape (a bad request), or a
   * history column declared NOT NULL received no value, so the insert is
   * refused before anything is written.
   */
  datatype IngestError = InvalidPayload(message: string) | NotNullViolation

  /** A JavaScript truthiness test on an identifier: present and not the empty string. */
  predicate Truthy(id: Option<string>) {
    id.Some? && id.value != ""
  }

  /** The meter shape: a truthy meterId and a defined kwhConsumedAc. */
  predicate IsMeterShape(p: Payload) {
    Truthy(p.meterId) && p.kwhConsumedAc.Some?
  }

  /** The vehicle shape: a truthy vehicleId and a defined kwhDeliveredDc. */
  predicate IsVehicleShape(p: Payload) {
    Truthy(p.vehicleId) && p.kwhDeliveredDc.Some?
  }

  /**
   * Field sniffing: the meter test runs first, so a payload of both shapes
   * goes to the meter path; a payload of neither shape is not routed.  The
   * DTO copies the payload's fields unchanged.
   */
  function Classify(p: Payload): (r: Route)
    ensures r.ToMeter? <==> IsMeterShape(p)
    ensures r.ToVehicle? <==> !IsMeterShape(p) && IsVehicleShape(p)
    ensures r.Unrouted? <==> !IsMeterShape(p) && !IsVehicleShape(p)
    ensures r.ToMeter? ==>
      r.meter.meterId == p.meterId.value && r.meter.kwhConsumedAc == p.kwhConsumedAc.value &&
      r.meter.voltage == p.voltage && r.meter.timestamp == p.timestamp
    ensures r.ToVehicle? ==>
      r.vehicle.vehicleId == p.vehicleId.value && r.vehicle.kwhDeliveredDc == p.kwhDeliveredDc.value &&
      r.vehicle.soc == p.soc && r.vehicle.batteryTemp == p.batteryTemp && r.vehicle.timestamp == p.timestamp
  {
    if p.meterId.Some? && p.meterId.value != "" && p.kwhConsumedAc.Some? then
      ToMeter(MeterDto(p.meterId.value, p.kwhConsumedAc.value, p.voltage, p.timestamp))
    else if p.vehicleId.Some? && p.vehicleId.value != "" && p.kwhDeliveredDc.Some? then
      ToVehicle(VehicleDto(p.vehicleId.value, p.soc, p.kwhDeliveredDc.value, p.batteryTemp, p.timestamp))
    else
      Unrouted
  }

  /** The history row a meter DTO inserts; refused when a NOT NULL column would be empty. */
  function MeterRow(d: MeterDto): (r: Result<MeterReading, IngestError>)
    ensures r.Success? <==> d.voltage.Some? && d.timestamp.Some?
    ensures r.Success? ==>
      r.value == MeterReading(d.meterId, d.kwhConsumedAc, d.voltage.value, d.timestamp.value)
    ensures r.Failure? ==> r.error == NotNullViolation
  {
    match (d.voltage, d.timestamp)
    case (Some(volts), Some(ts)) => Success(MeterReading(d.meterId, d.kwhConsumedAc, volts, ts))
    case _ => Failure(NotNullViolation)
  }

  /** The history row a vehicle DTO inserts; refused when a NOT NULL column would be empty. */
  function VehicleRow(d: VehicleDto): (r: Result<VehicleReading, IngestError>)
    ensures r.Success? <==> d.soc.Some? && d.batteryTemp.Some? && d.timestamp.Some?
    ensures r.Success? ==>
      r.value == VehicleReading(d.vehicleId, d.soc.value, d.kwhDeliveredDc, d.batteryTemp.value, d.timestamp.value)
    ensures r.Failure? ==> r.error == NotNullViolation
  {
    match (d.soc, d.batteryTemp, d.timestamp)
    case (Some(charge), Some(temp), Some(ts)) =>
      Success(VehicleReading(d.vehicleId, charge, d.kwhDeliveredDc, temp, ts))
    case _ => Failure(NotNullViolation)
  }

  /** The payload a meter client sends for reading r. */
  function MeterPayload(r: MeterReading): Payload {
    Payload(Some(r.meterId), Some(r.kwhConsumedAc), Some(r.voltage), None, None, None, None, Some(r.timestamp))
  }

  /** The payload a vehicle client sends for reading r. */
  function VehiclePayload(r: VehicleReading): Payload {
    Payload(None, None, None, Some(r.vehicleId), Some(r.soc), Some(r.kwhDeliveredDc), Some(r.batteryTemp),
            Some(r.timestamp))
  }

  /** A complete meter payload with a non-empty id is routed to the meter path and stored unchanged. */
  lemma MeterPayloadRoundTrip(r: MeterReading)
    requires r.meterId != ""
    ensures Classify(MeterPayload(r)).ToMeter?
    ensures MeterRow(Classify(MeterPayload(r)).meter) == Success(r)
  {
  }

  /** A complete vehicle payload with a non-empty id is routed to the vehicle path and stored unchanged. */
  lemma VehiclePayloadRoundTrip(r: VehicleReading)
    requires r.vehicleId != ""
    ensures Classify(VehiclePayload(r)).ToVehicle?
    ensures VehicleRow(Classify(VehiclePayload(r)).vehicle) == Success(r)
  {
  }

  /** The service state: two history logs, two current-status tables and the mapping set. */
  class IngestionService {
    var meterHistory: seq<MeterReading>
    var meterCurrent: map<string, MeterStatus>
    var vehicleHistory: seq<VehicleReading>
    var vehicleCurrent: map<string, VehicleStatus>
    var mappings: set<Mapping>

    /** Each current-status table is what replaying its history log in arrival order gives. */
    ghost predicate Valid()
      reads this
    {
      && meterCurrent == MeterCurrentOf(meterHistory)
      && vehicleCurrent == VehicleCurrentOf(vehicleHistory)
    }

    constructor ()
      ensures Valid()
      ensures meterHistory == [] && meterCurrent == map[]
      ensures vehicleHistory == [] && vehicleCurrent == map[]
      ensures mappings == {}
    {
      meterHistory, meterCurrent := [], map[];
      vehicleHistory, vehicleCurrent := [], map[];
      mappings := {};
    }

    /**
     * Cold path: append the reading to the meter history.  Hot path: overwrite
     * the status row of r.meterId, whatever the timestamp of the row it replaces.
     */
    method IngestMeter(r: MeterReading) returns (ack: IngestAck)
      requires Valid()
      modifies this
      ensures Valid()
      ensures meterHistory == old(meterHistory) + [r]
      ensures meterCurrent == old(meterCurrent)[r.meterId := MeterStatusOf(r)]
      ensures vehicleHistory == old(vehicleHistory) && vehicleCurrent == old(vehicleCurrent)
      ensures mappings == old(mappings)
      ensures ack == MeterAck(MeterSaved, r.meterId, r.timestamp)
    {
      meterHistory := meterHistory + [r];
      meterCurrent := meterCurrent[r.meterId := MeterStatusOf(r)];
      assert meterHistory[..|meterHistory| - 1] == old(meterHistory);
      ack := MeterAck(MeterSaved, r.meterId, r.timestamp);
    }

    /** The vehicle dual write: append to the vehicle history, overwrite the status row of r.vehicleId. */
    method IngestVehicle(r: VehicleReading) returns (ack: IngestAck)
      requires Valid()
      modifies this
      ensures Valid()
      ensures vehicleHistory == old(vehicleHistory) + [r]
      ensures vehicleCurrent == old(vehicleCurrent)[r.vehicleId := VehicleStatusOf(r)]
      ensures meterHistory == old(meterHistory) && meterCurrent == old(meterCurrent)
      ensures mappings == old(mappings)
      ensures ack == VehicleAck(VehicleSaved, r.vehicleId, r.timestamp)
    {
      vehicleHistory := vehicleHistory + [r];
      vehicleCurrent := vehicleCurrent[r.vehicleId := VehicleStatusOf(r)];
      assert vehicleHistory[..|vehicleHistory| - 1] == old(vehicleHistory);
      ack := VehicleAck(VehicleSaved, r.vehicleId, r.timestamp);
    }

    /**
     * The polymorphic endpoint: classify, then run the chosen dual write.  An
     * unrouted payload is a bad request and a payload whose row would leave a
     * NOT NULL column empty is refused by the history insert; in both cases no
     * collection changes.
     */
    method IngestPolymorphic(p: Payload) returns (res: Result<IngestAck, IngestError>)
      requires Valid()
      modifies this
      ensures Valid()
      ensures mappings == old(mappings)
      ensures Classify(p).Unrouted? ==>
        res == Failure(InvalidPayload(InvalidPayloadMessage)) && unchanged(this)
      ensures Classify(p).ToMeter? ==>
        match MeterRow(Classify(p).meter)
        case Failure(e) => res == Failure(e) && unchanged(this)
        case Success(r) =>
          && res == Success(MeterAck(MeterSaved, r.meterId, r.timestamp))
          && meterHistory == old(meterHistory) + [r]
          && meterCurrent == old(meterCurrent)[r.meterId := MeterStatusOf(r)]
          && vehicleHistory == old(vehicleHistory) && vehicleCurrent == old(vehicleCurrent)
      ensures Classify(p).ToVehicle? ==>
        match VehicleRow(Classify(p).vehicle)
        case Failure(e) => res == Failure(e) && unchanged(this)
        case Success(r) =>
          && res == Success(VehicleAck(VehicleSaved, r.vehicleId, r.timestamp))
          && vehicleHistory == old(vehicleHistory) + [r]
          && vehicleCurrent == old(vehicleCurrent)[r.vehicleId := VehicleStatusOf(r)]
          && meterHistory == old(meterHistory) && meterCurrent == old(meterCurrent)
    {
      match Classify(p)
      case ToMeter(d) =>
        match MeterRow(d) {
          case Failure(e) => res := Failure(e);
          case Success(r) =>
            var ack := IngestMeter(r);
            res := Success(ack);
        }
      case ToVehicle(d) =>
        match VehicleRow(d) {
          case Failure(e) => res := Failure(e);
          case Success(r) =>
            var ack := IngestVehicle(r);
            res := Success(ack);
        }
      case Unrouted =>
        res := Failure(InvalidPayload(InvalidPayloadMessage));
    }

    /**
     * Upsert on the unique pair (vehicleId, meterId): a set insertion, so
     * registering a pair that is already present changes nothing and still
     * reports success.
     */
    method RegisterVehicleMeterMapping(vehicleId: string, meterId: string) returns (ack: MappingAck)
      requires Valid()
      modifies this
      ensures Valid()
      ensures mappings == old(mappings) + {(vehicleId, meterId)}
      ensures (vehicleId, meterId) in old(mappings) ==> mappings == old(mappings)
      ensures meterHistory == old(meterHistory) && meterCurrent == old(meterCurrent)
      ensures vehicleHistory == old(vehicleHistory) && vehicleCurrent == old(vehicleCurrent)
      ensures ack == MappingAck(MappingRegistered, vehicleId, meterId)
    {
      mappings := mappings + {(vehicleId, meterId)};
      ack := MappingAck(MappingRegistered, vehicleId, meterId);
    }
  }

  /**
   * A client of the service: a payload carrying both shapes is stored as a
   * meter reading, a payload with only a timestamp is rejected, a late reading
   * with an OLDER timestamp still overwrites the status row, and registering a
   * mapping twice leaves one pair.
   */
  method ServiceScenario()
  {
    var s := new IngestionService();
    var both := Payload(Some("meter-1"), Some(150.5), Some(230.0), Some("vehicle-1"), Some(85.5), Some(120.0),
                        Some(35.2), Some(1000));
    var res := s.IngestPolymorphic(both);
    assert res == Success(MeterAck(MeterSaved, "meter-1", 1000));
    assert s.meterHistory == [MeterReading("meter-1", 150.5, 230.0, 1000)] && s.vehicleHistory == [];

    var onlyTime := Payload(None, None, None, None, None, None, None, Some(1000));
    res := s.IngestPolymorphic(onlyTime);
    assert res.Failure? && res.error.InvalidPayload?;

    var noDc := Payload(None, None, None, Some("vehicle-1"), Some(85.5), None, Some(35.2), Some(1000));
    res := s.IngestPolymorphic(noDc);
    assert res.Failure? && res.error.InvalidPayload?;
    assert s.vehicleHistory == [];

    var _ := s.IngestVehicle(VehicleReading("vehicle-1", 80.0, 10.0, 30.0, 2000));
    var _ := s.IngestVehicle(VehicleReading("vehicle-1", 70.0, 12.0, 31.0, 1500));
    assert s.vehicleCurrent["vehicle-1"] == VehicleStatus("vehicle-1", 70.0, 31.0, 12.0, 1500);

    var a1 := s.RegisterVehicleMeterMapping("vehicle-1", "meter-1");
    var a2 := s.RegisterVehicleMeterMapping("vehicle-1", "meter-1");
    assert a1 == a2 && a1.status == MappingRegistered;
    assert s.mappings == {("vehicle-1", "meter-1")};
  }
}
