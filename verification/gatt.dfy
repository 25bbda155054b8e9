/**
  The Bluetooth Low Energy side as the printer code sees it: the devices a
  scan reports, the GATT services of a device, and a radio that records
  every characteristic write in order.  Scanning, connecting and the
  writes themselves are Bleak calls; here they are data and a log.
*/
module Gatt {
  import opened Wrappers
  import opened Bytes
  import opened PyStr

  /** A GATT characteristic: its UUID and its advertised properties (`ch.properties`, possibly None). */
  datatype Characteristic = Characteristic(uuid: string, properties: Option<seq<string>>)

  datatype Service = Service(characteristics: seq<Characteristic>)

  /**
    A device as a scan reports it (`d.address` may be None), whether a
    connection to it comes up, and the services the connected client
    exposes (None when Bleak gives none).
  */
  datatype Device = Device(address: Option<string>, connects: bool, services: Option<seq<Service>>)

  /** One `write_gatt_char(uuid, data, response)` on a connection to `device`. */
  datatype GattWrite = GattWrite(device: Device, charUuid: string, data: seq<byte>, response: bool)

  /** Why a BLE print fails; all but a failed write are raised before the first write. */
  datatype BleError =
    | MissingAddress            // BLE_PRINTER_ADDR is empty
    | DeviceNotFound            // no scanned device has the address
    | NotConnected              // the connection did not come up
    | ServicesUnavailable       // no services to pick a characteristic from
    | NoWritableCharacteristic  // no characteristic advertises a write
    | ZeroChunkStep             // a chunk size of 0 makes `range()` raise
    | WriteFailed               // a write raised part-way through the payload

  /** The scan filter of `_find_device_by_address`: upper-cased addresses are equal, a missing address counting as "". */
  predicate AddressMatches(d: Device, addr: string)
  {
    Upper(d.address.GetOr("")) == Upper(addr)
  }

  /** Device i is the first in scan order that matches. */
  predicate FirstMatchAt(advertised: seq<Device>, addr: string, i: nat)
  {
    i < |advertised| && AddressMatches(advertised[i], addr) &&
    forall j :: 0 <= j < i ==> !AddressMatches(advertised[j], addr)
  }

  /**
    `_find_device_by_address(addr)`: the first device of the scan that
    matches `addr`, or None when none does.
  */
  function FindDeviceByAddress(advertised: seq<Device>, addr: string): (r: Option<Device>)
    ensures r.None? <==> forall i :: 0 <= i < |advertised| ==> !AddressMatches(advertised[i], addr)
    ensures r.Some? ==> exists i: nat :: FirstMatchAt(advertised, addr, i) && advertised[i] == r.value
  {
    if advertised == [] then None
    else if AddressMatches(advertised[0], addr) then
      assert FirstMatchAt(advertised, addr, 0);
      Some(advertised[0])
    else
      var r := FindDeviceByAddress(advertised[1..], addr);
      if r.Some? then
        var i: nat :| FirstMatchAt(advertised[1..], addr, i) && advertised[1..][i] == r.value;
        assert FirstMatchAt(advertised, addr, i + 1);
        r
      else
        assert forall i :: 1 <= i < |advertised| ==> advertised[i] == advertised[1..][i - 1];
        r
  }

  /** The lookup ignores the case of the address asked for. */
  lemma {:induction false} FindIgnoresCase(advertised: seq<Device>, addr: string)
    ensures FindDeviceByAddress(advertised, Lower(addr)) == FindDeviceByAddress(advertised, addr)
    ensures FindDeviceByAddress(advertised, Upper(addr)) == FindDeviceByAddress(advertised, addr)
  {
    UpperLower(addr);
    if advertised != [] {
      FindIgnoresCase(advertised[1..], addr);
    }
  }

  /** `ble_is_available(addr)`: a scan finds the device; nothing is connected or written. */
  function BleIsAvailable(advertised: seq<Device>, addr: string): (r: bool)
    ensures r <==> exists i :: 0 <= i < |advertised| && AddressMatches(advertised[i], addr)
  {
    FindDeviceByAddress(advertised, addr).Some?
  }

  /** The writes of `chunks`, in order, to characteristic `uuid` of `device`. */
  function Writes(device: Device, uuid: string, chunks: seq<seq<byte>>, response: bool): (r: seq<GattWrite>)
    ensures |r| == |chunks|
  {
    seq(|chunks|, i requires 0 <= i < |chunks| => GattWrite(device, uuid, chunks[i], response))
  }

  /** Writing one more chunk adds its write at the end. */
  lemma WritesSnoc(device: Device, uuid: string, chunks: seq<seq<byte>>, chunk: seq<byte>, response: bool)
    ensures Writes(device, uuid, chunks + [chunk], response) == Writes(device, uuid, chunks, response) + [GattWrite(device, uuid, chunk, response)]
  {
  }

  /** The payloads of a sequence of writes. */
  function DataOf(log: seq<GattWrite>): (r: seq<seq<byte>>)
    ensures |r| == |log|
  {
    seq(|log|, i requires 0 <= i < |log| => log[i].data)
  }

  /** What the writes of `chunks` deliver is `chunks`, in order. */
  lemma DataOfWrites(device: Device, uuid: string, chunks: seq<seq<byte>>, response: bool)
    ensures DataOf(Writes(device, uuid, chunks, response)) == chunks
  {
  }

  /** How many of `count` writes a link accepts when it faults after `budget` more (None: it never faults). */
  function Accepted(budget: Option<nat>, count: nat): (r: nat)
    ensures r <= count
    ensures r == count <==> budget.None? || count <= budget.value
  {
    if budget.None? || count <= budget.value then count else budget.value
  }

  /** What is left of the budget after `used` accepted writes. */
  function BudgetAfter(budget: Option<nat>, used: nat): Option<nat>
    requires budget.Some? ==> used <= budget.value
  {
    if budget.None? then None else Some(budget.value - used)
  }

  /**
    The radio: the devices a scan reports, how many more writes the link
    accepts before a write raises, and the log of every GATT write the
    printer received.
  */
  class Radio {
    const advertised: seq<Device>
    var budget: Option<nat>
    ghost var log: seq<GattWrite>

    constructor (advertised: seq<Device>, budget: Option<nat>)
      ensures this.advertised == advertised && this.budget == budget && log == []
    {
      this.advertised := advertised;
      this.budget := budget;
      log := [];
    }

    /**
      `client.write_gatt_char(uuid, data, response=response)` on a
      connection to `device`: it raises (`ok` false) once the budget is spent,
      and otherwise the printer receives the write.
    */
    method WriteGattChar(device: Device, uuid: string, data: seq<byte>, response: bool) returns (ok: bool)
      modifies this
      ensures ok <==> old(budget) != Some(0)
      ensures ok ==> log == old(log) + [GattWrite(device, uuid, data, response)] && budget == BudgetAfter(old(budget), 1)
      ensures !ok ==> log == old(log) && budget == old(budget)
    {
      if budget == Some(0) {
        return false;
      }
      log := log + [GattWrite(device, uuid, data, response)];
      if budget.Some? {
        budget := Some(budget.value - 1);
      }
      return true;
    }
  }
}
