/**
 The engine's two dictionaries and their read accessors.

 `_known_devices` maps a device id to its radio channel and is the durable
 identity set; `_devices` maps a device id to a small dict of telemetry
 (`state`, `power`, `consumption`, `channel`). Because the engine builds
 those inner dicts key by key, an entry can lack keys or hold `None`; a
 `Slot` records which of the three a key is in.
 */
module Registry {
  import opened Wrappers

  /**
   A channel as stored in `_known_devices`: the raw text token a scan
   recorded, or a number a persisted mapping may hold instead.
   */
  datatype Channel = ChanText(text: string) | ChanNumber(number: int)

  /** One key of an inner device dict: absent, present holding `None`, or holding a value. */
  datatype Slot<+T> = Missing | Null | Has(value: T)

  /**
   One inner dict of `_devices`. `power` and `consumption` are the raw
   integers `hi * 256 + lo` of the frame, in tenths of a watt and hundredths
   of a kWh.
   */
  datatype Entry = Entry(state: Slot<int>, power: Slot<int>, consumption: Slot<int>, channel: Slot<Channel>)

  type Devices = map<string, Entry>

  type Known = map<string, Channel>

  /** The entry `{}`. */
  const EmptyEntry := Entry(Missing, Missing, Missing, Missing)

  /** The entry a telemetry frame creates for an id not yet present: every key holds `None`. */
  const NullEntry := Entry(Null, Null, Null, Null)

  /** The zeroed entry a known device is (re)seeded with. */
  function Zeroed(c: Channel): Entry {
    Entry(Has(0), Has(0), Has(0), Has(c))
  }

  /**
   Reseeds `devices` from the known devices: every known id gets a zeroed
   entry carrying its known channel, every other entry stays as it was.
   */
  function Seed(devices: Devices, known: Known): (r: Devices)
    ensures r.Keys == devices.Keys + known.Keys
    ensures forall d :: d in known ==> r[d] == Zeroed(known[d])
    ensures forall d :: d in devices && d !in known ==> r[d] == devices[d]
  {
    devices + map d | d in known :: Zeroed(known[d])
  }

  /**
   `get_devices`: when no telemetry entry exists yet but known devices do,
   the registry is first filled with zeroed entries for exactly the known
   ids; otherwise it is returned as it is. The result is also the new
   `_devices`.
   */
  function GetDevices(devices: Devices, known: Known): (r: Devices)
    ensures devices == map[] && known != map[] ==>
              r.Keys == known.Keys && forall d :: d in known ==> r[d] == Zeroed(known[d])
    ensures devices != map[] || known == map[] ==> r == devices
  {
    if devices == map[] && known != map[] then Seed(devices, known) else devices
  }

  /** The value `d.get(key)` returns for a slot: `None` for a missing key or a `None` value. */
  function Get<T>(s: Slot<T>): (r: Option<T>)
    ensures r.Some? <==> s.Has?
    ensures r.Some? ==> r.value == s.value
  {
    if s.Has? then Some(s.value) else None
  }

  /**
   `get_state`: the state of a device, or `None` when the device is absent,
   has no `state` key, or holds `None` there; it never raises.
   */
  function GetState(devices: Devices, id: string): (r: Option<int>)
    ensures id !in devices ==> r == None
    ensures r.Some? <==> id in devices && devices[id].state.Has?
    ensures r.Some? ==> r.value == devices[id].state.value
  {
    if id in devices then Get(devices[id].state) else None
  }

  /** `get_current_power`: the raw power reading; unlike `get_state` it raises `KeyError`. */
  function GetCurrentPower(devices: Devices, id: string): (r: Result<Option<int>>)
    ensures r.Raised? <==> id !in devices || devices[id].power.Missing?
    ensures r.Raised? ==> r.error == KeyError
    ensures r.Ok? && r.value.None? ==> devices[id].power == Null
    ensures r.Ok? && r.value.Some? ==> devices[id].power == Has(r.value.value)
  {
    if id !in devices || devices[id].power.Missing? then Raised(KeyError)
    else Ok(Get(devices[id].power))
  }

  /** `get_total_consumption`: the raw consumption reading; raises `KeyError` like `get_current_power`. */
  function GetTotalConsumption(devices: Devices, id: string): (r: Result<Option<int>>)
    ensures r.Raised? <==> id !in devices || devices[id].consumption.Missing?
    ensures r.Raised? ==> r.error == KeyError
    ensures r.Ok? && r.value.None? ==> devices[id].consumption == Null
    ensures r.Ok? && r.value.Some? ==> devices[id].consumption == Has(r.value.value)
  {
    if id !in devices || devices[id].consumption.Missing? then Raised(KeyError)
    else Ok(Get(devices[id].consumption))
  }

  /** `get_devices` is idempotent: a second call sees a non-empty registry or nothing to seed. */
  lemma GetDevicesIdempotent(devices: Devices, known: Known)
    ensures GetDevices(GetDevices(devices, known), known) == GetDevices(devices, known)
  {
    var r := GetDevices(devices, known);
    if devices == map[] && known != map[] {
      var k :| k in known;
      assert k in r;
    }
  }
}
