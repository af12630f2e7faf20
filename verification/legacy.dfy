/**
 The older copy of the engine (the root `pypca.py`). Its scan, refresher,
 wire join and registry reads are the same logic as the packaged copy's and
 are modelled once in the other modules; what differs is `turn_on` and
 `turn_off`, which write the switch command and set the state but send no
 status request afterwards.
 */
module Legacy {
  import opened Wrappers
  import opened Registry
  import opened Commands

  /**
   The older `turn_on` (`on`) and `turn_off` once the switch command has been
   built or has failed: a failed command raises before anything is written;
   otherwise exactly its text is written, then the state is set (`KeyError`
   for an id without an entry) and true returned.
   */
  function SetOnly(devices: Devices, id: string, on: bool, switch: Result<seq<int>>): (r: Outcome)
    ensures switch.Raised? ==> r == Outcome([], devices, Raised(switch.error))
    ensures switch.Ok? && id !in devices ==> r == Outcome([Wire(switch.value)], devices, Raised(KeyError))
    ensures switch.Ok? && id in devices ==>
      && r.written == [Wire(switch.value)] && r.result == Ok(true)
      && r.devices.Keys == devices.Keys
      && GetState(r.devices, id) == Some(if on then 1 else 0)
      && r.devices[id] == devices[id].(state := r.devices[id].state)
      && (forall k :: k in devices && k != id ==> r.devices[k] == devices[k])
  {
    match switch
    case Raised(e) => Outcome([], devices, Raised(e))
    case Ok(cmd) =>
      if id !in devices then Outcome([Wire(cmd)], devices, Raised(KeyError))
      else Outcome([Wire(cmd)], devices[id := devices[id].(state := Has(if on then 1 else 0))], Ok(true))
  }

  /**
   The older `turn_on` and `turn_off` of device `id`: `ValueError`, with
   nothing written and the registry unchanged, exactly when the switch
   command cannot be built; otherwise exactly its text is written, and on
   return the state reads 1 or 0.
   */
  function Turn(devices: Devices, known: Known, id: string, on: bool): (r: Outcome)
    ensures CommandFields(known, id, SetState(on)).Raised? <==> r.result == Raised(ValueError)
    ensures r.result == Raised(ValueError) ==> r.written == [] && r.devices == devices
    ensures r.result == Raised(KeyError) ==> id !in devices && r.devices == devices
    ensures r.result != Raised(ValueError) ==>
      && CommandFields(known, id, SetState(on)).Ok?
      && r.written == [Wire(CommandFields(known, id, SetState(on)).value)]
    ensures r.result.Ok? ==> r.result.value && GetState(r.devices, id) == Some(if on then 1 else 0)
  {
    SetOnly(devices, id, on, CommandFields(known, id, SetState(on)))
  }

  /**
   With the commands given: whenever the status command is built whenever
   the switch command is, the packaged sequence differs from the older one
   only by the status text written last.
   */
  lemma SetOnlyThenStatus(devices: Devices, id: string, on: bool, switch: Result<seq<int>>, status: Result<seq<int>>)
    requires switch.Ok? ==> status.Ok?
    ensures var older, packaged := SetOnly(devices, id, on, switch), Switch(devices, id, on, switch, status);
      && older.devices == packaged.devices
      && older.result == packaged.result
      && older.written == packaged.written[..|older.written|]
      && |packaged.written| == |older.written| + (if packaged.result.Ok? then 1 else 0)
  {
  }

  /**
   The packaged `turn_on` and `turn_off` differ from the older ones only by
   the status request: same registry, same result, and the older copy writes
   just the first of the packaged copy's texts.
   */
  lemma TurnAddsOnlyStatus(devices: Devices, known: Known, id: string, on: bool)
    ensures var older, packaged := Turn(devices, known, id, on), Commands.Turn(devices, known, id, on);
      && older.devices == packaged.devices
      && older.result == packaged.result
      && older.written == packaged.written[..|older.written|]
      && |packaged.written| == |older.written| + (if packaged.result.Ok? then 1 else 0)
  {
    var switch := CommandFields(known, id, SetState(on));
    var status := CommandFields(known, id, StatusQuery);
    SetOnlyThenStatus(devices, id, on, switch, status);
  }
}
