/** The rollout tables as the store updates them in place, and the engine that evaluates a
    device against them. */
module OtaEngine {
  import opened Common
  import OtaTables
  import OtaDispatch

  type Ota = OtaTables.Ota
  type Firmware = OtaTables.Firmware
  type Reason = OtaTables.Reason

  class Engine {
    var devices: set<string>
    var firmware: map<nat, Firmware>
    var nextFirmware: nat
    var rollouts: seq<OtaTables.Rollout>
    var updates: seq<OtaTables.OtaRow>
    var lastUpdate: nat
    /** Commands handed to the publisher: device, firmware, and message id of the row. */
    var sent: seq<(string, Firmware, string)>
    ghost var dispatches: seq<(string, nat)>
    ghost var failures: seq<(string, Option<nat>)>

    ghost function State(): Ota
      reads this
    {
      OtaTables.Ota(devices, firmware, nextFirmware, rollouts, updates, lastUpdate, dispatches, failures)
    }

    ghost predicate Valid()
      reads this
    {
      OtaDispatch.RowsOk(State()) && OtaDispatch.CountsOk(State()) && |sent| == |dispatches|
    }

    constructor ()
      ensures Valid() && State() == OtaDispatch.EMPTY_OTA
    {
      devices, firmware, nextFirmware, rollouts, updates, lastUpdate := {}, map[], 0, [], [], 0;
      sent, dispatches, failures := [], [], [];
    }

    method RegisterFirmware(product: string, hw: string, version: string, url: string) returns (id: nat)
      requires Valid()
      modifies this
      ensures Valid() && State() == OtaTables.RegisterFirmware(old(State()), product, hw, version, url)
      ensures id in firmware && firmware[id] == OtaTables.Firmware(id, product, hw, version, url)
      ensures sent == old(sent)
    {
      OtaDispatch.RegisterKeeps(State(), product, hw, version, url);
      var found := OtaTables.FindFirmware(firmware, product, hw, version);
      if found.None? {
        id := nextFirmware;
        firmware := firmware[id := OtaTables.Firmware(id, product, hw, version, url)];
        nextFirmware := nextFirmware + 1;
      } else {
        id := found.value;
        firmware := firmware[id := firmware[id].(url := url)];
      }
    }

    method DeleteFirmware(f: nat) returns (found: bool)
      requires Valid()
      modifies this
      ensures Valid() && State() == OtaTables.DeleteFirmware(old(State()), f) && found == (f in old(firmware))
      ensures sent == old(sent)
    {
      OtaDispatch.DeleteKeepsRows(State(), f);
      OtaDispatch.DeleteKeepsCounts(State(), f);
      found := f in firmware;
      if found {
        firmware := firmware - {f};
        updates := OtaTables.Detached(updates, f);
      }
    }

    method BeginOtaDispatch(device: string, f: Firmware, messageId: string) returns (outcome: OtaTables.Outcome)
      requires Valid()
      modifies this`updates, this`lastUpdate, this`dispatches
      ensures OtaDispatch.RowsOk(State()) && OtaDispatch.CountsOk(State())
      ensures (outcome, State()) == OtaTables.BeginDispatch(old(State()), device, f, messageId)
    {
      OtaDispatch.BeginKeepsRows(State(), device, f, messageId);
      OtaDispatch.BeginKeepsCounts(State(), device, f, messageId);
      if device !in devices {
        return OtaTables.NotFound;
      }
      var i := OtaTables.RowFor(updates, device, f.id);
      if i < |updates| && updates[i].status != OtaTables.Failed {
        return OtaTables.Existing(i);
      }
      if i == |updates| {
        if f.id !in firmware {
          return OtaTables.FirmwareGone;
        }
        lastUpdate := lastUpdate + 1;
        updates := updates + [OtaTables.OtaRow(lastUpdate, device, Some(f.id), f.version, OtaTables.Pending, Some(messageId))];
      } else {
        updates := updates[i := updates[i].(status := OtaTables.Pending, messageId := Some(messageId))];
      }
      dispatches := dispatches + [(device, f.id)];
      return OtaTables.Created(i);
    }

    method RecordOtaResult(device: string, status: OtaTables.Status, version: Option<string>, messageId: Option<string>)
      returns (outcome: OtaTables.Outcome)
      requires Valid()
      modifies this`updates, this`failures
      ensures Valid()
      ensures (outcome, State()) == OtaTables.RecordResult(old(State()), device, status, version, messageId)
    {
      OtaDispatch.ResultKeepsRows(State(), device, status, version, messageId);
      OtaDispatch.ResultKeepsCounts(State(), device, status, version, messageId);
      var latest := OtaTables.LatestRow(updates, device, version);
      if device !in devices || latest.None? {
        return OtaTables.NotFound;
      }
      var i := latest.value;
      if status == OtaTables.Failed {
        failures := failures + [(device, updates[i].firmware)];
      }
      updates := updates[i := updates[i].(status := status,
                                          messageId := if messageId.Some? then messageId else updates[i].messageId)];
      return OtaTables.Existing(i);
    }

    /** Offers the device its target: exactly a dispatch that was begun is published, with the
        message id of its row. Nothing is answered for an unknown device that has a target,
        which is an error. */
    method Evaluate(hash: (nat, string) -> nat, device: string, product: string, hw: string, current: string, messageId: string)
      returns (reason: Option<Reason>)
      requires Valid()
      modifies this`updates, this`lastUpdate, this`dispatches, this`sent
      ensures Valid()
      ensures (reason, State(), sent) == Evaluated(old(State()), old(sent), hash, device, product, hw, current, messageId)
    {
      var (target, why) := OtaTables.SelectTarget(rollouts, firmware, hash, device, product, hw, current);
      if target.None? {
        return Some(why);
      }
      var outcome := BeginOtaDispatch(device, target.value, messageId);
      BeginChangesUpdates(old(State()), device, target.value, messageId);
      if outcome.Created? {
        sent := sent + [(device, target.value, messageId)];
        return Some(OtaTables.Dispatched);
      }
      return if outcome.Existing? then Some(OtaTables.AlreadyDispatched) else None;
    }

    /** A device reports the version it runs: its latest row for that version, if it has one,
        succeeded, and then it is evaluated. */
    method OnVersionReport(hash: (nat, string) -> nat, device: string, product: string, hw: string, version: string, messageId: string)
      returns (reason: Option<Reason>)
      requires Valid()
      modifies this`updates, this`lastUpdate, this`dispatches, this`failures, this`sent
      ensures Valid()
      ensures var reported := OtaTables.RecordResult(old(State()), device, OtaTables.Success, Some(version), None).1;
              (reason, State(), sent) == Evaluated(reported, old(sent), hash, device, product, hw, version, messageId)
    {
      var _ := RecordOtaResult(device, OtaTables.Success, Some(version), None);
      reason := Evaluate(hash, device, product, hw, version, messageId);
    }
  }

  function Evaluated(o: Ota, sent: seq<(string, Firmware, string)>, hash: (nat, string) -> nat,
                     device: string, product: string, hw: string, current: string, messageId: string)
    : (Option<Reason>, Ota, seq<(string, Firmware, string)>)
    requires OtaTables.BuildsUnique(o.firmware)
  {
    var (target, why) := OtaTables.SelectTarget(o.rollouts, o.firmware, hash, device, product, hw, current);
    if target.None? then (Some(why), o, sent)
    else
      var (outcome, after) := OtaTables.BeginDispatch(o, device, target.value, messageId);
      if outcome.Created? then (Some(OtaTables.Dispatched), after, sent + [(device, target.value, messageId)])
      else (if outcome.Existing? then Some(OtaTables.AlreadyDispatched) else None, after, sent)
  }

  /** Evaluating again, with nothing new in between, publishes nothing and changes nothing. */
  lemma EvaluatingTwiceIsOnce(o: Ota, sent: seq<(string, Firmware, string)>, hash: (nat, string) -> nat,
                              device: string, product: string, hw: string, current: string, m1: string, m2: string)
    requires OtaDispatch.RowsOk(o)
    ensures var (r1, o1, sent1) := Evaluated(o, sent, hash, device, product, hw, current, m1);
            && OtaTables.BuildsUnique(o1.firmware)
            && var (r2, o2, sent2) := Evaluated(o1, sent1, hash, device, product, hw, current, m2);
               && o2 == o1 && sent2 == sent1 && r2 != Some(OtaTables.Dispatched)
               && (r1 != Some(OtaTables.Dispatched) ==> r2 == r1)
  {
    var target := OtaTables.SelectTarget(o.rollouts, o.firmware, hash, device, product, hw, current).0;
    if target.Some? {
      BeginChangesUpdates(o, device, target.value, m1);
      OtaDispatch.DispatchIsIdempotent(o, device, target.value, m1, m2);
    }
  }

  /** Beginning a dispatch leaves what selections read, and finds firmware that exists. */
  lemma BeginChangesUpdates(o: Ota, device: string, f: Firmware, messageId: string)
    ensures var (outcome, o') := OtaTables.BeginDispatch(o, device, f, messageId);
            && o'.rollouts == o.rollouts && o'.firmware == o.firmware && o'.devices == o.devices
            && (outcome.NotFound? <==> device !in o.devices)
            && (outcome.FirmwareGone? ==> f.id !in o.firmware)
            && (!outcome.Created? ==> o' == o)
            && |o'.dispatches| == |o.dispatches| + (if outcome.Created? then 1 else 0)
  {}
}
