/** What a dispatch, a result and an evaluation do to the update rows, in plain values. */
module OtaLaws {
  import opened Common
  import opened OtaTables
  import opened OtaDispatch
  import opened OtaEngine

  // --- Dispatches and results -------------------------------------------------------------

  /** The update row of a device and a firmware. */
  predicate IsRow(o: Ota, i: nat, d: string, f: nat) {
    i < |o.updates| && o.updates[i].device == d && o.updates[i].firmware == Some(f)
  }

  /** Beginning a dispatch: an update that has not failed is left alone; a failed one is
      pending again under the new message id; without one, registered firmware gets a new
      row, pending, with an id above all others. */
  lemma BeginIsExact(o: Ota, d: string, f: Firmware, messageId: string, i: nat)
    requires RowsOk(o) && d in o.devices
    ensures var (outcome, o') := BeginDispatch(o, d, f, messageId);
            && (IsRow(o, i, d, f.id) && o.updates[i].status != Failed ==> outcome == Existing(i) && o' == o)
            && (IsRow(o, i, d, f.id) && o.updates[i].status == Failed ==>
                  && outcome == Created(i)
                  && o' == o.(updates := o.updates[i := o.updates[i].(status := Pending, messageId := Some(messageId))],
                              dispatches := o.dispatches + [(d, f.id)]))
            && (!HasRow(o.updates, d, f.id) && f.id !in o.firmware ==> outcome == FirmwareGone && o' == o)
            && (!HasRow(o.updates, d, f.id) && f.id in o.firmware ==>
                  && outcome == Created(|o.updates|) && o'.lastUpdate > o.lastUpdate
                  && o' == o.(updates := o.updates + [OtaRow(o'.lastUpdate, d, Some(f.id), f.version, Pending, Some(messageId))],
                              lastUpdate := o'.lastUpdate, dispatches := o.dispatches + [(d, f.id)])
                  && forall k :: 0 <= k < |o.updates| ==> o.updates[k].id < o'.lastUpdate)
  {
    var k := RowFor(o.updates, d, f.id);
    if IsRow(o, i, d, f.id) { SameRow(o, i, k); }
  }

  lemma UnknownDeviceHasNoUpdates(o: Ota, d: string, f: Firmware, status: Status, version: Option<string>,
                                  messageId: string, id: Option<string>)
    requires d !in o.devices
    ensures BeginDispatch(o, d, f, messageId) == (NotFound, o)
    ensures RecordResult(o, d, status, version, id) == (NotFound, o)
  {}

  /** Row `i` is the device's latest, among those for the version if one is given. */
  predicate IsLatest(o: Ota, i: nat, d: string, version: Option<string>) {
    && i < |o.updates| && o.updates[i].device == d && (version.None? || Some(o.updates[i].target) == version)
    && forall k :: i < k < |o.updates| && o.updates[k].device == d ==> version.Some? && Some(o.updates[k].target) != version
  }

  /** A result is written on the device's latest row, for its version if it names one: the row
      then has exactly the reported status, and the message id that was given, if one was.
      Every other row stays; without such a row nothing changes. */
  lemma ResultIsExact(o: Ota, d: string, status: Status, version: Option<string>, id: Option<string>)
    requires d in o.devices
    ensures var (outcome, o') := RecordResult(o, d, status, version, id);
            && (forall i: nat :: IsLatest(o, i, d, version) ==>
                  var row := o.updates[i];
                  && outcome == Existing(i)
                  && o' == o.(updates := o.updates[i := OtaRow(row.id, d, row.firmware, row.target, status,
                                                               if id.Some? then id else row.messageId)],
                              failures := if status == Failed then o.failures + [(d, row.firmware)] else o.failures))
            && ((forall i :: 0 <= i < |o.updates| && o.updates[i].device == d ==>
                   version.Some? && Some(o.updates[i].target) != version) ==>
                  outcome == NotFound && o' == o)
  {
    var r := LatestRow(o.updates, d, version);
    forall i: nat | IsLatest(o, i, d, version) ensures r == Some(i) {
      assert Reports(o.updates[i], d, version);
    }
    if r.Some? { assert Reports(o.updates[r.value], d, version); }
  }

  /** Dispatch, failure, dispatch: a failed update is dispatched again, on the same row and
      under the new message id. Until it fails it is not, whatever else is reported. */
  lemma FailedIsDispatchedAgain(o: Ota, d: string, f: Firmware, m1: string, m2: string, status: Status)
    requires RowsOk(o) && d in o.devices && f.id in o.firmware
    requires !HasRow(o.updates, d, f.id)
    ensures var o1 := BeginDispatch(o, d, f, m1).1;
            var o2 := RecordResult(o1, d, status, Some(f.version), None).1;
            var (outcome, o3) := BeginDispatch(o2, d, f, m2); var i := |o.updates|;
            && |o1.updates| == |o2.updates| == |o3.updates| == i + 1
            && o1.updates[i].status == Pending && o1.updates[i].messageId == Some(m1)
            && o2.updates[i] == o1.updates[i].(status := status)
            && outcome == (if status == Failed then Created(i) else Existing(i))
            && o3.updates[i] == (if status == Failed then o1.updates[i].(messageId := Some(m2)) else o2.updates[i])
  {
    var i := |o.updates|;
    BeginIsExact(o, d, f, m1, i);
    var o1 := BeginDispatch(o, d, f, m1).1;
    BeginKeepsRows(o, d, f, m1);
    assert IsLatest(o1, i, d, Some(f.version));
    ResultIsExact(o1, d, status, Some(f.version), None);
    var o2 := RecordResult(o1, d, status, Some(f.version), None).1;
    ResultKeepsRows(o1, d, status, Some(f.version), None);
    BeginIsExact(o2, d, f, m2, i);
  }

  // --- Registering and deleting firmware -----------------------------------------------------

  /** Registering a build that is known keeps its id and gives it the new address; a new one
      gets an id never used before. No other firmware and nothing else changes. */
  lemma RegisterIsExact(o: Ota, product: string, hw: string, version: string, url: string, f: nat)
    requires RowsOk(o)
    ensures var o' := RegisterFirmware(o, product, hw, version, url);
            var known := f in o.firmware && o.firmware[f].product == product && o.firmware[f].hw == hw && o.firmware[f].version == version;
            && o'.(firmware := o.firmware, nextFirmware := o.nextFirmware) == o
            && (known ==> o'.firmware == o.firmware[f := Firmware(f, product, hw, version, url)] && o'.nextFirmware == o.nextFirmware)
            && ((forall g :: g in o.firmware ==>
                   !(o.firmware[g].product == product && o.firmware[g].hw == hw && o.firmware[g].version == version)) ==>
                  && o.nextFirmware !in o.firmware && o'.nextFirmware > o.nextFirmware
                  && o'.firmware == o.firmware[o.nextFirmware := Firmware(o.nextFirmware, product, hw, version, url)])
  {}

  /** Deleting firmware detaches its rows and touches nothing else. */
  lemma DeleteIsExact(o: Ota, f: nat)
    ensures var o' := DeleteFirmware(o, f);
            && (f !in o.firmware ==> o' == o)
            && (f in o.firmware ==>
                  && o'.(firmware := o.firmware, updates := o.updates) == o
                  && o'.firmware.Keys == o.firmware.Keys - {f} && (forall g :: g in o'.firmware ==> o'.firmware[g] == o.firmware[g])
                  && |o'.updates| == |o.updates|
                  && forall i :: 0 <= i < |o.updates| ==>
                       o'.updates[i] == if o.updates[i].firmware == Some(f) then o.updates[i].(firmware := None) else o.updates[i])
  {}

  // --- Evaluation ------------------------------------------------------------------------------

  /** Rollout `i` is enabled, made for the product and hardware, and for the version the
      device runs if it names one. */
  predicate IsFor(r: Rollout, product: string, hw: string, current: string) {
    r.enabled && r.product == product && r.hw == hw && (r.from == None || r.from == Some(current))
  }

  /** Of these it was updated last; the larger id decides between equals. */
  predicate IsNewest(rollouts: seq<Rollout>, i: nat, product: string, hw: string, current: string) {
    && i < |rollouts| && IsFor(rollouts[i], product, hw, current)
    && forall k :: 0 <= k < |rollouts| && IsFor(rollouts[k], product, hw, current) && k != i ==>
         rollouts[k].updatedAt < rollouts[i].updatedAt
         || (rollouts[k].updatedAt == rollouts[i].updatedAt && rollouts[k].id < rollouts[i].id)
  }

  predicate NoBuild(firmware: map<nat, Firmware>, product: string, hw: string, version: string) {
    forall g :: g in firmware ==>
      !(firmware[g].product == product && firmware[g].hw == hw && firmware[g].version == version)
  }

  /** Every answer of the selection, and when it is given. Only the newest rollout decides. */
  lemma SelectionIsExact(rollouts: seq<Rollout>, firmware: map<nat, Firmware>, hash: (nat, string) -> nat,
                         device: string, product: string, hw: string, current: string, i: nat)
    requires BuildsUnique(firmware)
    ensures var (target, reason) := SelectTarget(rollouts, firmware, hash, device, product, hw, current);
            && ((forall k :: 0 <= k < |rollouts| ==> !IsFor(rollouts[k], product, hw, current)) ==>
                  target == None && reason == NoRollout)
            && (IsNewest(rollouts, i, product, hw, current) ==>
                  var r := rollouts[i];
                  var answer := if r.target == current then UpToDate
                                else if !(hash(r.id, device) % 100 < r.percent) then NotSelected
                                else if NoBuild(firmware, product, hw, r.target) then FirmwareMissing else Match;
                  && reason == answer
                  && (answer != Match ==> target == None)
                  && (answer == Match ==>
                        exists f :: f in firmware && target == Some(firmware[f])
                                 && firmware[f].product == product && firmware[f].hw == hw && firmware[f].version == r.target))
  {
    var best := Candidate(rollouts, product, hw, current);
    if IsNewest(rollouts, i, product, hw, current) {
      var k :| 0 <= k < |rollouts| && rollouts[k] == best.value;
      assert Newer(rollouts[k], rollouts[i]);
      assert k == i;
      var r := rollouts[i];
      GrayShare(0, r.percent, hash(r.id, device));
    }
  }

  /** A device with a target and no update for it is dispatched: a pending row with the
      message id, and the command handed to the publisher under the same id. With an update
      that has not failed, nothing happens. */
  lemma EvaluationDispatches(o: Ota, sent: seq<(string, Firmware, string)>, hash: (nat, string) -> nat,
                             device: string, product: string, hw: string, current: string, messageId: string, i: nat)
    requires RowsOk(o) && device in o.devices
    ensures var (target, why) := SelectTarget(o.rollouts, o.firmware, hash, device, product, hw, current);
            var (reason, o', sent') := Evaluated(o, sent, hash, device, product, hw, current, messageId);
            && (target.None? ==> reason == Some(why) && o' == o && sent' == sent)
            && (target.Some? ==>
                  var f := target.value;
                  && (IsRow(o, i, device, f.id) && o.updates[i].status != Failed ==>
                        reason == Some(AlreadyDispatched) && o' == o && sent' == sent)
                  && (!HasRow(o.updates, device, f.id) || (IsRow(o, i, device, f.id) && o.updates[i].status == Failed) ==>
                        && reason == Some(OtaTables.Dispatched) && sent' == sent + [(device, f, messageId)]
                        && exists k: nat :: IsRow(o', k, device, f.id) && o'.updates[k].status == Pending
                                    && o'.updates[k].messageId == Some(messageId)))
  {
    var target := SelectTarget(o.rollouts, o.firmware, hash, device, product, hw, current).0;
    if target.Some? {
      var f := target.value;
      TargetIsFirmware(o, hash, device, product, hw, current);
      BeginIsExact(o, device, f, messageId, i);
      var o' := BeginDispatch(o, device, f, messageId).1;
      if !HasRow(o.updates, device, f.id) { assert IsRow(o', |o.updates|, device, f.id); }
      if IsRow(o, i, device, f.id) { assert HasRow(o.updates, device, f.id) && (o.updates[i].status == Failed ==> IsRow(o', i, device, f.id)); }
    }
  }

  lemma TargetIsFirmware(o: Ota, hash: (nat, string) -> nat, device: string, product: string, hw: string, current: string)
    requires RowsOk(o)
    ensures var target := SelectTarget(o.rollouts, o.firmware, hash, device, product, hw, current).0;
            target.Some? ==> target.value.id in o.firmware
  {}
}
