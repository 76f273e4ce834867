/** Firmware rollouts: which firmware a device should run, and the record of what was
    dispatched to it. */
module OtaTables {
  import opened Common

  datatype Firmware = Firmware(id: nat, product: string, hw: string, version: string, url: string)

  datatype Rollout = Rollout(
    id: nat, product: string, hw: string, target: string, from: Option<string>,
    percent: int, enabled: bool, updatedAt: int)

  datatype Status = Pending | Downloading | Success | Failed

  datatype OtaRow = OtaRow(
    id: nat, device: string, firmware: Option<nat>, target: string, status: Status, messageId: Option<string>)

  /** Firmware ids are never reused. `dispatches` records every dispatch begun, and `failures`
      every "failed" result written, with the firmware of the row it was written to. */
  datatype Ota = Ota(
    devices: set<string>,
    firmware: map<nat, Firmware>, nextFirmware: nat,
    rollouts: seq<Rollout>,
    updates: seq<OtaRow>, lastUpdate: nat,
    dispatches: seq<(string, nat)>,
    failures: seq<(string, Option<nat>)>)

  datatype Reason = Match | NoRollout | UpToDate | NotSelected | FirmwareMissing | AlreadyDispatched | Dispatched

  // --- Grey rollouts ------------------------------------------------------------------------

  const PREFIXES := 0x1_0000_0000

  /** Whether a device whose hash has this 32-bit prefix takes part at `percent`. */
  predicate GraySelected(prefix: nat, percent: int) {
    if percent >= 100 then true
    else if percent <= 0 then false
    else prefix % 100 < percent
  }

  /** How many of the first `n` prefixes are selected. */
  function CountSelected(n: nat, percent: int): nat {
    if n == 0 then 0 else CountSelected(n - 1, percent) + if GraySelected(n - 1, percent) then 1 else 0
  }

  lemma {:induction false} CountClosedForm(n: nat, percent: nat)
    requires percent <= 100
    ensures CountSelected(n, percent) == n / 100 * percent + Min(n % 100, percent)
  {
    if n > 0 {
      CountClosedForm(n - 1, percent);
      if n % 100 == 0 {
        assert (n - 1) / 100 == n / 100 - 1 && (n - 1) % 100 == 99;
        assert n / 100 * percent == (n / 100 - 1) * percent + percent;
      } else {
        assert (n - 1) / 100 == n / 100 && (n - 1) % 100 == n % 100 - 1;
      }
    }
  }

  /** Of all prefixes exactly `42949672 * p + min(p, 96)` are selected, within four of the
      ideal share; the early answers agree with the remainder test for every percentage, and
      so raising it never deselects a device. */
  lemma GrayShare(percent: nat, more: int, prefix: nat)
    requires percent <= 100
    ensures var k := CountSelected(PREFIXES, percent);
            && k == 42949672 * percent + Min(percent, 96)
            && -400 < 100 * k - PREFIXES * percent < 400
    ensures GraySelected(prefix, more) <==> prefix % 100 < more
    ensures percent <= more && GraySelected(prefix, percent) ==> GraySelected(prefix, more)
  {
    CountClosedForm(PREFIXES, percent);
    assert PREFIXES / 100 == 42949672 && PREFIXES % 100 == 96;
  }

  // --- Choosing a target ----------------------------------------------------------------------

  predicate Applies(r: Rollout, product: string, hw: string, current: string) {
    r.enabled && r.product == product && r.hw == hw && (r.from.None? || r.from.value == current)
  }

  predicate Newer(a: Rollout, b: Rollout) {
    a.updatedAt > b.updatedAt || (a.updatedAt == b.updatedAt && a.id >= b.id)
  }

  /** The most recently updated rollout that applies; on a tie, the larger id. */
  function Candidate(rollouts: seq<Rollout>, product: string, hw: string, current: string): (r: Option<Rollout>)
    ensures r.Some? ==> r.value in rollouts && Applies(r.value, product, hw, current)
    ensures forall i :: 0 <= i < |rollouts| && Applies(rollouts[i], product, hw, current) ==>
              r.Some? && Newer(r.value, rollouts[i])
  {
    if rollouts == [] then None
    else
      var last := rollouts[|rollouts| - 1];
      var best := Candidate(rollouts[..|rollouts| - 1], product, hw, current);
      assert rollouts == rollouts[..|rollouts| - 1] + [last];
      if Applies(last, product, hw, current) && (best.None? || !Newer(best.value, last)) then Some(last) else best
  }

  predicate IsBuild(f: Firmware, product: string, hw: string, version: string) {
    f.product == product && f.hw == hw && f.version == version
  }

  /** A product, hardware and version name one firmware at most. */
  predicate BuildsUnique(firmware: map<nat, Firmware>) {
    forall f, g ::
      (f in firmware && g in firmware && IsBuild(firmware[g], firmware[f].product, firmware[f].hw, firmware[f].version)) ==>
      f == g
  }

  function FindFirmware(firmware: map<nat, Firmware>, product: string, hw: string, version: string): (r: Option<nat>)
    requires BuildsUnique(firmware)
    ensures r.Some? ==> r.value in firmware && IsBuild(firmware[r.value], product, hw, version)
    ensures r.None? ==> forall f :: f in firmware ==> !IsBuild(firmware[f], product, hw, version)
  {
    if f :| f in firmware && IsBuild(firmware[f], product, hw, version) then Some(f) else None
  }

  /** The firmware the device should be offered, or why there is none. Only the newest
      rollout that applies is considered. */
  function SelectTarget(rollouts: seq<Rollout>, firmware: map<nat, Firmware>, hash: (nat, string) -> nat,
                        device: string, product: string, hw: string, current: string): (Option<Firmware>, Reason)
    requires BuildsUnique(firmware)
  {
    var rollout := Candidate(rollouts, product, hw, current);
    if rollout.None? then (None, NoRollout)
    else
      var r := rollout.value;
      if r.target == current then (None, UpToDate)
      else if !GraySelected(hash(r.id, device), r.percent) then (None, NotSelected)
      else
        var f := FindFirmware(firmware, product, hw, r.target);
        if f.None? then (None, FirmwareMissing) else (Some(firmware[f.value]), Match)
  }

  /** A device is offered firmware exactly when the newest rollout that applies to it selects
      it, targets another version than it runs, and that version is registered; the offer is
      that version, built for the device's product and hardware. */
  lemma TargetIsExact(rollouts: seq<Rollout>, firmware: map<nat, Firmware>, hash: (nat, string) -> nat,
                      device: string, product: string, hw: string, current: string, f: nat)
    requires BuildsUnique(firmware) && f in firmware
    requires forall i, j :: 0 <= i < j < |rollouts| ==> rollouts[i].id != rollouts[j].id
    ensures SelectTarget(rollouts, firmware, hash, device, product, hw, current) == (Some(firmware[f]), Match) <==>
            exists i :: 0 <= i < |rollouts| && Offers(rollouts, i, firmware, hash, device, product, hw, current, f)
  {
    var r := Candidate(rollouts, product, hw, current);
    if r.Some? {
      var i :| 0 <= i < |rollouts| && rollouts[i] == r.value;
      assert Offers(rollouts, i, firmware, hash, device, product, hw, current, f) <==>
             SelectTarget(rollouts, firmware, hash, device, product, hw, current) == (Some(firmware[f]), Match);
    }
    forall i | 0 <= i < |rollouts| && Offers(rollouts, i, firmware, hash, device, product, hw, current, f)
      ensures r == Some(rollouts[i])
    {
      var k :| 0 <= k < |rollouts| && rollouts[k] == r.value;
      assert Newer(rollouts[i], rollouts[k]) && Newer(rollouts[k], rollouts[i]);
    }
  }

  ghost predicate Offers(rollouts: seq<Rollout>, i: nat, firmware: map<nat, Firmware>, hash: (nat, string) -> nat,
                         device: string, product: string, hw: string, current: string, f: nat)
    requires i < |rollouts| && f in firmware
  {
    var r := rollouts[i];
    && Applies(r, product, hw, current)
    && (forall k :: 0 <= k < |rollouts| && Applies(rollouts[k], product, hw, current) ==> Newer(r, rollouts[k]))
    && r.target != current
    && GraySelected(hash(r.id, device), r.percent)
    && IsBuild(firmware[f], product, hw, r.target)
  }

  // --- Operations ------------------------------------------------------------------------------

  datatype Outcome = NotFound | Existing(row: nat) | Created(row: nat) | FirmwareGone

  /** The row of a device and a firmware, or the table's length if there is none. */
  function RowFor(updates: seq<OtaRow>, device: string, f: nat): (i: nat)
    ensures i <= |updates|
    ensures i < |updates| ==> updates[i].device == device && updates[i].firmware == Some(f)
    ensures forall k :: i == |updates| && 0 <= k < |updates| ==> !(updates[k].device == device && updates[k].firmware == Some(f))
  {
    if updates == [] then 0
    else
      var n := |updates| - 1;
      var i := RowFor(updates[..n], device, f);
      if i < n then i
      else if updates[n].device == device && updates[n].firmware == Some(f) then n
      else n + 1
  }

  predicate Reports(row: OtaRow, device: string, version: Option<string>) {
    row.device == device && (version.None? || row.target == version.value)
  }

  /** The device's latest row, for a target version if one is given. */
  function LatestRow(updates: seq<OtaRow>, device: string, version: Option<string>): (r: Option<nat>)
    ensures r.Some? ==> r.value < |updates| && Reports(updates[r.value], device, version)
    ensures forall k :: 0 <= k < |updates| && Reports(updates[k], device, version) ==> r.Some? && k <= r.value
  {
    if updates == [] then None
    else
      var n := |updates| - 1;
      if Reports(updates[n], device, version) then Some(n) else LatestRow(updates[..n], device, version)
  }

  /** Starts a dispatch, unless the device already has a row for the firmware that did not
      fail. A row cannot be inserted for firmware that was deleted meanwhile. */
  function BeginDispatch(o: Ota, device: string, f: Firmware, messageId: string): (Outcome, Ota) {
    if device !in o.devices then (NotFound, o)
    else
      var i := RowFor(o.updates, device, f.id);
      if i < |o.updates| && o.updates[i].status != Failed then (Existing(i), o)
      else if i == |o.updates| then
        if f.id !in o.firmware then (FirmwareGone, o)
        else
          (Created(i), o.(updates := o.updates + [OtaRow(o.lastUpdate + 1, device, Some(f.id), f.version, Pending, Some(messageId))],
                          lastUpdate := o.lastUpdate + 1, dispatches := o.dispatches + [(device, f.id)]))
      else
        (Created(i), o.(updates := o.updates[i := o.updates[i].(status := Pending, messageId := Some(messageId))],
                        dispatches := o.dispatches + [(device, f.id)]))
  }

  function RecordResult(o: Ota, device: string, status: Status, version: Option<string>, messageId: Option<string>): (Outcome, Ota) {
    var i := LatestRow(o.updates, device, version);
    if device !in o.devices || i.None? then (NotFound, o)
    else
      var row := o.updates[i.value];
      (Existing(i.value),
       o.(updates := o.updates[i.value := row.(status := status, messageId := if messageId.Some? then messageId else row.messageId)],
          failures := if status == Failed then o.failures + [(device, row.firmware)] else o.failures))
  }

  function RegisterFirmware(o: Ota, product: string, hw: string, version: string, url: string): Ota
    requires BuildsUnique(o.firmware)
  {
    var f := FindFirmware(o.firmware, product, hw, version);
    if f.Some? then o.(firmware := o.firmware[f.value := o.firmware[f.value].(url := url)])
    else o.(firmware := o.firmware[o.nextFirmware := Firmware(o.nextFirmware, product, hw, version, url)],
            nextFirmware := o.nextFirmware + 1)
  }

  /** Deleting firmware detaches the rows that name it. */
  function Detached(updates: seq<OtaRow>, f: nat): (r: seq<OtaRow>)
    ensures |r| == |updates|
    ensures forall i :: 0 <= i < |r| ==>
              r[i] == if updates[i].firmware == Some(f) then updates[i].(firmware := None) else updates[i]
  {
    seq(|updates|, i requires 0 <= i < |updates| =>
      if updates[i].firmware == Some(f) then updates[i].(firmware := None) else updates[i])
  }

  function DeleteFirmware(o: Ota, f: nat): Ota {
    if f in o.firmware then o.(firmware := o.firmware - {f}, updates := Detached(o.updates, f)) else o
  }
}
