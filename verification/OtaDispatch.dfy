/** How often firmware is dispatched: bounds over every run of the rollout machinery. */
module OtaDispatch {
  import opened Common
  import opened OtaTables

  /** Evaluations read a target and then begin a dispatch; the two may be far apart, so a
      dispatch may name any firmware, deleted ones included. */
  datatype Step =
    | AddDevice(device: string)
    | AddFirmware(product: string, hw: string, version: string, url: string)
    | RemoveFirmware(f: nat)
    | ChangeRollouts(rollouts: seq<Rollout>)
    | Begin(device: string, chosen: Firmware, messageId: string)
    | Result(device: string, status: Status, reported: Option<string>, id: Option<string>)

  ghost function Next(o: Ota, s: Step): Ota
    requires RowsOk(o)
  {
    match s
    case AddDevice(d) => o.(devices := o.devices + {d})
    case AddFirmware(product, hw, version, url) => RegisterFirmware(o, product, hw, version, url)
    case RemoveFirmware(f) => DeleteFirmware(o, f)
    case ChangeRollouts(rollouts) => o.(rollouts := rollouts)
    case Begin(d, f, messageId) => BeginDispatch(o, d, f, messageId).1
    case Result(d, status, version, messageId) => RecordResult(o, d, status, version, messageId).1
  }

  ghost function Run(o: Ota, steps: seq<Step>): (r: Ota)
    requires RowsOk(o)
    ensures RowsOk(r)
  {
    if steps == [] then o
    else
      var before := Run(o, steps[..|steps| - 1]);
      NextKeepsRows(before, steps[|steps| - 1]);
      Next(before, steps[|steps| - 1])
  }

  const EMPTY_OTA := Ota({}, map[], 0, [], [], 0, [], [])

  function Dispatched(log: seq<(string, nat)>, device: string, f: nat): nat { multiset(log)[(device, f)] }

  function FailedOf(log: seq<(string, Option<nat>)>, device: string, f: nat): nat { multiset(log)[(device, Some(f))] }

  predicate HasRow(updates: seq<OtaRow>, device: string, f: nat) {
    exists i :: 0 <= i < |updates| && updates[i].device == device && updates[i].firmware == Some(f)
  }

  /** One row per device and live firmware; rows name live firmware only. */
  ghost predicate RowsOk(o: Ota) {
    && BuildsUnique(o.firmware)
    && (forall f :: f in o.firmware ==> f < o.nextFirmware && o.firmware[f].id == f)
    && (forall i :: 0 <= i < |o.updates| ==> o.updates[i].device in o.devices && 0 < o.updates[i].id <= o.lastUpdate)
    && (forall i, j :: 0 <= i < j < |o.updates| ==> o.updates[i].id < o.updates[j].id)
    && (forall i :: 0 <= i < |o.updates| && o.updates[i].firmware.Some? ==> o.updates[i].firmware.value in o.firmware)
    && (forall i, j :: 0 <= i < j < |o.updates| && o.updates[i].firmware.Some? ==>
          !(o.updates[i].device == o.updates[j].device && o.updates[i].firmware == o.updates[j].firmware))
  }

  /** A dispatch is the first one of its pair, or was made possible by a failure of its row,
      and a row that has just failed has a dispatch in hand. */
  ghost predicate CountsOk(o: Ota) {
    && (forall d, f :: Dispatched(o.dispatches, d, f) <= 1 + FailedOf(o.failures, d, f))
    && (forall i :: 0 <= i < |o.updates| && o.updates[i].firmware.Some? && o.updates[i].status == Failed ==>
          Dispatched(o.dispatches, o.updates[i].device, o.updates[i].firmware.value)
          <= FailedOf(o.failures, o.updates[i].device, o.updates[i].firmware.value))
    && (forall d, f :: (f in o.firmware || f >= o.nextFirmware) && !HasRow(o.updates, d, f) ==> Dispatched(o.dispatches, d, f) == 0)
  }

  function FailedRows(updates: seq<OtaRow>): nat {
    if updates == [] then 0
    else FailedRows(updates[..|updates| - 1]) + if updates[|updates| - 1].status == Failed then 1 else 0
  }

  lemma {:induction false} FailedAfterWrite(updates: seq<OtaRow>, i: nat, row: OtaRow)
    requires i < |updates|
    ensures FailedRows(updates[i := row]) + (if updates[i].status == Failed then 1 else 0)
         == FailedRows(updates) + (if row.status == Failed then 1 else 0)
  {
    var n := |updates| - 1;
    if i == n {
      assert updates[i := row][..n] == updates[..n];
    } else {
      assert updates[i := row][..n] == updates[..n][i := row];
      FailedAfterWrite(updates[..n], i, row);
    }
  }

  lemma {:induction false} FailedAfterDetach(updates: seq<OtaRow>, f: nat)
    ensures FailedRows(Detached(updates, f)) == FailedRows(updates)
  {
    if updates != [] {
      var n := |updates| - 1;
      FailedAfterDetach(updates[..n], f);
      assert Detached(updates, f)[..n] == Detached(updates[..n], f);
    }
  }

  lemma BeginKeepsRows(o: Ota, d: string, f: Firmware, messageId: string)
    requires RowsOk(o)
    ensures RowsOk(BeginDispatch(o, d, f, messageId).1)
  {}

  lemma BeginKeepsCounts(o: Ota, d: string, f: Firmware, messageId: string)
    requires RowsOk(o) && CountsOk(o)
    ensures CountsOk(BeginDispatch(o, d, f, messageId).1)
  {
    var (outcome, o') := BeginDispatch(o, d, f, messageId);
    if outcome.Created? { CreatedKeepsCounts(o, o', d, f.id, outcome.row); }
  }

  /** A new dispatch, on a row that was inserted for it or had failed. */
  lemma CreatedKeepsCounts(o: Ota, o': Ota, d: string, f: nat, i: nat)
    requires RowsOk(o) && CountsOk(o) && i <= |o.updates| < 1 + |o'.updates|
    requires o'.firmware == o.firmware && o'.nextFirmware == o.nextFirmware && o'.failures == o.failures
    requires o'.dispatches == o.dispatches + [(d, f)]
    requires forall k :: 0 <= k < |o'.updates| && k != i ==> k < |o.updates| && o'.updates[k] == o.updates[k]
    requires forall k :: 0 <= k < |o.updates| ==>
               o'.updates[k].device == o.updates[k].device && o'.updates[k].firmware == o.updates[k].firmware
    requires i < |o'.updates| && o'.updates[i].device == d && o'.updates[i].firmware == Some(f) && o'.updates[i].status == Pending
    requires if i < |o.updates| then o.updates[i].device == d && o.updates[i].firmware == Some(f) && o.updates[i].status == Failed
             else f in o.firmware && !HasRow(o.updates, d, f)
    ensures CountsOk(o')
  {}

  lemma ResultKeepsRows(o: Ota, d: string, status: Status, version: Option<string>, messageId: Option<string>)
    requires RowsOk(o)
    ensures RowsOk(RecordResult(o, d, status, version, messageId).1)
  {}

  lemma ResultKeepsCounts(o: Ota, d: string, status: Status, version: Option<string>, messageId: Option<string>)
    requires RowsOk(o) && CountsOk(o)
    ensures CountsOk(RecordResult(o, d, status, version, messageId).1)
  {
    var (outcome, o') := RecordResult(o, d, status, version, messageId);
    if outcome.Existing? {
      var i := outcome.row;
      var row := o.updates[i];
      forall e: string, g: nat ensures FailedOf(o'.failures, e, g) == FailedOf(o.failures, e, g)
                            + (if status == Failed && (e, Some(g)) == (d, row.firmware) then 1 else 0) {}
      forall e: string, g: nat | HasRow(o.updates, e, g) ensures HasRow(o'.updates, e, g) {
        var k :| 0 <= k < |o.updates| && o.updates[k].device == e && o.updates[k].firmware == Some(g);
        assert o'.updates[k].device == e && o'.updates[k].firmware == Some(g);
      }
      forall k | 0 <= k < |o'.updates| && o'.updates[k].firmware.Some? && o'.updates[k].status == Failed
        ensures Dispatched(o'.dispatches, o'.updates[k].device, o'.updates[k].firmware.value)
             <= FailedOf(o'.failures, o'.updates[k].device, o'.updates[k].firmware.value)
      {
        if k != i { assert o'.updates[k] == o.updates[k]; }
      }
    }
  }

  lemma DeleteKeepsRows(o: Ota, f: nat)
    requires RowsOk(o)
    ensures RowsOk(DeleteFirmware(o, f))
  {}

  lemma DeleteKeepsCounts(o: Ota, f: nat)
    requires RowsOk(o) && CountsOk(o)
    ensures CountsOk(DeleteFirmware(o, f))
  {}

  lemma RegisterKeeps(o: Ota, product: string, hw: string, version: string, url: string)
    requires RowsOk(o)
    ensures var o' := RegisterFirmware(o, product, hw, version, url); RowsOk(o') && (CountsOk(o) ==> CountsOk(o'))
  {}

  lemma NextKeepsRows(o: Ota, s: Step)
    requires RowsOk(o)
    ensures RowsOk(Next(o, s))
  {
    match s
    case AddFirmware(product, hw, version, url) => RegisterKeeps(o, product, hw, version, url);
    case RemoveFirmware(f) => DeleteKeepsRows(o, f);
    case Begin(d, f, messageId) => BeginKeepsRows(o, d, f, messageId);
    case Result(d, status, version, messageId) => ResultKeepsRows(o, d, status, version, messageId);
    case _ =>
  }

  lemma NextKeepsCounts(o: Ota, s: Step)
    requires RowsOk(o) && CountsOk(o)
    ensures CountsOk(Next(o, s))
  {
    match s
    case AddFirmware(product, hw, version, url) => RegisterKeeps(o, product, hw, version, url);
    case RemoveFirmware(f) => DeleteKeepsCounts(o, f);
    case Begin(d, f, messageId) => BeginKeepsCounts(o, d, f, messageId);
    case Result(d, status, version, messageId) => ResultKeepsCounts(o, d, status, version, messageId);
    case _ =>
  }

  /** What a step may spend: a dispatch inserts a row or uses up a failed one, and only a
      failure makes one. */
  ghost predicate PaidFor(o: Ota, o': Ota) {
    && |o'.dispatches| - |o.dispatches| + FailedRows(o'.updates)
       <= FailedRows(o.updates) + (|o'.updates| - |o.updates|) + (|o'.failures| - |o.failures|)
    && |o.updates| <= |o'.updates|
  }

  lemma BeginIsPaidFor(o: Ota, d: string, f: Firmware, messageId: string)
    ensures PaidFor(o, BeginDispatch(o, d, f, messageId).1)
  {
    var (outcome, o') := BeginDispatch(o, d, f, messageId);
    if outcome.Created? {
      if outcome.row == |o.updates| {
        assert o'.updates[..|o.updates|] == o.updates;
      } else {
        FailedAfterWrite(o.updates, outcome.row, o'.updates[outcome.row]);
      }
    }
  }

  lemma ResultIsPaidFor(o: Ota, d: string, status: Status, version: Option<string>, messageId: Option<string>)
    ensures PaidFor(o, RecordResult(o, d, status, version, messageId).1)
  {
    var (outcome, o') := RecordResult(o, d, status, version, messageId);
    if outcome.Existing? { FailedAfterWrite(o.updates, outcome.row, o'.updates[outcome.row]); }
  }

  lemma StepIsPaidFor(o: Ota, s: Step)
    requires RowsOk(o)
    ensures PaidFor(o, Next(o, s))
  {
    match s
    case RemoveFirmware(f) => FailedAfterDetach(o.updates, f);
    case Begin(d, f, messageId) => BeginIsPaidFor(o, d, f, messageId);
    case Result(d, status, version, messageId) => ResultIsPaidFor(o, d, status, version, messageId);
    case _ =>
  }

  /** From any state on, new dispatches are at most the rows that stood failed, the rows
      added, and the failures reported: once failures stop and no device or firmware is
      added, even rollouts that keep changing stop dispatching. */
  lemma {:induction false} DispatchingStops(o: Ota, steps: seq<Step>)
    requires RowsOk(o)
    ensures PaidFor(o, Run(o, steps))
  {
    if steps != [] {
      var before := steps[..|steps| - 1];
      DispatchingStops(o, before);
      StepIsPaidFor(Run(o, before), steps[|steps| - 1]);
    }
  }

  /** Over any run from an empty store: there is at most one row per device and live
      firmware, and firmware is dispatched to a device at most once more than the row it was
      dispatched on failed. */
  lemma {:induction false} DispatchesAreBounded(steps: seq<Step>)
    ensures var o := Run(EMPTY_OTA, steps);
            && RowsOk(o) && CountsOk(o)
            && forall d, f :: Dispatched(o.dispatches, d, f) <= 1 + FailedOf(o.failures, d, f)
  {
    if steps != [] {
      var before := steps[..|steps| - 1];
      DispatchesAreBounded(before);
      NextKeepsCounts(Run(EMPTY_OTA, before), steps[|steps| - 1]);
    }
  }

  // --- Asking again ---------------------------------------------------------------------------

  /** Beginning the same dispatch again, whatever was done for other devices' rows, finds the
      row and changes nothing until a failure is recorded on it. */
  lemma DispatchIsIdempotent(o: Ota, d: string, f: Firmware, m1: string, m2: string)
    requires RowsOk(o)
    ensures var o1 := BeginDispatch(o, d, f, m1).1; var (outcome, o2) := BeginDispatch(o1, d, f, m2);
            o2 == o1 && !outcome.Created?
  {
    var (outcome, o1) := BeginDispatch(o, d, f, m1);
    if outcome.Created? {
      var i, k := outcome.row, RowFor(o1.updates, d, f.id);
      assert o1.updates[i].device == d && o1.updates[i].firmware == Some(f.id);
      assert k == i by {
        BeginKeepsRows(o, d, f, m1);
        SameRow(o1, i, k);
      }
    }
  }

  lemma SameRow(o: Ota, i: nat, k: nat)
    requires RowsOk(o) && i < |o.updates| && k < |o.updates| && o.updates[i].firmware.Some?
    requires o.updates[i].device == o.updates[k].device && o.updates[i].firmware == o.updates[k].firmware
    ensures i == k
  {}

  // --- How a status may move ---------------------------------------------------------------------

  /** Success and failure both end an update. */
  function StatusRank(s: Status): nat {
    match s
    case Pending => 0
    case Downloading => 1
    case Success => 2
    case Failed => 2
  }

  /** A row not yet inserted ranks with the pending ones. */
  function RankAt(o: Ota, i: nat): nat { if i < |o.updates| then StatusRank(o.updates[i].status) else 0 }

  /** The step takes row `i` back: it dispatches the row's failed firmware again, or it is a
      result for which row `i` is the latest and which ranks below its status. */
  predicate TakesBack(o: Ota, s: Step, i: nat) {
    i < |o.updates| &&
    match s
    case Begin(d, f, _) =>
      d in o.devices && o.updates[i].device == d && o.updates[i].firmware == Some(f.id) && o.updates[i].status == Failed
    case Result(d, status, version, _) =>
      d in o.devices && LatestRow(o.updates, d, version) == Some(i) && StatusRank(status) < StatusRank(o.updates[i].status)
    case _ => false
  }

  /** A status falls exactly in such a step. */
  lemma StatusFallsExactly(o: Ota, s: Step, i: nat)
    requires RowsOk(o)
    ensures RankAt(Next(o, s), i) < RankAt(o, i) <==> TakesBack(o, s, i)
  {}

  /** The status of row `i` never falls along the run. */
  ghost predicate OnlyRises(o: Ota, steps: seq<Step>, i: nat)
    requires RowsOk(o)
  {
    steps == [] ||
    (OnlyRises(o, steps[..|steps| - 1], i) && RankAt(Run(o, steps[..|steps| - 1]), i) <= RankAt(Run(o, steps), i))
  }

  /** No step of the run takes row `i` back. */
  ghost predicate NeverTakenBack(o: Ota, steps: seq<Step>, i: nat)
    requires RowsOk(o)
  {
    steps == [] ||
    (NeverTakenBack(o, steps[..|steps| - 1], i) && !TakesBack(Run(o, steps[..|steps| - 1]), steps[|steps| - 1], i))
  }

  /** Status only moves forward exactly along the runs without such a step, which end no
      lower than they began. */
  lemma {:induction false} StatusMovesForward(o: Ota, steps: seq<Step>, i: nat)
    requires RowsOk(o)
    ensures OnlyRises(o, steps, i) <==> NeverTakenBack(o, steps, i)
    ensures OnlyRises(o, steps, i) ==> RankAt(o, i) <= RankAt(Run(o, steps), i)
  {
    if steps != [] {
      var before := steps[..|steps| - 1];
      StatusMovesForward(o, before, i);
      StatusFallsExactly(Run(o, before), steps[|steps| - 1], i);
    }
  }

  /** Status is not monotone: a late progress message takes a successful row back. */
  lemma StatusIsNotMonotone(o: Ota, d: string, f: Firmware, messageId: string)
    requires RowsOk(o) && d in o.devices && f.id in o.firmware && !HasRow(o.updates, d, f.id)
    ensures var o1 := BeginDispatch(o, d, f, messageId).1;
            var o2 := RecordResult(o1, d, Success, Some(f.version), None).1;
            var o3 := RecordResult(o2, d, Downloading, Some(f.version), None).1;
            var i := |o.updates|;
            && |o1.updates| == |o2.updates| == |o3.updates| == i + 1
            && o2.updates[i].status == Success && o3.updates[i].status == Downloading
  {}
}
