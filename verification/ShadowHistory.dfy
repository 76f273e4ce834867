/** What a whole history of store operations leaves in the shadows: the merge of the first
    deliveries, whatever was delivered again. */
module ShadowHistory {
  import opened Common
  import opened JsonMerge
  import opened CloudTables

  datatype Op =
    | Registers(device: string)
    | Desires(device: string, patch: Fields, id: Option<string>)
    | Reports(device: string, patch: Fields, id: Option<string>, reason: Option<string>, now: int)
    | GoesOffline(device: string, why: string)
    | Sweeps(cutoff: int)
    | Logs(device: string, name: string, payload: Fields, id: Option<string>)

  function Apply(c: Cloud, op: Op): Cloud {
    match op
    case Registers(d) => Register(c, d)
    case Desires(d, patch, id) => UpdateDesired(c, d, patch, id).1
    case Reports(d, patch, id, reason, now) => UpdateReported(c, d, patch, id, reason, now).1
    case GoesOffline(d, why) => MarkOffline(c, d, why).1
    case Sweeps(cutoff) => Sweep(c, cutoff)
    case Logs(d, name, payload, id) => RecordEvent(c, d, name, payload, id).1
  }

  datatype Ops = Begin | Then(past: Ops, op: Op)

  const EMPTY_CLOUD := Cloud(map[], {}, [], 0, map[], map[], map[], [], [], [], [])

  function Run(ops: Ops): Cloud {
    match ops
    case Begin => EMPTY_CLOUD
    case Then(past, op) => Apply(Run(past), op)
  }

  lemma ReportKeepsOk(c: Cloud, d: string, patch: Fields, id: Option<string>, reason: Option<string>, now: int)
    requires TablesOk(c)
    ensures TablesOk(UpdateReported(c, d, patch, id, reason, now).1)
  {}

  lemma DesireKeepsOk(c: Cloud, d: string, patch: Fields, id: Option<string>)
    requires TablesOk(c)
    ensures TablesOk(UpdateDesired(c, d, patch, id).1)
  {}

  lemma OfflineMarkKeepsOk(c: Cloud, d: string, why: string)
    requires TablesOk(c)
    ensures TablesOk(MarkOffline(c, d, why).1)
  {}

  lemma ApplyKeepsOk(c: Cloud, op: Op)
    requires TablesOk(c)
    ensures TablesOk(Apply(c, op))
  {
    match op
    case Registers(_) =>
    case Desires(d, patch, id) => DesireKeepsOk(c, d, patch, id);
    case Reports(d, patch, id, reason, now) => ReportKeepsOk(c, d, patch, id, reason, now);
    case GoesOffline(d, why) => OfflineMarkKeepsOk(c, d, why);
    case Sweeps(cutoff) => SweepIsExact(c, cutoff, cutoff);
    case Logs(d, name, payload, id) => EventKeepsOk(c, d, name, payload, id);
  }

  /** Every reachable store is consistent: in particular `version` is the sum of the two
      counters, and an online device has no offline reason and a last-seen time. */
  lemma {:induction false} EveryStoreIsOk(ops: Ops)
    ensures TablesOk(Run(ops))
    ensures forall d :: d in Run(ops).shadows ==>
              var s := Run(ops).shadows[d];
              && s.version == s.desiredVersion + s.reportedVersion
              && ("online" in s.reported && s.reported["online"] == Bool(true) ==> s.offlineReason == None && s.lastSeen.Some?)
  {
    if ops.Then? {
      EveryStoreIsOk(ops.past);
      ApplyKeepsOk(Run(ops.past), ops.op);
    }
  }

  // --- The history, read without the store -------------------------------------------------

  function Known(ops: Ops): set<string> {
    match ops
    case Begin => {}
    case Then(past, op) => Known(past) + if op.Registers? then {op.device} else {}
  }

  /** The messages delivered so far to a known device, by scope. */
  function Seen(ops: Ops): set<(Scope, string)> {
    match ops
    case Begin => {}
    case Then(past, op) =>
      Seen(past) +
      (if op.Desires? && op.id.Some? && op.device in Known(past) then {(Desired, op.id.value)}
       else if op.Reports? && op.id.Some? && op.device in Known(past) then {(Reported, op.id.value)}
       else {})
  }

  /** `op` is a first delivery after `past`: it has no id, or one not seen in its scope. */
  predicate First(past: Ops, op: Op)
    requires op.Desires? || op.Reports?
  {
    op.device in Known(past) &&
    (op.id.None? || (if op.Desires? then Desired else Reported, op.id.value) !in Seen(past))
  }

  function Fold(patches: seq<Fields>): Fields {
    if patches == [] then map[] else Merge(Fold(patches[..|patches| - 1]), patches[|patches| - 1])
  }

  /** The patches of the first deliveries to the device's desired shadow. */
  function DesiredPatches(ops: Ops, d: string): seq<Fields> {
    match ops
    case Begin => []
    case Then(past, op) =>
      var before := DesiredPatches(past, d);
      if op.Desires? && op.device == d && First(past, op) then before + [op.patch] else before
  }

  /** The time of the device's latest first-delivered report. */
  function LastReport(ops: Ops, d: string): Option<int> {
    match ops
    case Begin => None
    case Then(past, op) =>
      if op.Reports? && op.device == d && First(past, op) then Some(op.now) else LastReport(past, d)
  }

  /** The patches that reach the reported shadow: first-delivered reports, and the offline
      mark of a disconnect or of a sweep that finds the device online and silent. */
  function ReportedPatches(ops: Ops, d: string): seq<Fields> {
    match ops
    case Begin => []
    case Then(past, op) =>
      var before := ReportedPatches(past, d);
      if op.Reports? && op.device == d && First(past, op) then before + [op.patch]
      else if op.GoesOffline? && op.device == d && d in Known(past) then before + [OFFLINE_PATCH]
      else if op.Sweeps? && LastReport(past, d).Some? && LastReport(past, d).value < op.cutoff
              && IsOnline(Fold(before)) then before + [OFFLINE_PATCH]
      else before
  }

  /** Why the device is offline: the latest cause since it was last online, if any. */
  function WhyOffline(ops: Ops, d: string): Option<string> {
    match ops
    case Begin => None
    case Then(past, op) =>
      var online := IsOnline(Fold(ReportedPatches(ops, d)));
      if op.Reports? && op.device == d && First(past, op) then
        if online then None
        else if op.reason.Some? && op.reason.value != "" then op.reason
        else WhyOffline(past, d)
      else if op.GoesOffline? && op.device == d && d in Known(past) then Some(op.why)
      else if op.Sweeps? && |ReportedPatches(ops, d)| > |ReportedPatches(past, d)| then Some("cloud_timeout")
      else WhyOffline(past, d)
  }

  function Find(c: Cloud, d: string): Option<Shadow> {
    if d in c.shadows then Some(c.shadows[d]) else None
  }

  /** The device's row is what the history says. */
  ghost predicate RowIsFold(row: Option<Shadow>, ops: Ops, d: string) {
    && (row.Some? <==> d in Known(ops))
    && (if row.Some? then
          && row.value.desired == Fold(DesiredPatches(ops, d))
          && row.value.desiredVersion == |DesiredPatches(ops, d)|
          && row.value.reported == Fold(ReportedPatches(ops, d))
          && row.value.reportedVersion == |ReportedPatches(ops, d)|
          && row.value.lastSeen == LastReport(ops, d)
          && row.value.offlineReason == WhyOffline(ops, d)
        else
          DesiredPatches(ops, d) == [] && ReportedPatches(ops, d) == [] && LastReport(ops, d) == None && WhyOffline(ops, d) == None)
  }

  ghost predicate Agrees(c: Cloud, ops: Ops) {
    c.shadows.Keys == Known(ops) && c.processed == Seen(ops)
  }

  lemma AfterDesire(c: Cloud, past: Ops, device: string, patch: Fields, id: Option<string>, d: string)
    requires Agrees(c, past)
    ensures var op := Desires(device, patch, id); var c' := UpdateDesired(c, device, patch, id).1;
            && Agrees(c', Then(past, op))
            && Find(c', d) == if First(past, op) && d == device then Some(WithDesired(c.shadows[d], patch)) else Find(c, d)
  {}

  lemma AfterReport(c: Cloud, past: Ops, device: string, patch: Fields, id: Option<string>,
                    reason: Option<string>, now: int, d: string)
    requires Agrees(c, past)
    ensures var op := Reports(device, patch, id, reason, now); var c' := UpdateReported(c, device, patch, id, reason, now).1;
            && Agrees(c', Then(past, op))
            && Find(c', d) == if First(past, op) && d == device
                              then Some(WithReported(c.shadows[d], patch, reason, now)) else Find(c, d)
  {}

  /** Operations that deliver nothing leave the set of known messages alone. */
  lemma AfterOther(c: Cloud, past: Ops, op: Op, d: string)
    requires Agrees(c, past) && !op.Desires? && !op.Reports?
    ensures Agrees(Apply(c, op), Then(past, op))
    ensures op.GoesOffline? ==>
              Find(Apply(c, op), d) == if d in c.shadows && d == op.device then Some(Offline(c.shadows[d], op.why)) else Find(c, d)
    ensures op.Sweeps? ==>
              Find(Apply(c, op), d) == if d in c.shadows && Stale(c.shadows[d], op.cutoff) then Some(Swept(c.shadows[d])) else Find(c, d)
    ensures op.Registers? ==>
              Find(Apply(c, op), d) == if d !in c.shadows && d == op.device then Some(NEW_SHADOW) else Find(c, d)
    ensures op.Logs? ==> Find(Apply(c, op), d) == Find(c, d)
  {}

  lemma RowAfterDesire(row: Option<Shadow>, past: Ops, op: Op, d: string)
    requires RowIsFold(row, past, d) && op.Desires?
    ensures RowIsFold(if First(past, op) && d == op.device then Some(WithDesired(row.value, op.patch)) else row,
                      Then(past, op), d)
  {}

  lemma RowAfterReport(row: Option<Shadow>, past: Ops, op: Op, d: string)
    requires RowIsFold(row, past, d) && op.Reports?
    ensures RowIsFold(if First(past, op) && d == op.device
                      then Some(WithReported(row.value, op.patch, op.reason, op.now)) else row,
                      Then(past, op), d)
  {}

  lemma RowAfterOffline(row: Option<Shadow>, past: Ops, op: Op, d: string)
    requires RowIsFold(row, past, d) && op.GoesOffline?
    ensures RowIsFold(if row.Some? && d == op.device then Some(Offline(row.value, op.why)) else row, Then(past, op), d)
  {}

  lemma RowAfterSweep(row: Option<Shadow>, past: Ops, op: Op, d: string)
    requires RowIsFold(row, past, d) && op.Sweeps? && (row.Some? ==> ShadowOk(row.value))
    ensures RowIsFold(if row.Some? && Stale(row.value, op.cutoff) then Some(Swept(row.value)) else row, Then(past, op), d)
  {}

  lemma RowAfterRest(row: Option<Shadow>, past: Ops, op: Op, d: string)
    requires RowIsFold(row, past, d) && (op.Registers? || op.Logs?)
    ensures RowIsFold(if op.Registers? && row.None? && d == op.device then Some(NEW_SHADOW) else row, Then(past, op), d)
  {}

  /** After any history, each shadow is the fold of the merge over the first deliveries, and
      each version counts them. */
  lemma {:induction false} ShadowIsFold(ops: Ops, d: string)
    ensures Agrees(Run(ops), ops) && RowIsFold(Find(Run(ops), d), ops, d)
  {
    if ops.Then? {
      ShadowIsFold(ops.past, d);
      EveryStoreIsOk(ops.past);
      FoldStep(Run(ops.past), ops.past, ops.op, d);
    }
  }

  lemma FoldStep(c: Cloud, past: Ops, op: Op, d: string)
    requires TablesOk(c) && Agrees(c, past) && RowIsFold(Find(c, d), past, d)
    ensures Agrees(Apply(c, op), Then(past, op)) && RowIsFold(Find(Apply(c, op), d), Then(past, op), d)
  {
    match op {
      case Desires(device, patch, id) =>
        AfterDesire(c, past, device, patch, id, d);
        RowAfterDesire(Find(c, d), past, op, d);
      case Reports(device, patch, id, reason, now) =>
        AfterReport(c, past, device, patch, id, reason, now, d);
        RowAfterReport(Find(c, d), past, op, d);
      case GoesOffline(_, _) =>
        AfterOther(c, past, op, d);
        RowAfterOffline(Find(c, d), past, op, d);
      case Sweeps(_) =>
        AfterOther(c, past, op, d);
        RowAfterSweep(Find(c, d), past, op, d);
      case _ =>
        AfterOther(c, past, op, d);
        RowAfterRest(Find(c, d), past, op, d);
    }
  }

  // --- The event log -------------------------------------------------------------------------

  /** What was recorded: the device, the event's name and payload, and its message id. */
  type Entry = (string, string, Fields, Option<string>)

  /** The events of known devices, without those whose id the device had recorded before. */
  function Recordings(ops: Ops): seq<Entry> {
    match ops
    case Begin => []
    case Then(past, op) =>
      var before := Recordings(past);
      if op.Logs? && op.device in Known(past) && !Recalled(before, op.device, op.id)
      then before + [(op.device, op.name, op.payload, op.id)] else before
  }

  predicate Recalled(entries: seq<Entry>, device: string, id: Option<string>) {
    id.Some? && exists i :: 0 <= i < |entries| && entries[i].0 == device && entries[i].3 == id
  }

  function EntryOf(e: EventRow): Entry { (e.device, e.name, e.payload, e.messageId) }

  /** After any history the log holds the first recordings, in order, under rising ids. */
  lemma {:induction false} LogIsFirstRecordings(ops: Ops)
    ensures var events := Run(ops).events; var entries := Recordings(ops);
            && |events| == |entries|
            && (forall i :: 0 <= i < |events| ==> EntryOf(events[i]) == entries[i])
            && EventsOk(events, Run(ops).lastEventId)
  {
    EveryStoreIsOk(ops);
    if ops.Then? {
      LogIsFirstRecordings(ops.past);
      ShadowIsFold(ops.past, "");
      if ops.op.Logs? { SameMemory(Run(ops.past).events, Recordings(ops.past), ops.op.device, ops.op.id); }
    }
  }

  lemma SameMemory(events: seq<EventRow>, entries: seq<Entry>, device: string, id: Option<string>)
    requires |events| == |entries| && forall i :: 0 <= i < |events| ==> EntryOf(events[i]) == entries[i]
    ensures EventStored(events, device, id) <==> Recalled(entries, device, id)
  {
    forall i | 0 <= i < |events| ensures events[i].device == entries[i].0 && events[i].messageId == entries[i].3 {
      assert EntryOf(events[i]) == entries[i];
    }
  }

  /** A message whose id was delivered to some known device in the same scope changes
      nothing when it comes again, for whichever device and with whatever patch. */
  lemma RedeliveryIsNoOp(ops: Ops, again: Op)
    requires (again.Desires? && again.id.Some? && (Desired, again.id.value) in Seen(ops))
             || (again.Reports? && again.id.Some? && (Reported, again.id.value) in Seen(ops))
    ensures Run(Then(ops, again)) == Run(ops)
  {
    ShadowIsFold(ops, again.device);
  }
}
