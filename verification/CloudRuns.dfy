/** The cloud as it runs: commands, scenes, configuration changes, messages and store
    operations in any order. Whatever happens, the tables are those of a history of store
    operations, and a message delivered again among anything else still counts once. */
module CloudRuns {
  import opened Common
  import opened JsonMerge
  import opened CloudTables
  import opened ShadowHistory
  import opened GroupCommands
  import opened MqttBridge

  datatype Activity =
    | Stores(op: Op)
    | Commands(device: string, state: Fields, id: Option<string>, up: bool)
    | CommandsGroup(group: string, groupState: Fields, groupId: Option<string>, groupUp: bool)
    | ActivatesScene(scene: string, sceneUp: bool)
    | Receives(from: string, delivery: Delivery)
    | Configures(groups: map<string, seq<string>>, scenes: map<string, seq<(string, Fields)>>,
                 automations: map<string, seq<Automation>>)

  function Act(c: Cloud, a: Activity): Cloud {
    match a
    case Stores(op) => Apply(c, op)
    case Commands(device, state, id, up) => ApplyDesired(c, device, state, id, up).1
    case CommandsGroup(g, state, id, up) => if g in c.groups then CommandGroup(c, c.groups[g], state, id, up).1 else c
    case ActivatesScene(s, up) => if s in c.scenes then ApplyActions(c, c.scenes[s], up) else c
    case Receives(device, delivery) => Deliver(c, device, delivery)
    case Configures(groups, scenes, automations) => c.(groups := groups, scenes := scenes, automations := automations)
  }

  function ActAll(activities: seq<Activity>): Cloud {
    if activities == [] then EMPTY_CLOUD
    else Act(ActAll(activities[..|activities| - 1]), activities[|activities| - 1])
  }

  // --- Every activity is a history of store operations ---------------------------------------

  /** The same tables; configuration and recorded calls may differ. */
  predicate SameTables(a: Cloud, b: Cloud) {
    a.shadows == b.shadows && a.processed == b.processed && a.events == b.events && a.lastEventId == b.lastEventId
  }

  predicate TablesAt(c: Cloud, ops: Ops) { SameTables(c, Run(ops)) }

  /** The history goes on from `ops`, and reports under no message id but `id`. */
  ghost predicate Continues(after: Ops, ops: Ops, id: Option<string>) {
    after == ops ||
    (after.Then? && Continues(after.past, ops, id) && (after.op.Reports? && after.op.id.Some? ==> after.op.id == id))
  }

  lemma {:induction false} ContinuesChain(c: Ops, b: Ops, a: Ops, id: Option<string>)
    requires Continues(c, b, id) && Continues(b, a, id)
    ensures Continues(c, a, id)
  {
    if c != b { ContinuesChain(c.past, b, a, id); }
  }

  lemma SameAfter(a: Cloud, b: Cloud, op: Op)
    requires SameTables(a, b)
    ensures SameTables(Apply(a, op), Apply(b, op))
  {
    match op
    case Registers(_) =>
    case Desires(device, patch, id) => SameAfterDesire(a, b, device, patch, id);
    case Reports(device, patch, id, reason, now) => SameAfterReport(a, b, device, patch, id, reason, now);
    case GoesOffline(device, why) => SameAfterOffline(a, b, device, why);
    case Sweeps(cutoff) => assert Sweep(a, cutoff).shadows == Sweep(b, cutoff).shadows;
    case Logs(device, name, payload, id) => SameAfterEvent(a, b, device, name, payload, id);
  }

  lemma SameAfterDesire(a: Cloud, b: Cloud, device: string, patch: Fields, id: Option<string>)
    requires SameTables(a, b)
    ensures SameTables(UpdateDesired(a, device, patch, id).1, UpdateDesired(b, device, patch, id).1)
  {}

  lemma SameAfterReport(a: Cloud, b: Cloud, device: string, patch: Fields, id: Option<string>, reason: Option<string>, now: int)
    requires SameTables(a, b)
    ensures SameTables(UpdateReported(a, device, patch, id, reason, now).1, UpdateReported(b, device, patch, id, reason, now).1)
  {}

  lemma SameAfterOffline(a: Cloud, b: Cloud, device: string, why: string)
    requires SameTables(a, b)
    ensures SameTables(MarkOffline(a, device, why).1, MarkOffline(b, device, why).1)
  {}

  lemma SameAfterEvent(a: Cloud, b: Cloud, device: string, name: string, payload: Fields, id: Option<string>)
    requires SameTables(a, b)
    ensures SameTables(RecordEvent(a, device, name, payload, id).1, RecordEvent(b, device, name, payload, id).1)
  {}

  lemma OpAt(c: Cloud, ops: Ops, op: Op)
    requires TablesAt(c, ops)
    ensures TablesAt(Apply(c, op), Then(ops, op))
  {
    SameAfter(c, Run(ops), op);
  }

  lemma CommandAt(c: Cloud, ops: Ops, device: string, state: Fields, id: Option<string>, up: bool)
    requires TablesAt(c, ops)
    ensures TablesAt(ApplyDesired(c, device, state, id, up).1, Then(ops, Desires(device, state, id)))
  {
    OneCommand(c, device, state, id, up);
    OpAt(c, ops, Desires(device, state, id));
  }

  lemma {:induction false} GroupAt(c: Cloud, ops: Ops, members: seq<string>, state: Fields, id: Option<string>, up: bool, n: nat)
    returns (after: Ops)
    requires TablesAt(c, ops) && n <= |members|
    ensures TablesAt(GroupUpTo(c, members, state, id, up, n).1, after)
    ensures forall any :: Continues(after, ops, any)
  {
    after := ops;
    if n > 0 {
      var before := GroupAt(c, ops, members, state, id, up, n - 1);
      CommandAt(GroupUpTo(c, members, state, id, up, n - 1).1, before, members[n - 1], state, ScopedId(id, n - 1), up);
      after := Then(before, Desires(members[n - 1], state, ScopedId(id, n - 1)));
    }
  }

  lemma {:induction false} SceneAt(c: Cloud, ops: Ops, actions: seq<(string, Fields)>, up: bool) returns (after: Ops)
    requires TablesAt(c, ops)
    ensures TablesAt(ApplyActions(c, actions, up), after)
    ensures forall any :: Continues(after, ops, any)
  {
    after := ops;
    if actions != [] {
      var init, last := actions[..|actions| - 1], actions[|actions| - 1];
      var before := SceneAt(c, ops, init, up);
      CommandAt(ApplyActions(c, init, up), before, last.0, last.1, None, up);
      after := Then(before, Desires(last.0, last.1, None));
    }
  }

  lemma ActionAt(c: Cloud, ops: Ops, action: Action, up: bool) returns (after: Ops)
    requires TablesAt(c, ops)
    ensures RunAction(c, action, up).Some? ==> TablesAt(RunAction(c, action, up).value, after)
    ensures forall any :: Continues(after, ops, any)
  {
    after := ops;
    match action {
      case OnDevice(d, state) =>
        CommandAt(c, ops, d, state, None, up);
        after := Then(ops, Desires(d, state, None));
      case OnGroup(g, state) =>
        if g in c.groups { after := GroupAt(c, ops, c.groups[g], state, None, up, |c.groups[g]|); }
      case OnScene(s) =>
        if s in c.scenes { after := SceneAt(c, ops, c.scenes[s], up); }
    }
  }

  lemma {:induction false} AutomationsAt(c: Cloud, ops: Ops, automations: seq<Automation>, reported: Fields, up: bool, n: nat)
    returns (after: Ops)
    requires TablesAt(c, ops) && n <= |automations|
    ensures TablesAt(RunUpTo(c, automations, reported, up, n).1, after)
    ensures forall any :: Continues(after, ops, any)
  {
    after := ops;
    if n > 0 {
      after := AutomationsAt(c, ops, automations, reported, up, n - 1);
      var (ok, c1) := RunUpTo(c, automations, reported, up, n - 1);
      var action := automations[n - 1].action;
      if ok && Triggered(automations[n - 1], reported) && RunAction(c1, action, up).Some? {
        var more := ActionAt(c1, after, action, up);
        forall any ensures Continues(more, ops, any) { ContinuesChain(more, after, ops, any); }
        after := more;
      }
    }
  }

  lemma ReportAt(c: Cloud, ops: Ops, device: string, reported: Fields, id: Option<string>, reason: Option<string>, now: int, up: bool)
    returns (after: Ops)
    requires TablesAt(c, ops)
    ensures TablesAt(ApplyReported(c, device, reported, id, reason, now, up).1, after)
    ensures Continues(after, ops, id)
  {
    var op := Reports(device, reported, id, reason, now);
    OpAt(c, ops, op);
    after := Then(ops, op);
    var (outcome, c1) := UpdateReported(c, device, reported, id, reason, now);
    var told := c1.(handled := c1.handled + [device]);
    if outcome == Changed && device in told.automations {
      var more := AutomationsAt(told, after, told.automations[device], told.shadows[device].reported, up, |told.automations[device]|);
      ContinuesChain(more, after, ops, id);
      after := more;
    }
  }

  /** A device registers, reports, and has an event recorded. */
  lemma EventAt(c: Cloud, ops: Ops, device: string, reported: Fields, id: Option<string>, name: string, payload: Fields, now: int, up: bool)
    returns (after: Ops)
    requires TablesAt(c, ops)
    ensures var (ok, c1) := ApplyReported(Register(c, device), device, reported, id, None, now, up);
            TablesAt(if !ok then c1 else RecordEvent(c1, device, name, payload, id).1, after)
    ensures Continues(after, ops, id)
  {
    OpAt(c, ops, Registers(device));
    after := ReportAt(Register(c, device), Then(ops, Registers(device)), device, reported, id, None, now, up);
    ContinuesChain(after, Then(ops, Registers(device)), ops, id);
    var (ok, c1) := ApplyReported(Register(c, device), device, reported, id, None, now, up);
    if ok {
      OpAt(c1, after, Logs(device, name, payload, id));
      after := Then(after, Logs(device, name, payload, id));
    }
  }

  lemma LegacyAt(c: Cloud, ops: Ops, device: string, doc: Json, now: int, up: bool) returns (after: Ops)
    requires TablesAt(c, ops)
    ensures TablesAt(IngestLegacy(c, device, doc, now, up), after)
    ensures Continues(after, ops, LegacyId(doc))
  {
    after := ops;
    var event := LegacyEvent(doc);
    if event.Some? {
      if event.value == "ack" && doc.Object? {
        OpAt(c, ops, Registers(device));
        after := Then(ops, Registers(device));
        var acked := TextOf(doc.fields, "ack_msg_id");
        if acked.Some? {
          after := ReportAt(Register(c, device), after, device,
            map["online" := Bool(true), "type" := Text("doorbell"), "ack_msg_id" := Text(acked.value)], LegacyId(doc), None, now, up);
          ContinuesChain(after, Then(ops, Registers(device)), ops, LegacyId(doc));
        }
      } else {
        var reported := WithVersion(
          map["online" := Bool(true), "type" := Text("doorbell"), "last_event" := Text(event.value)], LegacyVersion(doc));
        var payload := WithVersion(map["event" := Text(event.value)], LegacyVersion(doc));
        after := EventAt(c, ops, device, reported, LegacyId(doc), event.value, payload, now, up);
      }
    }
  }

  lemma NormalisedAt(c: Cloud, ops: Ops, deviceClass: string, device: string, channel: string, doc: Json,
                     hasUpdate: bool, now: int, up: bool) returns (after: Ops)
    requires TablesAt(c, ops)
    ensures TablesAt(IngestNormalised(c, deviceClass, device, channel, doc, hasUpdate, now, up), after)
    ensures Continues(after, ops, if Unwrap(doc).Some? then Unwrap(doc).value.id else None)
  {
    after := ops;
    if Unwrap(doc).Some? {
      var e := Unwrap(doc).value;
      match RouteOf(channel, e.kind) {
        case ToReported =>
          var reported, given := StatusReport(deviceClass, e.data), TextOf(e.data, "offline_reason");
          var reason := if IsOnline(reported) then None else if given.Some? then given else Some("mqtt_disconnect");
          OpAt(c, ops, Registers(device));
          after := ReportAt(Register(c, device), Then(ops, Registers(device)), device, reported, e.id, reason, now, up);
          ContinuesChain(after, Then(ops, Registers(device)), ops, e.id);
        case ToEvent =>
          var reported := EventReport(deviceClass, e.data);
          after := EventAt(c, ops, device, reported, e.id, EventName(e.data), reported, now, up);
        case ToOta =>
          var result := ResultIn(device, e);
          if result.Some? && device in c.shadows && hasUpdate {
            after := ReportAt(c.(results := c.results + [result.value]), ops, device,
              ResultReport(deviceClass, result.value), e.id, None, now, up);
          }
        case Dropped =>
      }
    }
  }

  /** The message id an activity reports under, if any. */
  function ReportId(a: Activity): Option<string> {
    match a
    case Stores(Reports(_, _, id, _, _)) => id
    case Receives(_, Legacy(doc, _, _)) => LegacyId(doc)
    case Receives(_, Normalised(_, _, doc, _, _, _)) => if Unwrap(doc).Some? then Unwrap(doc).value.id else None
    case _ => None
  }

  lemma ActivityAt(c: Cloud, ops: Ops, a: Activity) returns (after: Ops)
    requires TablesAt(c, ops)
    ensures TablesAt(Act(c, a), after) && Continues(after, ops, ReportId(a))
  {
    after := ops;
    match a {
      case Stores(op) =>
        OpAt(c, ops, op);
        after := Then(ops, op);
      case Commands(device, state, id, up) =>
        CommandAt(c, ops, device, state, id, up);
        after := Then(ops, Desires(device, state, id));
      case CommandsGroup(g, state, id, up) =>
        if g in c.groups { after := GroupAt(c, ops, c.groups[g], state, id, up, |c.groups[g]|); }
      case ActivatesScene(s, up) =>
        if s in c.scenes { after := SceneAt(c, ops, c.scenes[s], up); }
      case Receives(device, Legacy(doc, now, up)) =>
        after := LegacyAt(c, ops, device, doc, now, up);
      case Receives(device, Normalised(deviceClass, channel, doc, hasUpdate, now, up)) =>
        after := NormalisedAt(c, ops, deviceClass, device, channel, doc, hasUpdate, now, up);
      case Configures(_, _, _) =>
    }
  }

  /** Every reachable cloud, whatever was received, commanded and configured: its tables are
      those of a history of store operations, so they are consistent and every shadow is the
      fold over the first deliveries of that history. */
  lemma {:induction false} EveryCloudIsAHistory(activities: seq<Activity>) returns (ops: Ops)
    ensures TablesAt(ActAll(activities), ops) && TablesOk(ActAll(activities))
    ensures forall d :: RowIsFold(Find(ActAll(activities), d), ops, d)
  {
    ops := Begin;
    if activities != [] {
      var before := EveryCloudIsAHistory(activities[..|activities| - 1]);
      ops := ActivityAt(ActAll(activities[..|activities| - 1]), before, activities[|activities| - 1]);
    }
    EveryStoreIsOk(ops);
    forall d ensures RowIsFold(Find(ActAll(activities), d), ops, d) { ShadowIsFold(ops, d); }
  }

  // --- Repeated deliveries among anything else --------------------------------------------------

  predicate Delivers(a: Activity, device: string, m: string) {
    a.Receives? && a.from == device && Carries(a.delivery, m)
  }

  /** What was logged or reported stays so, and `m` is reported under no id but its own. */
  predicate Remembers(c: Cloud, c': Cloud, id: Option<string>, m: string) {
    c.events <= c'.events && if WasReported(c', m) then WasReported(c, m) || id == Some(m) else !WasReported(c, m)
  }

  lemma OpRemembers(c: Cloud, op: Op, id: Option<string>, m: string)
    requires op.Reports? && op.id.Some? ==> op.id == id
    ensures Remembers(c, Apply(c, op), id, m)
  {}

  lemma {:induction false} HistoryRemembers(after: Ops, ops: Ops, id: Option<string>, m: string)
    requires Continues(after, ops, id)
    ensures Remembers(Run(ops), Run(after), id, m)
  {
    if after != ops {
      HistoryRemembers(after.past, ops, id, m);
      OpRemembers(Run(after.past), after.op, id, m);
    }
  }

  lemma ActivityRemembers(c: Cloud, ops: Ops, a: Activity, m: string)
    requires TablesAt(c, ops)
    ensures Remembers(c, Act(c, a), ReportId(a), m)
  {
    var after := ActivityAt(c, ops, a);
    HistoryRemembers(after, ops, ReportId(a), m);
  }

  /** How many deliveries of `m` there are, and how many of them find it unreported. */
  function Deliveries(activities: seq<Activity>, device: string, m: string): nat {
    if activities == [] then 0
    else
      Deliveries(activities[..|activities| - 1], device, m)
      + if Delivers(activities[|activities| - 1], device, m) then 1 else 0
  }

  function FirstDeliveries(activities: seq<Activity>, device: string, m: string): nat {
    if activities == [] then 0
    else
      var before, a := activities[..|activities| - 1], activities[|activities| - 1];
      FirstDeliveries(before, device, m) + if Delivers(a, device, m) && !WasReported(ActAll(before), m) then 1 else 0
  }

  datatype Measure = Version | Calls | Handed

  /** The device's reported version, the calls to the automations, the version reports handed
      on. */
  function Value(c: Cloud, device: string, measure: Measure): nat {
    match measure
    case Version => ReportedVersion(c, device)
    case Calls => |c.handled|
    case Handed => |c.versions|
  }

  /** By how much the deliveries of `m`, and no other activity, raise a measure. */
  function RaisedBy(activities: seq<Activity>, device: string, m: string, measure: Measure): int {
    if activities == [] then 0
    else
      var before, a := activities[..|activities| - 1], activities[|activities| - 1];
      RaisedBy(before, device, m, measure)
      + if Delivers(a, device, m) then Value(ActAll(activities), device, measure) - Value(ActAll(before), device, measure) else 0
  }

  lemma {:induction false} EachRaisesOnce(activities: seq<Activity>, device: string, m: string)
    ensures RaisedBy(activities, device, m, Version) == FirstDeliveries(activities, device, m)
    ensures RaisedBy(activities, device, m, Calls) == FirstDeliveries(activities, device, m)
    ensures RaisedBy(activities, device, m, Handed) <= FirstDeliveries(activities, device, m)
  {
    if activities != [] {
      var before, a := activities[..|activities| - 1], activities[|activities| - 1];
      EachRaisesOnce(before, device, m);
      if Delivers(a, device, m) { DeliverOnce(ActAll(before), device, a.delivery, m); }
    }
  }

  /** One message id on both topics, any number of times, with anything at all in between:
      its deliveries advance the reported version, call the automations and hand a version
      on at most once all together. At most one row of the device carries the id, and from
      the second delivery on there is one. */
  lemma {:induction false} RepeatedDeliveryCountsOnce(activities: seq<Activity>, device: string, m: string)
    ensures var c := ActAll(activities); var firsts := FirstDeliveries(activities, device, m);
            && RaisedBy(activities, device, m, Version) == firsts
            && RaisedBy(activities, device, m, Calls) == firsts
            && RaisedBy(activities, device, m, Handed) <= firsts <= 1
            && (firsts == 1 || Deliveries(activities, device, m) > 0 ==> WasReported(c, m))
            && (Deliveries(activities, device, m) >= 2 ==> EventStored(c.events, device, Some(m)))
            && (forall i, j :: 0 <= i < j < |c.events| && c.events[i].device == device && c.events[i].messageId == Some(m) ==>
                  !(c.events[j].device == device && c.events[j].messageId == Some(m)))
  {
    var _ := EveryCloudIsAHistory(activities);
    EachRaisesOnce(activities, device, m);
    if activities != [] {
      var before, a := activities[..|activities| - 1], activities[|activities| - 1];
      RepeatedDeliveryCountsOnce(before, device, m);
      var ops := EveryCloudIsAHistory(before);
      ActivityRemembers(ActAll(before), ops, a, m);
      if Delivers(a, device, m) { DeliverOnce(ActAll(before), device, a.delivery, m); }
    }
  }

  /** It counts exactly once if it is delivered at all and nothing else reports under its
      id. */
  lemma {:induction false} DeliveredAloneCountsOnce(activities: seq<Activity>, device: string, m: string)
    requires forall k :: 0 <= k < |activities| && ReportId(activities[k]) == Some(m) ==> Delivers(activities[k], device, m)
    ensures FirstDeliveries(activities, device, m) == if Deliveries(activities, device, m) > 0 then 1 else 0
    ensures WasReported(ActAll(activities), m) <==> Deliveries(activities, device, m) > 0
  {
    if activities != [] {
      var before, a := activities[..|activities| - 1], activities[|activities| - 1];
      DeliveredAloneCountsOnce(before, device, m);
      var ops := EveryCloudIsAHistory(before);
      ActivityRemembers(ActAll(before), ops, a, m);
      if Delivers(a, device, m) { DeliverOnce(ActAll(before), device, a.delivery, m); }
    }
  }
}
