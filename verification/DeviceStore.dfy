/** The store, the automation engine and the bridge as they update the tables in place.
    `State` is the value of the tables; every method performs one operation on it. */
module DeviceStore {
  import opened Common
  import opened JsonMerge
  import CloudTables
  import EventPaging
  import GroupCommands
  import MqttBridge

  type Cloud = CloudTables.Cloud
  type Shadow = CloudTables.Shadow
  type Outcome = CloudTables.Outcome
  type EventRow = CloudTables.EventRow
  type CommandResult = GroupCommands.CommandResult

  class Store {
    var shadows: map<string, Shadow>
    var processed: set<(CloudTables.Scope, string)>
    var events: seq<EventRow>
    var lastEventId: nat
    var groups: map<string, seq<string>>
    var scenes: map<string, seq<(string, Fields)>>
    var automations: map<string, seq<CloudTables.Automation>>
    var published: seq<(string, Fields)>
    var handled: seq<string>
    var versions: seq<CloudTables.VersionReport>
    var results: seq<CloudTables.UpdateResult>

    function State(): Cloud
      reads this
    {
      CloudTables.Cloud(shadows, processed, events, lastEventId, groups, scenes, automations, published, handled,
                        versions, results)
    }

    constructor ()
      ensures State() == CloudTables.Cloud(map[], {}, [], 0, map[], map[], map[], [], [], [], [])
    {
      shadows, processed, events, lastEventId := map[], {}, [], 0;
      groups, scenes, automations := map[], map[], map[];
      published, handled, versions, results := [], [], [], [];
    }

    // --- Store operations ---------------------------------------------------------------

    method RegisterDevice(device: string)
      modifies this
      ensures State() == CloudTables.Register(old(State()), device)
    {
      if device !in shadows {
        shadows := shadows[device := CloudTables.NEW_SHADOW];
      }
    }

    method RecordMessage(scope: CloudTables.Scope, id: Option<string>)
      modifies this`processed
      ensures State() == CloudTables.Recorded(old(State()), scope, id)
    {
      if id.Some? {
        processed := processed + {(scope, id.value)};
      }
    }

    method UpdateDesired(device: string, patch: Fields, id: Option<string>) returns (outcome: Outcome)
      modifies this
      ensures (outcome, State()) == CloudTables.UpdateDesired(old(State()), device, patch, id)
    {
      if device !in shadows {
        return CloudTables.NotFound;
      }
      var current := shadows[device];
      if id.Some? && (CloudTables.Desired, id.value) in processed {
        return CloudTables.Unchanged;
      }
      var merged := MergeObject(current.desired, patch);
      shadows := shadows[device := current.(desired := merged, desiredVersion := current.desiredVersion + 1,
                                            version := current.version + 1)];
      RecordMessage(CloudTables.Desired, id);
      return CloudTables.Changed;
    }

    method UpdateReported(device: string, patch: Fields, id: Option<string>, offlineReason: Option<string>, now: int)
      returns (outcome: Outcome)
      modifies this
      ensures (outcome, State()) == CloudTables.UpdateReported(old(State()), device, patch, id, offlineReason, now)
    {
      if device !in shadows {
        return CloudTables.NotFound;
      }
      var current := shadows[device];
      if id.Some? && (CloudTables.Reported, id.value) in processed {
        return CloudTables.Unchanged;
      }
      var merged := MergeObject(current.reported, patch);
      var reason := current.offlineReason;
      if CloudTables.IsOnline(merged) {
        reason := None;
      } else if offlineReason.Some? && offlineReason.value != "" {
        reason := offlineReason;
      }
      shadows := shadows[device := current.(reported := merged, reportedVersion := current.reportedVersion + 1,
                                            version := current.version + 1, offlineReason := reason, lastSeen := Some(now))];
      RecordMessage(CloudTables.Reported, id);
      return CloudTables.Changed;
    }

    method MarkOffline(device: string, reason: string) returns (outcome: Outcome)
      modifies this
      ensures (outcome, State()) == CloudTables.MarkOffline(old(State()), device, reason)
    {
      if device !in shadows {
        return CloudTables.NotFound;
      }
      var current := shadows[device];
      var reported := MergeObject(current.reported, map["online" := Bool(false)]);
      shadows := shadows[device := current.(reported := reported, reportedVersion := current.reportedVersion + 1,
                                            version := current.version + 1, offlineReason := Some(reason))];
      return CloudTables.Changed;
    }

    /** Marks the devices that are online but silent since the cutoff, and lists them. */
    method MarkStaleDevices(cutoff: int) returns (marked: seq<string>)
      modifies this
      ensures State() == CloudTables.Sweep(old(State()), cutoff)
      ensures forall d :: d in marked <==> d in old(shadows) && CloudTables.Stale(old(shadows)[d], cutoff)
      ensures forall i, j :: 0 <= i < j < |marked| ==> marked[i] != marked[j]
    {
      marked := [];
      ghost var before := shadows;
      var rows := shadows.Keys;
      while rows != {}
        invariant rows <= before.Keys
        invariant shadows == SweptOutside(before, rows, cutoff) && State() == old(State()).(shadows := shadows)
        invariant forall d :: d in marked <==> d in before && d !in rows && CloudTables.Stale(before[d], cutoff)
        invariant forall i, j :: 0 <= i < j < |marked| ==> marked[i] != marked[j]
        decreases rows
      {
        var device :| device in rows;
        var row := shadows[device];
        SweepOne(before, rows, device, cutoff);
        rows := rows - {device};
        if row.lastSeen.None? || row.lastSeen.value >= cutoff || !CloudTables.IsOnline(row.reported) {
          continue;
        }
        shadows := shadows[device := row.(reported := row.reported["online" := Bool(false)],
                                          reportedVersion := row.reportedVersion + 1, version := row.version + 1,
                                          offlineReason := Some("cloud_timeout"))];
        marked := marked + [device];
      }
      assert shadows == CloudTables.Sweep(old(State()), cutoff).shadows;
    }

    /** Appends an event, unless the device has one with the same message id. */
    method RecordEvent(device: string, name: string, payload: Fields, id: Option<string>) returns (outcome: Outcome)
      modifies this
      ensures (outcome, State()) == CloudTables.RecordEvent(old(State()), device, name, payload, id)
    {
      if device !in shadows {
        return CloudTables.NotFound;
      }
      if CloudTables.EventStored(events, device, id) {
        return CloudTables.Unchanged;
      }
      lastEventId := lastEventId + 1;
      events := events + [CloudTables.EventRow(lastEventId, device, name, payload, id)];
      return CloudTables.Changed;
    }

    /** A page of the device's events, collected from the newest down. */
    method ListDeviceEvents(device: string, limit: nat, before: Option<nat>) returns (page: Option<seq<EventRow>>)
      ensures page == if device in shadows then Some(EventPaging.Page(events, device, limit, before)) else None
    {
      if device !in shadows {
        return None;
      }
      var rows := [];
      var i := |events|;
      assert events[..i] == events;
      while i > 0 && |rows| < limit
        invariant 0 <= i <= |events| && |rows| <= limit
        invariant EventPaging.Newest(events, device, before) == rows + EventPaging.Newest(events[..i], device, before)
      {
        i := i - 1;
        NewestStep(events, rows, i, device, before);
        if EventPaging.Wanted(events[i], device, before) {
          rows := rows + [events[i]];
        }
      }
      CutAt(rows, EventPaging.Newest(events[..i], device, before), limit);
      return Some(rows);
    }

    // --- Commands and automations ----------------------------------------------------------

    method ApplyDesired(device: string, state: Fields, id: Option<string>, up: bool) returns (result: CommandResult)
      modifies this
      ensures (result, State()) == GroupCommands.ApplyDesired(old(State()), device, state, id, up)
    {
      var outcome := UpdateDesired(device, state, id);
      if outcome.NotFound? {
        return GroupCommands.CommandResult(device, false, false, false);
      }
      var wasPublished := false;
      if outcome.Changed? {
        published := published + [(device, state)];
        wasPublished := up;
      }
      return GroupCommands.CommandResult(device, outcome.Changed?, wasPublished, true);
    }

    method CommandMembers(members: seq<string>, state: Fields, id: Option<string>, up: bool) returns (results: seq<CommandResult>)
      modifies this
      ensures (results, State()) == GroupCommands.CommandGroup(old(State()), members, state, id, up)
    {
      results := [];
      var index := 0;
      while index < |members|
        invariant 0 <= index <= |members|
        invariant (results, State()) == GroupCommands.GroupUpTo(old(State()), members, state, id, up, index)
      {
        var result := ApplyDesired(members[index], state, GroupCommands.ScopedId(id, index), up);
        results := results + [result];
        index := index + 1;
      }
    }

    method RunActions(actions: seq<(string, Fields)>, up: bool)
      modifies this
      ensures State() == GroupCommands.ApplyActions(old(State()), actions, up)
    {
      var i := 0;
      while i < |actions|
        invariant 0 <= i <= |actions|
        invariant State() == GroupCommands.ApplyActions(old(State()), actions[..i], up)
      {
        assert actions[..i + 1][..i] == actions[..i];
        var _ := ApplyDesired(actions[i].0, actions[i].1, None, up);
        i := i + 1;
      }
      assert actions[..i] == actions;
    }

    /** False if the action's group or scene is gone. */
    method RunAction(action: CloudTables.Action, up: bool) returns (ok: bool)
      modifies this
      ensures var c := GroupCommands.RunAction(old(State()), action, up);
              ok == c.Some? && State() == if ok then c.value else old(State())
    {
      match action {
        case OnDevice(d, state) =>
          var _ := ApplyDesired(d, state, None, up);
          return true;
        case OnGroup(g, state) =>
          if g !in groups {
            return false;
          }
          var _ := CommandMembers(groups[g], state, None, up);
          return true;
        case OnScene(s) =>
          if s !in scenes {
            return false;
          }
          RunActions(scenes[s], up);
          return true;
      }
    }

    method OnReported(device: string, up: bool) returns (ok: bool)
      modifies this
      ensures (ok, State()) == GroupCommands.OnReported(old(State()), device, up)
    {
      ok := true;
      if device !in automations || device !in shadows {
        return;
      }
      var rules := automations[device];
      var reported := shadows[device].reported;
      var i := 0;
      while i < |rules|
        invariant 0 <= i <= |rules| && ok
        invariant (ok, State()) == GroupCommands.RunUpTo(old(State()), rules, reported, up, i)
      {
        if GroupCommands.Triggered(rules[i], reported) {
          ok := RunAction(rules[i].action, up);
          if !ok {
            GroupCommands.RunStopped(old(State()), rules, reported, up, i + 1, |rules|);
            return;
          }
        }
        i := i + 1;
      }
    }

    // --- The bridge ----------------------------------------------------------------------------

    method ApplyReported(device: string, reported: Fields, id: Option<string>, reason: Option<string>, now: int, up: bool)
      returns (ok: bool)
      modifies this
      ensures (ok, State()) == MqttBridge.ApplyReported(old(State()), device, reported, id, reason, now, up)
    {
      var outcome := UpdateReported(device, reported, id, reason, now);
      if outcome.Changed? {
        handled := handled + [device];
        ok := OnReported(device, up);
        if ok {
          versions := versions + MqttBridge.VersionIn(device, reported);
        }
      } else {
        ok := !outcome.NotFound?;
      }
    }

    /** An event on a device's legacy topic. */
    method IngestDoorbell(device: string, doc: Json, now: int, up: bool)
      modifies this
      ensures State() == MqttBridge.IngestLegacy(old(State()), device, doc, now, up)
    {
      var event := MqttBridge.LegacyEvent(doc);
      if event.None? {
        return;
      }
      RegisterDevice(device);
      var id := MqttBridge.LegacyId(doc);
      if event.value == "ack" && doc.Object? {
        var acked := MqttBridge.TextOf(doc.fields, "ack_msg_id");
        if acked.Some? {
          var _ := ApplyReported(device,
            map["online" := Bool(true), "type" := Text("doorbell"), "ack_msg_id" := Text(acked.value)], id, None, now, up);
        }
        return;
      }
      var version := MqttBridge.LegacyVersion(doc);
      var reported := MqttBridge.WithVersion(
        map["online" := Bool(true), "type" := Text("doorbell"), "last_event" := Text(event.value)], version);
      var ok := ApplyReported(device, reported, id, None, now, up);
      if ok {
        var _ := RecordEvent(device, event.value, MqttBridge.WithVersion(map["event" := Text(event.value)], version), id);
      }
    }

    /** An update result; it is handed on if the firmware engine has an update for it. */
    method IngestOta(deviceClass: string, device: string, e: MqttBridge.Envelope, hasUpdate: bool, now: int, up: bool)
      modifies this
      ensures State() == MqttBridge.IngestOta(old(State()), deviceClass, device, e, hasUpdate, now, up)
    {
      var result := MqttBridge.ResultIn(device, e);
      if result.None? || device !in shadows || !hasUpdate {
        return;
      }
      results := results + [result.value];
      var _ := ApplyReported(device, MqttBridge.ResultReport(deviceClass, result.value), e.id, None, now, up);
    }

    /** A document on a normalised topic. */
    method IngestFarmely(deviceClass: string, device: string, channel: string, doc: Json, hasUpdate: bool, now: int, up: bool)
      modifies this
      ensures State() == MqttBridge.IngestNormalised(old(State()), deviceClass, device, channel, doc, hasUpdate, now, up)
    {
      var envelope := MqttBridge.Unwrap(doc);
      if envelope.None? {
        return;
      }
      var e := envelope.value;
      match MqttBridge.RouteOf(channel, e.kind) {
        case ToEvent =>
          RegisterDevice(device);
          var reported := MqttBridge.EventReport(deviceClass, e.data);
          var ok := ApplyReported(device, reported, e.id, None, now, up);
          if ok {
            var _ := RecordEvent(device, MqttBridge.EventName(e.data), reported, e.id);
          }
        case ToReported =>
          RegisterDevice(device);
          var reported := MqttBridge.StatusReport(deviceClass, e.data);
          var reason := MqttBridge.TextOf(e.data, "offline_reason");
          if CloudTables.IsOnline(reported) {
            reason := None;
          } else if reason.None? {
            reason := Some("mqtt_disconnect");
          }
          var _ := ApplyReported(device, reported, e.id, reason, now, up);
        case ToOta =>
          IngestOta(deviceClass, device, e, hasUpdate, now, up);
        case Dropped =>
      }
    }
  }

  /** The rows after a sweep has visited all devices outside `rows`. */
  ghost function SweptOutside(before: map<string, Shadow>, rows: set<string>, cutoff: int): map<string, Shadow> {
    map d | d in before ::
      if d !in rows && CloudTables.Stale(before[d], cutoff) then CloudTables.Swept(before[d]) else before[d]
  }

  lemma SweepOne(before: map<string, Shadow>, rows: set<string>, device: string, cutoff: int)
    requires device in rows && rows <= before.Keys
    ensures SweptOutside(before, rows, cutoff)[device] == before[device]
    ensures SweptOutside(before, rows - {device}, cutoff) ==
            if CloudTables.Stale(before[device], cutoff)
            then SweptOutside(before, rows, cutoff)[device := CloudTables.Swept(before[device])]
            else SweptOutside(before, rows, cutoff)
  {}

  lemma NewestStep(events: seq<EventRow>, rows: seq<EventRow>, i: nat, device: string, before: Option<nat>)
    requires i < |events|
    ensures var older := EventPaging.Newest(events[..i], device, before);
            rows + EventPaging.Newest(events[..i + 1], device, before) ==
            (if EventPaging.Wanted(events[i], device, before) then rows + [events[i]] else rows) + older
  {
    assert events[..i + 1][..i] == events[..i];
  }

  lemma CutAt(rows: seq<EventRow>, rest: seq<EventRow>, limit: nat)
    requires |rows| <= limit && (|rows| == limit || rest == [])
    ensures EventPaging.Limited(rows + rest, limit) == rows
  {}
}
