/** The desired shadow and what devices are told: over everything the cloud does, a device's
    desired state is the merge of exactly the states published to it, in order. */
module PublishedState {
  import opened Common
  import opened JsonMerge
  import opened CloudTables
  import opened ShadowHistory
  import opened GroupCommands
  import opened MqttBridge
  import opened CloudRuns

  /** The states published to a device, in order. */
  function PublishedTo(published: seq<(string, Fields)>, d: string): seq<Fields> {
    if published == [] then []
    else
      var before, last := PublishedTo(published[..|published| - 1], d), published[|published| - 1];
      if last.0 == d then before + [last.1] else before
  }

  ghost predicate InStep(c: Cloud, d: string) {
    var told := PublishedTo(c.published, d);
    if d in c.shadows then c.shadows[d].desired == Fold(told) && c.shadows[d].desiredVersion == |told| else told == []
  }

  lemma CommandInStep(c: Cloud, device: string, state: Fields, id: Option<string>, up: bool, d: string)
    requires InStep(c, d)
    ensures InStep(ApplyDesired(c, device, state, id, up).1, d)
  {
    OneCommand(c, device, state, id, up);
    var told, c' := PublishedTo(c.published, d), ApplyDesired(c, device, state, id, up).1;
    if c'.published != c.published {
      assert c'.published[..|c'.published| - 1] == c.published;
      assert (told + [state])[..|told|] == told;
    }
  }

  lemma {:induction false} GroupInStep(c: Cloud, members: seq<string>, state: Fields, id: Option<string>, up: bool, n: nat, d: string)
    requires InStep(c, d) && n <= |members|
    ensures InStep(GroupUpTo(c, members, state, id, up, n).1, d)
  {
    if n > 0 {
      GroupInStep(c, members, state, id, up, n - 1, d);
      CommandInStep(GroupUpTo(c, members, state, id, up, n - 1).1, members[n - 1], state, ScopedId(id, n - 1), up, d);
    }
  }

  lemma {:induction false} SceneInStep(c: Cloud, actions: seq<(string, Fields)>, up: bool, d: string)
    requires InStep(c, d)
    ensures InStep(ApplyActions(c, actions, up), d)
  {
    if actions != [] {
      var init, last := actions[..|actions| - 1], actions[|actions| - 1];
      SceneInStep(c, init, up, d);
      CommandInStep(ApplyActions(c, init, up), last.0, last.1, None, up, d);
    }
  }

  lemma {:induction false} AutomationsInStep(c: Cloud, automations: seq<Automation>, reported: Fields, up: bool, n: nat, d: string)
    requires InStep(c, d) && n <= |automations|
    ensures InStep(RunUpTo(c, automations, reported, up, n).1, d)
  {
    if n > 0 {
      AutomationsInStep(c, automations, reported, up, n - 1, d);
      var c1 := RunUpTo(c, automations, reported, up, n - 1).1;
      if RunAction(c1, automations[n - 1].action, up).Some? { ActionInStep(c1, automations[n - 1].action, up, d); }
    }
  }

  lemma ActionInStep(c: Cloud, action: Action, up: bool, d: string)
    requires InStep(c, d) && RunAction(c, action, up).Some?
    ensures InStep(RunAction(c, action, up).value, d)
  {
    match action
    case OnDevice(device, state) => CommandInStep(c, device, state, None, up, d);
    case OnGroup(g, state) => GroupInStep(c, c.groups[g], state, None, up, |c.groups[g]|, d);
    case OnScene(s) => SceneInStep(c, c.scenes[s], up, d);
  }

  /** Store operations other than desired updates leave both sides alone. */
  lemma OpInStep(c: Cloud, op: Op, d: string)
    requires InStep(c, d) && !op.Desires?
    ensures InStep(Apply(c, op), d)
  {
    match op
    case Registers(_) =>
    case Reports(device, patch, id, reason, now) => ReportedKeepsDesired(c, device, patch, id, reason, now);
    case GoesOffline(_, _) =>
    case Sweeps(_) =>
    case Logs(_, _, _, _) =>
  }

  lemma ReportedKeepsDesired(c: Cloud, device: string, patch: Fields, id: Option<string>, reason: Option<string>, now: int)
    ensures var c' := UpdateReported(c, device, patch, id, reason, now).1;
            && c'.published == c.published && c'.shadows.Keys == c.shadows.Keys
            && forall d :: d in c.shadows ==>
                 c'.shadows[d].desired == c.shadows[d].desired && c'.shadows[d].desiredVersion == c.shadows[d].desiredVersion
  {}

  lemma ReportInStep(c: Cloud, device: string, patch: Fields, id: Option<string>, reason: Option<string>, now: int, up: bool, d: string)
    requires InStep(c, d)
    ensures InStep(ApplyReported(c, device, patch, id, reason, now, up).1, d)
  {
    ReportedKeepsDesired(c, device, patch, id, reason, now);
    var c1 := UpdateReported(c, device, patch, id, reason, now).1;
    var told := c1.(handled := c1.handled + [device]);
    if device in told.automations && device in told.shadows {
      AutomationsInStep(told, told.automations[device], told.shadows[device].reported, up, |told.automations[device]|, d);
    }
  }

  lemma EventInStep(c: Cloud, device: string, patch: Fields, id: Option<string>, name: string, payload: Fields, now: int, up: bool, d: string)
    requires InStep(c, d)
    ensures var (ok, c1) := ApplyReported(Register(c, device), device, patch, id, None, now, up);
            InStep(if !ok then c1 else RecordEvent(c1, device, name, payload, id).1, d)
  {
    ReportInStep(Register(c, device), device, patch, id, None, now, up, d);
  }

  lemma LegacyInStep(c: Cloud, device: string, doc: Json, now: int, up: bool, d: string)
    requires InStep(c, d)
    ensures InStep(IngestLegacy(c, device, doc, now, up), d)
  {
    var event := LegacyEvent(doc);
    if event.Some? && event.value == "ack" && doc.Object? {
      var acked := TextOf(doc.fields, "ack_msg_id");
      if acked.Some? {
        ReportInStep(Register(c, device), device,
          map["online" := Bool(true), "type" := Text("doorbell"), "ack_msg_id" := Text(acked.value)], LegacyId(doc), None, now, up, d);
      }
    } else if event.Some? {
      EventInStep(c, device, WithVersion(
          map["online" := Bool(true), "type" := Text("doorbell"), "last_event" := Text(event.value)], LegacyVersion(doc)),
        LegacyId(doc), event.value, WithVersion(map["event" := Text(event.value)], LegacyVersion(doc)), now, up, d);
    }
  }

  lemma NormalisedInStep(c: Cloud, deviceClass: string, device: string, channel: string, doc: Json,
                         hasUpdate: bool, now: int, up: bool, d: string)
    requires InStep(c, d)
    ensures InStep(IngestNormalised(c, deviceClass, device, channel, doc, hasUpdate, now, up), d)
  {
    if Unwrap(doc).Some? {
      var e := Unwrap(doc).value;
      match RouteOf(channel, e.kind) {
        case ToReported =>
          var reported, given := StatusReport(deviceClass, e.data), TextOf(e.data, "offline_reason");
          var reason := if IsOnline(reported) then None else if given.Some? then given else Some("mqtt_disconnect");
          ReportInStep(Register(c, device), device, reported, e.id, reason, now, up, d);
        case ToEvent =>
          EventInStep(c, device, EventReport(deviceClass, e.data), e.id, EventName(e.data), EventReport(deviceClass, e.data), now, up, d);
        case ToOta =>
          var result := ResultIn(device, e);
          if result.Some? {
            ReportInStep(c.(results := c.results + [result.value]), device,
              ResultReport(deviceClass, result.value), e.id, None, now, up, d);
          }
        case Dropped =>
      }
    }
  }

  lemma ActivityInStep(c: Cloud, a: Activity, d: string)
    requires InStep(c, d) && !(a.Stores? && a.op.Desires?)
    ensures InStep(Act(c, a), d)
  {
    match a
    case Stores(op) => OpInStep(c, op, d);
    case Commands(device, state, id, up) => CommandInStep(c, device, state, id, up, d);
    case CommandsGroup(g, state, id, up) =>
      if g in c.groups { GroupInStep(c, c.groups[g], state, id, up, |c.groups[g]|, d); }
    case ActivatesScene(s, up) =>
      if s in c.scenes { SceneInStep(c, c.scenes[s], up, d); }
    case Receives(device, Legacy(doc, now, up)) => LegacyInStep(c, device, doc, now, up, d);
    case Receives(device, Normalised(deviceClass, channel, doc, hasUpdate, now, up)) =>
      NormalisedInStep(c, deviceClass, device, channel, doc, hasUpdate, now, up, d);
    case Configures(_, _, _) =>
  }

  /** As every user of the store publishes the desired updates it makes: after anything the
      cloud did, a device's desired shadow is the merge of exactly the states published to it,
      its desired version is their number, and nothing was published to unknown devices. */
  lemma {:induction false} DesiredIsWhatWasPublished(activities: seq<Activity>, d: string)
    requires forall k :: 0 <= k < |activities| ==> !(activities[k].Stores? && activities[k].op.Desires?)
    ensures InStep(ActAll(activities), d)
  {
    if activities != [] {
      DesiredIsWhatWasPublished(activities[..|activities| - 1], d);
      ActivityInStep(ActAll(activities[..|activities| - 1]), activities[|activities| - 1], d);
    }
  }
}
