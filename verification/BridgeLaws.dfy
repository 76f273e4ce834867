/** What the documents devices send mean for the store, in terms of their keys and values. */
module BridgeLaws {
  import opened Common
  import opened JsonMerge
  import opened CloudTables
  import opened GroupCommands
  import opened CommandLaws
  import opened MqttBridge

  predicate HasText(doc: Fields, key: string) { key in doc && doc[key].Text? }

  /** The reported state before, empty for a device not seen yet. */
  function ReportedBefore(c: Cloud, device: string): Fields {
    if device in c.shadows then c.shadows[device].reported else map[]
  }

  /** The device was seen now and shows `patch` merged into what it reported before; it has
      no offline reason if it is online then, and else the new reason, if there is one. */
  ghost predicate Shows(c: Cloud, c': Cloud, device: string, patch: Fields, reason: Option<string>, now: int) {
    && device in c'.shadows
    && var s := c'.shadows[device];
       && s.reported == Merge(ReportedBefore(c, device), patch)
       && s.lastSeen == Some(now)
       && s.offlineReason == (if "online" in s.reported && s.reported["online"] == Bool(true) then None
                              else if reason.Some? && reason != Some("") then reason
                              else if device in c.shadows then c.shadows[device].offlineReason else None)
  }

  /** A report that is new shows, sets off the automations that fit what is then shown, and
      hands its version on if none of them fails. */
  lemma NewReportShows(c: Cloud, device: string, patch: Fields, id: Option<string>, reason: Option<string>, now: int, up: bool)
    requires !Processed(c, Reported, id)
    ensures var (ok, c') := ApplyReported(Register(c, device), device, patch, id, reason, now, up);
            && Shows(c, c', device, patch, reason, now)
            && c'.events == c.events && c'.lastEventId == c.lastEventId && c'.handled == c.handled + [device]
            && c'.versions == c.versions + (if ok then VersionIn(device, patch) else [])
            && (id.Some? ==> (Reported, id.value) in c'.processed)
  {
    FirstReport(Register(c, device), device, patch, id, reason, now, up);
  }

  lemma NewReportSetsOff(c: Cloud, device: string, patch: Fields, id: Option<string>, reason: Option<string>, now: int, up: bool)
    requires !Processed(c, Reported, id) && device in c.shadows && device in c.automations
    ensures var (ok, c') := ApplyReported(c, device, patch, id, reason, now, up);
            var automations, shown := c.automations[device], Merge(c.shadows[device].reported, patch);
            var n := Reached(c, automations, shown);
            (ok <==> n == |automations|) && c'.published == c.published + FittingCommands(c, automations, shown, n)
  {
    var told := UpdateReported(c, device, patch, id, reason, now).1;
    var automations, shown := c.automations[device], Merge(c.shadows[device].reported, patch);
    ReportRunsWhatFits(told.(handled := told.handled + [device]), device, up);
    SameReached(c, told, automations, shown, 0);
    SameReached(told, told.(handled := told.handled + [device]), automations, shown, 0);
    SameFitting(c, told.(handled := told.handled + [device]), automations, shown, Reached(c, automations, shown));
  }

  /** What fits depends on the configuration and on which devices exist. */
  predicate SameConfiguration(a: Cloud, b: Cloud) {
    a.groups == b.groups && a.scenes == b.scenes && a.shadows.Keys == b.shadows.Keys
  }

  lemma {:induction false} SameFitting(a: Cloud, b: Cloud, automations: seq<Automation>, reported: Fields, n: nat)
    requires SameConfiguration(a, b) && n <= |automations|
    ensures FittingCommands(a, automations, reported, n) == FittingCommands(b, automations, reported, n)
  {
    if n > 0 {
      SameFitting(a, b, automations, reported, n - 1);
      assert CommandsOf(a, automations[n - 1].action) == CommandsOf(b, automations[n - 1].action);
    }
  }

  lemma {:induction false} SameReached(a: Cloud, b: Cloud, automations: seq<Automation>, reported: Fields, from: nat)
    requires SameConfiguration(a, b) && from <= |automations|
    ensures Reached(a, automations, reported, from) == Reached(b, automations, reported, from)
    decreases |automations| - from
  {
    if from < |automations| { SameReached(a, b, automations, reported, from + 1); }
  }

  /** A version is handed on exactly from a report that names product and hardware and gives
      a version, as a number or as text that is not empty; `fw_version` goes before
      `version`. */
  lemma VersionIsHandedOn(device: string, patch: Fields, v: VersionReport)
    ensures var version := if "fw_version" in patch then patch["fw_version"] else if "version" in patch then patch["version"] else Null;
            v in VersionIn(device, patch) <==>
              HasText(patch, "product_id") && HasText(patch, "hw_version") && (version.Number? || (version.Text? && version != Text("")))
              && v == VersionReport(device, patch["product_id"].s, patch["hw_version"].s, version)
  {}

  // --- Envelopes and routes -----------------------------------------------------------------

  /** The message id of a document: under `msg_id`, or `message_id` where that key is absent. */
  ghost predicate HasId(doc: Fields, id: Option<string>) {
    id == if HasText(doc, "msg_id") then Some(doc["msg_id"].s)
          else if "msg_id" !in doc && HasText(doc, "message_id") then Some(doc["message_id"].s) else None
  }

  /** A document with an object under `data` is an envelope around it, any other object is its
      own data, and nothing else is a message. */
  lemma EnvelopeIsRead(doc: Json, id: Option<string>)
    requires doc.Object? ==> HasId(doc.fields, id)
    ensures !doc.Object? <==> Unwrap(doc) == None
    ensures doc.Object? && "data" in doc.fields && doc.fields["data"].Object? ==>
              Unwrap(doc) == Some(Envelope(if HasText(doc.fields, "type") then Some(doc.fields["type"].s) else None, id,
                                           doc.fields["data"].fields))
    ensures doc.Object? && !("data" in doc.fields && doc.fields["data"].Object?) ==> Unwrap(doc) == Some(Envelope(None, id, doc.fields))
  {}

  /** Where a message goes: by its own type, or by the channel where it gives none. An
      acknowledgement is reported whatever the channel; otherwise events go before status,
      and status before update results. */
  lemma RouteIsExact(channel: string, kind: Option<string>)
    ensures var t := if kind.None? || kind == Some("") then channel else kind.value; var route := RouteOf(channel, kind);
            && (route == ToEvent <==> t == "event" || (t != "ack" && channel == "event"))
            && (route == ToReported <==>
                  t == "ack" || (channel != "event" && (t == "status" || (t != "event" && channel in {"status", "shadow"}))))
            && (route == ToOta <==>
                  channel !in {"event", "status", "shadow"} && (t == "ota" || (t !in {"ack", "event", "status"} && channel == "ota")))
  {}

  /** Each route is one handler, and a message without a route changes nothing. */
  lemma MessageIsRouted(c: Cloud, deviceClass: string, device: string, channel: string, doc: Json, hasUpdate: bool, now: int, up: bool)
    requires Unwrap(doc).Some?
    ensures var e := Unwrap(doc).value; var route := RouteOf(channel, e.kind);
            IngestNormalised(c, deviceClass, device, channel, doc, hasUpdate, now, up) ==
              if route == ToReported then IngestStatus(c, deviceClass, device, e, now, up)
              else if route == ToEvent then IngestEvent(c, deviceClass, device, e, now, up)
              else if route == ToOta then IngestOta(c, deviceClass, device, e, hasUpdate, now, up)
              else c
  {}

  // --- Status -----------------------------------------------------------------------------------

  /** The patch of a status: its data without the capabilities, the device's type or that of
      its class, and `on` read off a textual state unless it is given. */
  ghost predicate StatusPatch(patch: Fields, deviceClass: string, data: Fields) {
    && "type" in patch
    && patch["type"] == (if HasText(data, "type") then data["type"]
                         else Text(if deviceClass == "light" then "light_bulb" else deviceClass))
    && ("on" in patch <==> "on" in data || HasText(data, "state"))
    && ("on" in data ==> patch["on"] == data["on"])
    && ("on" !in data && HasText(data, "state") ==> patch["on"] == Bool(data["state"].s == "on"))
    && "capabilities" !in patch
    && forall k :: k !in {"type", "on", "capabilities"} ==> (k in patch <==> k in data) && (k in patch ==> patch[k] == data[k])
  }

  lemma StatusIsRead(deviceClass: string, data: Fields)
    ensures StatusPatch(StatusReport(deviceClass, data), deviceClass, data)
    ensures IsOnline(StatusReport(deviceClass, data)) <==> "online" in data && data["online"] == Bool(true)
  {}

  /** A status shows its patch. A device that it does not call online gets the reason it
      gives, or a disconnect. */
  lemma StatusIsShown(c: Cloud, deviceClass: string, device: string, e: Envelope, now: int, up: bool)
    requires !Processed(c, Reported, e.id)
    ensures var c' := IngestStatus(c, deviceClass, device, e, now, up); var patch := StatusReport(deviceClass, e.data);
            var online := "online" in e.data && e.data["online"] == Bool(true);
            var reason := if online then None
                          else if HasText(e.data, "offline_reason") then Some(e.data["offline_reason"].s) else Some("mqtt_disconnect");
            && StatusPatch(patch, deviceClass, e.data) && Shows(c, c', device, patch, reason, now)
            && c'.events == c.events && c'.handled == c.handled + [device]
  {
    StatusIsRead(deviceClass, e.data);
    var patch := StatusReport(deviceClass, e.data);
    var given := TextOf(e.data, "offline_reason");
    var reason := if IsOnline(patch) then None else if given.Some? then given else Some("mqtt_disconnect");
    NewReportShows(c, device, patch, e.id, reason, now, up);
  }

  /** The status document a gateway publishes for a node. */
  function NodeStatus(id: string, time: real, online: bool, on: bool): Json {
    Object(map["v" := Number(1.0), "msg_id" := Text(id), "ts" := Number(time), "type" := Text("status"),
               "data" := Object(NodeData(online, on))])
  }

  function NodeData(online: bool, on: bool): Fields {
    map["online" := Bool(online), "on" := Bool(on), "state" := Text(if on then "on" else "off"),
        "type" := Text("light_bulb"), "capabilities" := Array([Text("on_off")])]
  }

  /** What a node's status says is what the shadow reports, and the light is offline by a
      disconnect if the gateway calls it so. */
  ghost predicate ShowsNode(c: Cloud, c': Cloud, device: string, online: bool, on: bool, now: int) {
    && device in c'.shadows
    && var s := c'.shadows[device];
       && (forall k :: k in {"online", "on", "state", "type"} ==> k in s.reported && s.reported[k] == NodeData(online, on)[k])
       && ("capabilities" in s.reported ==> "capabilities" in ReportedBefore(c, device))
       && s.offlineReason == (if online then None else Some("mqtt_disconnect"))
       && s.lastSeen == Some(now)
  }

  /** From gateway to shadow. */
  lemma NodeStatusReachesShadow(c: Cloud, device: string, id: string, time: real, online: bool, on: bool, hasUpdate: bool, now: int, up: bool)
    requires !WasReported(c, id)
    ensures ShowsNode(c, IngestNormalised(c, "light", device, "status", NodeStatus(id, time, online, on), hasUpdate, now, up),
                      device, online, on, now)
  {
    NodeIsRouted(c, device, id, time, online, on, hasUpdate, now, up);
    NodeIsShown(c, device, Envelope(Some("status"), Some(id), NodeData(online, on)), online, on, now, up);
  }

  lemma NodeIsShown(c: Cloud, device: string, e: Envelope, online: bool, on: bool, now: int, up: bool)
    requires !Processed(c, Reported, e.id) && e.data == NodeData(online, on)
    ensures ShowsNode(c, IngestStatus(c, "light", device, e, now, up), device, online, on, now)
  {
    StatusIsShown(c, "light", device, e, now, up);
    ShownIsNode(c, IngestStatus(c, "light", device, e, now, up), device, StatusReport("light", e.data), online, on, now);
  }

  lemma ShownIsNode(c: Cloud, c': Cloud, device: string, patch: Fields, online: bool, on: bool, now: int)
    requires StatusPatch(patch, "light", NodeData(online, on))
    requires Shows(c, c', device, patch, if online then None else Some("mqtt_disconnect"), now)
    ensures ShowsNode(c, c', device, online, on, now)
  {
    NodeShown(ReportedBefore(c, device), patch, online, on);
  }

  lemma NodeIsRouted(c: Cloud, device: string, id: string, time: real, online: bool, on: bool, hasUpdate: bool, now: int, up: bool)
    ensures IngestNormalised(c, "light", device, "status", NodeStatus(id, time, online, on), hasUpdate, now, up) ==
            IngestStatus(c, "light", device, Envelope(Some("status"), Some(id), NodeData(online, on)), now, up)
  {
    NodeEnvelope(id, time, online, on);
    RouteIsExact("status", Some("status"));
    MessageIsRouted(c, "light", device, "status", NodeStatus(id, time, online, on), hasUpdate, now, up);
  }

  lemma NodeEnvelope(id: string, time: real, online: bool, on: bool)
    ensures Unwrap(NodeStatus(id, time, online, on)) == Some(Envelope(Some("status"), Some(id), NodeData(online, on)))
  {
    var doc := NodeStatus(id, time, online, on).fields;
    assert doc["data"] == Object(NodeData(online, on));
    EnvelopeIsRead(Object(doc), Some(id));
  }

  lemma NodeShown(before: Fields, patch: Fields, online: bool, on: bool)
    requires StatusPatch(patch, "light", NodeData(online, on))
    ensures var shown := Merge(before, patch);
            && (forall k :: k in {"online", "on", "state", "type"} ==> k in shown && shown[k] == NodeData(online, on)[k])
            && ("capabilities" in shown ==> "capabilities" in before)
  {
    var data := NodeData(online, on);
    assert forall k :: k in {"online", "on", "state", "type"} ==> k in data && k in patch && patch[k] == data[k] && !data[k].Object? && !data[k].Null?;
  }

  // --- Events ------------------------------------------------------------------------------------

  /** The event a document names: under `event`, or `last_event` where that key is absent, and
      "event" if that is no text. */
  ghost predicate Names(data: Fields, name: string) {
    name == if HasText(data, "event") then data["event"].s
            else if "event" !in data && HasText(data, "last_event") then data["last_event"].s else "event"
  }

  ghost predicate EventPatch(patch: Fields, deviceClass: string, data: Fields, name: string) {
    && "online" in patch && patch["online"] == Bool(true)
    && "type" in patch && patch["type"] == (if HasText(data, "type") then data["type"] else Text(deviceClass))
    && "last_event" in patch && patch["last_event"] == Text(name)
    && "capabilities" !in patch
    && forall k :: k !in {"online", "type", "last_event", "capabilities"} ==>
         (k in patch <==> k in data) && (k in patch ==> patch[k] == data[k])
  }

  /** A row for the event was appended, unless its id was stored before. */
  ghost predicate Logged(c: Cloud, c': Cloud, device: string, name: string, payload: Fields, id: Option<string>) {
    if id.Some? && (exists i :: 0 <= i < |c.events| && c.events[i].device == device && c.events[i].messageId == id)
    then c'.events == c.events
    else c'.events == c.events + [EventRow(c.lastEventId + 1, device, name, payload, id)]
  }

  lemma EventIsLogged(c: Cloud, device: string, name: string, payload: Fields, id: Option<string>)
    requires device in c.shadows
    ensures var c' := RecordEvent(c, device, name, payload, id).1;
            Logged(c, c', device, name, payload, id) && c'.(events := c.events, lastEventId := c.lastEventId) == c
  {}

  lemma ReportIsLogged(c: Cloud, device: string, patch: Fields, id: Option<string>, name: string, payload: Fields, now: int, up: bool)
    requires !Processed(c, Reported, id)
    ensures var (ok, c1) := ApplyReported(Register(c, device), device, patch, id, None, now, up);
            var c' := if !ok then c1 else RecordEvent(c1, device, name, payload, id).1;
            Shows(c, c', device, patch, None, now) && (if ok then Logged(c, c', device, name, payload, id) else c'.events == c.events)
  {
    NewReportShows(c, device, patch, id, None, now, up);
    var (ok, c1) := ApplyReported(Register(c, device), device, patch, id, None, now, up);
    EventIsLogged(c1, device, name, payload, id);
  }

  /** An event is shown, with the device online, and logged with what it showed, unless an
      automation it sets off fails. */
  lemma EventIsShown(c: Cloud, deviceClass: string, device: string, e: Envelope, name: string, now: int, up: bool)
    requires !Processed(c, Reported, e.id) && Names(e.data, name)
    ensures var c' := IngestEvent(c, deviceClass, device, e, now, up); var patch := EventReport(deviceClass, e.data);
            var ok := ApplyReported(Register(c, device), device, patch, e.id, None, now, up).0;
            && EventPatch(patch, deviceClass, e.data, name) && Shows(c, c', device, patch, None, now)
            && (if ok then Logged(c, c', device, name, patch, e.id) else c'.events == c.events)
  {
    assert EventName(e.data) == name;
    ReportIsLogged(c, device, EventReport(deviceClass, e.data), e.id, name, EventReport(deviceClass, e.data), now, up);
  }

  // --- The legacy topic ----------------------------------------------------------------------------

  /** The event of a legacy document: a bare text is its own name. */
  ghost predicate LegacyNames(doc: Json, name: string) {
    doc == Text(name) || (doc.Object? && "event" in doc.fields && doc.fields["event"] == Text(name))
  }

  ghost predicate HasLegacyId(doc: Json, id: Option<string>) {
    id == if doc.Object? && HasText(doc.fields, "msg_id") then Some(doc.fields["msg_id"].s)
          else if doc.Object? && HasText(doc.fields, "message_id") then Some(doc.fields["message_id"].s) else None
  }

  /** The document gives a version that is a plain value. */
  predicate GivesVersion(doc: Json) {
    doc.Object? && "version" in doc.fields
    && (doc.fields["version"].Bool? || doc.fields["version"].Number? || doc.fields["version"].Text?)
  }

  /** `fields`, and the version if the document gives one. */
  ghost predicate WithGivenVersion(patch: Fields, fields: Fields, doc: Json) {
    patch == if GivesVersion(doc) then fields["version" := doc.fields["version"]] else fields
  }

  /** A document that names no event is ignored. One that does shows the doorbell online with
      the event, and logs the event with the version it gives. */
  lemma LegacyIsShown(c: Cloud, device: string, doc: Json, name: string, id: Option<string>, patch: Fields, payload: Fields, now: int, up: bool)
    requires LegacyNames(doc, name) && HasLegacyId(doc, id) && !Processed(c, Reported, id)
    requires WithGivenVersion(patch, map["online" := Bool(true), "type" := Text("doorbell"), "last_event" := Text(name)], doc)
    requires WithGivenVersion(payload, map["event" := Text(name)], doc)
    requires name != "ack" || !doc.Object?
    ensures var c' := IngestLegacy(c, device, doc, now, up);
            var ok := ApplyReported(Register(c, device), device, patch, id, None, now, up).0;
            && Shows(c, c', device, patch, None, now)
            && (if ok then Logged(c, c', device, name, payload, id) else c'.events == c.events)
  {
    ReportIsLogged(c, device, patch, id, name, payload, now, up);
    LegacyIsRead(doc, name, id, patch, payload);
  }

  lemma LegacyIsRead(doc: Json, name: string, id: Option<string>, patch: Fields, payload: Fields)
    requires LegacyNames(doc, name) && HasLegacyId(doc, id)
    requires WithGivenVersion(patch, map["online" := Bool(true), "type" := Text("doorbell"), "last_event" := Text(name)], doc)
    requires WithGivenVersion(payload, map["event" := Text(name)], doc)
    ensures LegacyEvent(doc) == Some(name) && LegacyId(doc) == id
    ensures patch == WithVersion(map["online" := Bool(true), "type" := Text("doorbell"), "last_event" := Text(name)], LegacyVersion(doc))
    ensures payload == WithVersion(map["event" := Text(name)], LegacyVersion(doc))
  {}

  lemma NamelessIsIgnored(c: Cloud, device: string, doc: Json, now: int, up: bool)
    requires forall name :: !LegacyNames(doc, name)
    ensures IngestLegacy(c, device, doc, now, up) == c
  {
    if doc.Text? { assert LegacyNames(doc, doc.s); }
    if doc.Object? && HasText(doc.fields, "event") { assert LegacyNames(doc, doc.fields["event"].s); }
  }

  /** An acknowledgement on the legacy topic shows the message it acknowledges, with the
      doorbell online, and logs nothing; one that names no message only makes the doorbell
      known. */
  lemma LegacyAckIsShown(c: Cloud, device: string, doc: Json, id: Option<string>, now: int, up: bool)
    requires doc.Object? && LegacyNames(doc, "ack") && HasLegacyId(doc, id) && !Processed(c, Reported, id)
    ensures var c' := IngestLegacy(c, device, doc, now, up);
            && c'.events == c.events
            && (HasText(doc.fields, "ack_msg_id") ==>
                  Shows(c, c', device, map["online" := Bool(true), "type" := Text("doorbell"), "ack_msg_id" := doc.fields["ack_msg_id"]],
                        None, now))
            && (!HasText(doc.fields, "ack_msg_id") ==>
                  c' == if device in c.shadows then c else c.(shadows := c.shadows[device := Shadow(map[], map[], 0, 0, 0, None, None)]))
  {
    if HasText(doc.fields, "ack_msg_id") {
      NewReportShows(c, device, map["online" := Bool(true), "type" := Text("doorbell"), "ack_msg_id" := doc.fields["ack_msg_id"]],
                     id, None, now, up);
    }
  }

  // --- Update results --------------------------------------------------------------------------------

  /** The value under the first key, or under the second where the first is absent. */
  function Either(doc: Fields, first: string, second: string): Json {
    if first in doc then doc[first] else if second in doc then doc[second] else Null
  }

  /** The id an update result names for itself, or that of its envelope. */
  ghost predicate HasResultId(e: Envelope, id: Option<string>) {
    var own := Either(e.data, "ota_msg_id", "message_id");
    id == if own.Text? && own != Text("") then Some(own.s) else e.id
  }

  /** An update result counts if its status is "downloading", "success" or "failed", and it
      belongs to an update of a known device. It is then handed on with the version and id it
      gives, and shown with the device online. */
  lemma ResultIsShown(c: Cloud, deviceClass: string, device: string, e: Envelope, id: Option<string>, hasUpdate: bool, now: int, up: bool)
    requires !Processed(c, Reported, e.id) && HasResultId(e, id)
    ensures var c' := IngestOta(c, deviceClass, device, e, hasUpdate, now, up);
            var status := Either(e.data, "status", "ota_status");
            var counts := status in {Text("downloading"), Text("success"), Text("failed")} && device in c.shadows && hasUpdate;
            var version := if HasText(e.data, "fw_version") && e.data["fw_version"].s != "" then Some(e.data["fw_version"].s) else None;
            && (!counts ==> c' == c)
            && (counts ==>
                  var plain: Fields := map["type" := Text(if deviceClass == "light" then "light_bulb" else deviceClass),
                                           "online" := Bool(true), "ota_status" := status];
                  && c'.results == c.results + [UpdateResult(device, status.s, version, id)]
                  && Shows(c, c', device, if version.Some? then plain["fw_version" := Text(version.value)] else plain, None, now)
                  && c'.events == c.events)
  {
    var result := ResultIn(device, e);
    if result.Some? && device in c.shadows && hasUpdate {
      FirstReport(c.(results := c.results + [result.value]), device, ResultReport(deviceClass, result.value), e.id, None, now, up);
    }
  }
}
