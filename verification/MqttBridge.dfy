/** What the cloud does with a message from a device: on a normalised topic by route, or on
    a doorbell's legacy topic. Reports update the reported shadow and run the automations;
    events are also stored. */
module MqttBridge {
  import opened Common
  import opened JsonMerge
  import opened CloudTables
  import opened GroupCommands

  function TextOf(doc: Fields, key: string): Option<string> {
    if key in doc && doc[key].Text? then Some(doc[key].s) else None
  }

  function ScalarOf(doc: Fields, key: string): Option<Json> {
    if key in doc && (doc[key].Bool? || doc[key].Number? || doc[key].Text?) then Some(doc[key]) else None
  }

  /** The version report in an update, if it names product, hardware and a version. */
  function VersionIn(device: string, reported: Fields): (r: seq<VersionReport>)
    ensures |r| <= 1
  {
    var key := if "fw_version" in reported then "fw_version" else "version";
    var product, hw := TextOf(reported, "product_id"), TextOf(reported, "hw_version");
    if product.Some? && hw.Some? && key in reported
       && (reported[key].Number? || (reported[key].Text? && reported[key].s != ""))
    then [VersionReport(device, product.value, hw.value, reported[key])]
    else []
  }

  /** An update that changes the reported shadow is handed to the automations, and its version
      report to the firmware engine unless an automation raises an error, which the flag
      then tells. */
  function ApplyReported(c: Cloud, device: string, reported: Fields, id: Option<string>,
                         reason: Option<string>, now: int, up: bool): (bool, Cloud)
  {
    var (outcome, c1) := UpdateReported(c, device, reported, id, reason, now);
    if outcome == Changed then
      var (ok, c2) := OnReported(c1.(handled := c1.handled + [device]), device, up);
      (ok, if ok then c2.(versions := c2.versions + VersionIn(device, reported)) else c2)
    else (outcome != NotFound, c1)
  }

  predicate WasReported(c: Cloud, m: string) { (Reported, m) in c.processed }

  /** What a first report leaves of the reported side, whatever the automations do. */
  lemma FirstReport(c: Cloud, device: string, reported: Fields, id: Option<string>, reason: Option<string>, now: int, up: bool)
    requires device in c.shadows && !Processed(c, Reported, id)
    ensures var (ok, c') := ApplyReported(c, device, reported, id, reason, now, up);
            && (id.Some? ==> WasReported(c', id.value)) && c'.handled == c.handled + [device]
            && c'.events == c.events && c'.lastEventId == c.lastEventId && c'.results == c.results
            && c'.versions == c.versions + (if ok then VersionIn(device, reported) else [])
            && device in c'.shadows
            && var s, s' := WithReported(c.shadows[device], reported, reason, now), c'.shadows[device];
               s' == s.(desired := s'.desired, desiredVersion := s'.desiredVersion, version := s'.version)
  {
    var c1 := UpdateReported(c, device, reported, id, reason, now).1;
    assert c1.shadows[device] == WithReported(c.shadows[device], reported, reason, now);
    AutomationsTouchOnlyDesired(c1.(handled := c1.handled + [device]), device, up);
  }

  function WithVersion(fields: Fields, version: Option<Json>): Fields {
    if version.Some? then fields["version" := version.value] else fields
  }

  // --- The legacy topic -------------------------------------------------------------------

  /** The event a legacy payload names; a bare string names itself. */
  function LegacyEvent(doc: Json): Option<string> {
    match doc
    case Text(s) => Some(s)
    case Object(m) => TextOf(m, "event")
    case _ => None
  }

  function LegacyId(doc: Json): Option<string> {
    if !doc.Object? then None
    else if TextOf(doc.fields, "msg_id").Some? then TextOf(doc.fields, "msg_id")
    else TextOf(doc.fields, "message_id")
  }

  function LegacyVersion(doc: Json): Option<Json> {
    if doc.Object? then ScalarOf(doc.fields, "version") else None
  }

  function IngestLegacy(c: Cloud, device: string, doc: Json, now: int, up: bool): Cloud {
    var event := LegacyEvent(doc);
    if event.None? then c
    else
      var c0 := Register(c, device);
      if event.value == "ack" && doc.Object? then
        var acked := TextOf(doc.fields, "ack_msg_id");
        if acked.None? then c0
        else
          ApplyReported(c0, device,
            map["online" := Bool(true), "type" := Text("doorbell"), "ack_msg_id" := Text(acked.value)],
            LegacyId(doc), None, now, up).1
      else
        var reported := WithVersion(
          map["online" := Bool(true), "type" := Text("doorbell"), "last_event" := Text(event.value)], LegacyVersion(doc));
        var (ok, c1) := ApplyReported(c0, device, reported, LegacyId(doc), None, now, up);
        if !ok then c1
        else RecordEvent(c1, device, event.value, WithVersion(map["event" := Text(event.value)], LegacyVersion(doc)), LegacyId(doc)).1
  }

  // --- The normalised topic ------------------------------------------------------------------

  datatype Envelope = Envelope(kind: Option<string>, id: Option<string>, data: Fields)

  /** The first of the two id keys that is present counts, even if it is not text. */
  function EnvelopeId(doc: Fields): Option<string> {
    TextOf(doc, if "msg_id" in doc then "msg_id" else "message_id")
  }

  function Unwrap(doc: Json): Option<Envelope> {
    if !doc.Object? then None
    else if "data" in doc.fields && doc.fields["data"].Object? then
      Some(Envelope(TextOf(doc.fields, "type"), EnvelopeId(doc.fields), doc.fields["data"].fields))
    else Some(Envelope(None, EnvelopeId(doc.fields), doc.fields))
  }

  datatype Route = ToReported | ToEvent | ToOta | Dropped

  function RouteOf(channel: string, kind: Option<string>): Route {
    var messageType := if kind.Some? && kind.value != "" then kind.value else channel;
    if messageType == "ack" then ToReported
    else if channel == "event" || messageType == "event" then ToEvent
    else if channel == "status" || channel == "shadow" || messageType == "status" then ToReported
    else if channel == "ota" || messageType == "ota" then ToOta
    else Dropped
  }

  function EventName(data: Fields): string {
    var name := TextOf(data, if "event" in data then "event" else "last_event");
    if name.Some? then name.value else "event"
  }

  function EventReport(deviceClass: string, data: Fields): Fields {
    var deviceType := TextOf(data, "type");
    (data - {"capabilities"})
      ["online" := Bool(true)]
      ["type" := Text(if deviceType.Some? then deviceType.value else deviceClass)]
      ["last_event" := Text(EventName(data))]
  }

  function IngestEvent(c: Cloud, deviceClass: string, device: string, e: Envelope, now: int, up: bool): Cloud {
    var reported := EventReport(deviceClass, e.data);
    var (ok, c1) := ApplyReported(Register(c, device), device, reported, e.id, None, now, up);
    if !ok then c1 else RecordEvent(c1, device, EventName(e.data), reported, e.id).1
  }

  /** A status: `on` follows a textual state, and a device that is not reported online gets a
      reason. */
  function StatusReport(deviceClass: string, data: Fields): Fields {
    var deviceType := TextOf(data, "type");
    var fallback := if deviceClass == "light" then "light_bulb" else deviceClass;
    var reported := (data - {"capabilities"})["type" := Text(if deviceType.Some? then deviceType.value else fallback)];
    var state := TextOf(reported, "state");
    if "on" !in reported && state.Some? then reported["on" := Bool(state.value == "on")] else reported
  }

  function IngestStatus(c: Cloud, deviceClass: string, device: string, e: Envelope, now: int, up: bool): Cloud {
    var reported := StatusReport(deviceClass, e.data);
    var given := TextOf(e.data, "offline_reason");
    var reason := if IsOnline(reported) then None else if given.Some? then given else Some("mqtt_disconnect");
    ApplyReported(Register(c, device), device, reported, e.id, reason, now, up).1
  }

  /** The text under `key`, unless it is empty. */
  function NonEmptyText(doc: Fields, key: string): Option<string> {
    if TextOf(doc, key) == Some("") then None else TextOf(doc, key)
  }

  /** The update result in an envelope, if its status is a known one. */
  function ResultIn(device: string, e: Envelope): Option<UpdateResult> {
    var status := TextOf(e.data, if "status" in e.data then "status" else "ota_status");
    var own := NonEmptyText(e.data, if "ota_msg_id" in e.data then "ota_msg_id" else "message_id");
    if status in {Some("downloading"), Some("success"), Some("failed")} then
      Some(UpdateResult(device, status.value, NonEmptyText(e.data, "fw_version"), if own.Some? then own else e.id))
    else None
  }

  function ResultReport(deviceClass: string, result: UpdateResult): Fields {
    var reported: Fields := map["type" := Text(if deviceClass == "light" then "light_bulb" else deviceClass),
                                "online" := Bool(true), "ota_status" := Text(result.status)];
    if result.version.Some? then reported["fw_version" := Text(result.version.value)] else reported
  }

  /** A result counts only for a known device with an update it belongs to: `hasUpdate` is
      what the firmware engine finds. No device is registered for it. */
  function IngestOta(c: Cloud, deviceClass: string, device: string, e: Envelope, hasUpdate: bool, now: int, up: bool): Cloud {
    var result := ResultIn(device, e);
    if result.None? || device !in c.shadows || !hasUpdate then c
    else
      var c1 := c.(results := c.results + [result.value]);
      ApplyReported(c1, device, ResultReport(deviceClass, result.value), e.id, None, now, up).1
  }

  /** Repeated, an update result reports once but is handed on each time: the firmware engine,
      unlike the shadow, does not know it again. */
  lemma RepeatedResultIsHandedOn(c: Cloud, deviceClass: string, device: string, e: Envelope, now: int, up: bool)
    requires device in c.shadows && e.id.Some? && !WasReported(c, e.id.value) && ResultIn(device, e).Some?
    ensures var c1 := IngestOta(c, deviceClass, device, e, true, now, up);
            var c2 := IngestOta(c1, deviceClass, device, e, true, now, up);
            var result := ResultIn(device, e).value;
            && c1.results == c.results + [result] && c2 == c1.(results := c1.results + [result])
            && device in c1.shadows
            && c1.shadows[device].reportedVersion == c.shadows[device].reportedVersion + 1
            && c1.handled == c.handled + [device]
  {
    var result := ResultIn(device, e).value;
    FirstReport(c.(results := c.results + [result]), device, ResultReport(deviceClass, result), e.id, None, now, up);
  }

  /** A document on a normalised topic, by the route its channel and type select. */
  function IngestNormalised(c: Cloud, deviceClass: string, device: string, channel: string, doc: Json,
                            hasUpdate: bool, now: int, up: bool): Cloud
  {
    var envelope := Unwrap(doc);
    if envelope.None? then c
    else
      match RouteOf(channel, envelope.value.kind)
      case ToReported => IngestStatus(c, deviceClass, device, envelope.value, now, up)
      case ToEvent => IngestEvent(c, deviceClass, device, envelope.value, now, up)
      case ToOta => IngestOta(c, deviceClass, device, envelope.value, hasUpdate, now, up)
      case Dropped => c
  }

  // --- The gateway's acknowledgement -----------------------------------------------------------

  /** The envelope the gateway publishes for an acknowledged command, on a light's event
      topic. */
  function AckDocument(id: string, time: real, ackId: string): Json {
    Object(map["v" := Number(1.0), "msg_id" := Text(id), "ts" := Number(time), "type" := Text("ack"),
               "data" := Object(map["ack_msg_id" := Text(ackId)])])
  }

  /** An acknowledgement is shown in the reported shadow of its light under a new envelope id.
      Though it comes on the event channel no event is stored, and it does not make the light
      online: a light that is not online gets a disconnect as its reason. */
  lemma AckReachesShadow(c: Cloud, device: string, id: string, time: real, ackId: string, hasUpdate: bool, now: int, up: bool)
    requires !WasReported(c, id)
    ensures Unwrap(AckDocument(id, time, ackId)) == Some(Envelope(Some("ack"), Some(id), map["ack_msg_id" := Text(ackId)]))
    ensures RouteOf("event", Some("ack")) == ToReported
    ensures var c' := IngestNormalised(c, "light", device, "event", AckDocument(id, time, ackId), hasUpdate, now, up);
            var wasOnline := device in c.shadows && IsOnline(c.shadows[device].reported);
            && device in c'.shadows
            && "ack_msg_id" in c'.shadows[device].reported
            && c'.shadows[device].reported["ack_msg_id"] == Text(ackId)
            && (IsOnline(c'.shadows[device].reported) <==> wasOnline)
            && c'.shadows[device].offlineReason == (if wasOnline then None else Some("mqtt_disconnect"))
            && c'.events == c.events
  {
    AckEnvelope(id, time, ackId);
    AckIsReport(c, device, id, time, ackId, hasUpdate, now, up);
    QuietReportShows(Register(c, device), device, AckReported(ackId), id, now, up);
  }

  function AckReported(ackId: string): Fields { map["ack_msg_id" := Text(ackId), "type" := Text("light_bulb")] }

  lemma AckIsReport(c: Cloud, device: string, id: string, time: real, ackId: string, hasUpdate: bool, now: int, up: bool)
    ensures IngestNormalised(c, "light", device, "event", AckDocument(id, time, ackId), hasUpdate, now, up) ==
            ApplyReported(Register(c, device), device, AckReported(ackId), Some(id), Some("mqtt_disconnect"), now, up).1
  {
    AckEnvelope(id, time, ackId);
    AckStatus(c, device, Envelope(Some("ack"), Some(id), map["ack_msg_id" := Text(ackId)]), ackId, now, up);
  }

  lemma AckStatus(c: Cloud, device: string, e: Envelope, ackId: string, now: int, up: bool)
    requires e.data == map["ack_msg_id" := Text(ackId)]
    ensures IngestStatus(c, "light", device, e, now, up) ==
            ApplyReported(Register(c, device), device, AckReported(ackId), e.id, Some("mqtt_disconnect"), now, up).1
  {
    AckReport(ackId);
    assert !IsOnline(AckReported(ackId)) && TextOf(e.data, "offline_reason") == None;
  }

  lemma AckEnvelope(id: string, time: real, ackId: string)
    ensures Unwrap(AckDocument(id, time, ackId)) == Some(Envelope(Some("ack"), Some(id), map["ack_msg_id" := Text(ackId)]))
  {
    var doc := AckDocument(id, time, ackId).fields;
    assert "msg_id" in doc && doc["msg_id"] == Text(id) && doc["type"] == Text("ack");
  }

  lemma AckReport(ackId: string)
    ensures StatusReport("light", map["ack_msg_id" := Text(ackId)]) == AckReported(ackId)
  {}

  /** A report that does not speak of `online` leaves it as it was. */
  lemma QuietReportShows(c: Cloud, device: string, reported: Fields, id: string, now: int, up: bool)
    requires device in c.shadows && !WasReported(c, id)
    requires "online" !in reported && forall k :: k in reported ==> reported[k].Text?
    ensures var c' := ApplyReported(c, device, reported, Some(id), Some("mqtt_disconnect"), now, up).1;
            && device in c'.shadows
            && (forall k :: k in reported ==> k in c'.shadows[device].reported && c'.shadows[device].reported[k] == reported[k])
            && (IsOnline(c'.shadows[device].reported) <==> IsOnline(c.shadows[device].reported))
            && c'.shadows[device].offlineReason ==
                 (if IsOnline(c.shadows[device].reported) then None else Some("mqtt_disconnect"))
            && c'.events == c.events
  {
    FirstReport(c, device, reported, Some(id), Some("mqtt_disconnect"), now, up);
    assert IsOnline(Merge(c.shadows[device].reported, reported)) <==> IsOnline(c.shadows[device].reported);
  }

  // --- One message, both topics ---------------------------------------------------------------

  datatype Delivery =
    | Legacy(doc: Json, now: int, up: bool)
    | Normalised(deviceClass: string, channel: string, doc: Json, hasUpdate: bool, now: int, up: bool)

  /** The delivery reports an event under the message id `m`. */
  predicate Carries(delivery: Delivery, m: string) {
    match delivery
    case Legacy(doc, _, _) =>
      LegacyEvent(doc).Some? && LegacyEvent(doc).value != "ack" && LegacyId(doc) == Some(m)
    case Normalised(_, channel, doc, _, _, _) =>
      Unwrap(doc).Some? && RouteOf(channel, Unwrap(doc).value.kind) == ToEvent && Unwrap(doc).value.id == Some(m)
  }

  function Deliver(c: Cloud, device: string, delivery: Delivery): Cloud {
    match delivery
    case Legacy(doc, now, up) => IngestLegacy(c, device, doc, now, up)
    case Normalised(deviceClass, channel, doc, hasUpdate, now, up) =>
      IngestNormalised(c, deviceClass, device, channel, doc, hasUpdate, now, up)
  }

  function DeliverAll(c: Cloud, device: string, deliveries: seq<Delivery>, m: string): Cloud
    requires forall i :: 0 <= i < |deliveries| ==> Carries(deliveries[i], m)
  {
    if deliveries == [] then c
    else Deliver(DeliverAll(c, device, deliveries[..|deliveries| - 1], m), device, deliveries[|deliveries| - 1])
  }

  function ReportedVersion(c: Cloud, device: string): nat {
    if device in c.shadows then c.shadows[device].reportedVersion else 0
  }

  /** A first report of `m` advances the reported version and calls the automations, once
      each, and may hand one version report on; a repeated one does none of these. */
  ghost predicate ReportedOnce(c: Cloud, c': Cloud, device: string, m: string, isFirst: bool) {
    && device in c'.shadows && WasReported(c', m)
    && ReportedVersion(c', device) == ReportedVersion(c, device) + (if isFirst then 1 else 0)
    && c'.handled == c.handled + (if isFirst then [device] else [])
    && |c'.versions| <= |c.versions| + (if isFirst then 1 else 0) && c.versions <= c'.versions
    && c'.events == c.events
  }

  /** What a delivery of `m` does: it reports once, and adds one event row at most; by the
      second delivery the row is there. */
  ghost predicate Once(c: Cloud, c': Cloud, device: string, m: string, isFirst: bool) {
    && ReportedOnce(c, c'.(events := c.events), device, m, isFirst)
    && (c'.events == c.events
        || (!EventStored(c.events, device, Some(m)) && |c'.events| == |c.events| + 1 && c.events <= c'.events
            && c'.events[|c.events|].device == device && c'.events[|c.events|].messageId == Some(m)))
    && (!isFirst ==> EventStored(c'.events, device, Some(m)))
  }

  lemma ReportOnce(c: Cloud, device: string, reported: Fields, m: string, now: int, up: bool)
    ensures var (ok, c') := ApplyReported(Register(c, device), device, reported, Some(m), None, now, up);
            ReportedOnce(c, c', device, m, !WasReported(c, m)) && (WasReported(c, m) ==> ok)
  {
    if !WasReported(c, m) { FirstReport(Register(c, device), device, reported, Some(m), None, now, up); }
  }

  lemma RecordOnce(c: Cloud, device: string, name: string, payload: Fields, m: string)
    requires device in c.shadows
    ensures var c' := RecordEvent(c, device, name, payload, Some(m)).1;
            && EventStored(c'.events, device, Some(m))
            && c'.(events := c.events, lastEventId := c.lastEventId) == c
            && (c'.events == c.events
                || (!EventStored(c.events, device, Some(m)) && |c'.events| == |c.events| + 1 && c.events <= c'.events
                    && c'.events[|c.events|].device == device && c'.events[|c.events|].messageId == Some(m)))
  {
    var c' := RecordEvent(c, device, name, payload, Some(m)).1;
    if c' != c {
      assert c'.events[|c.events|].device == device;
    }
  }

  /** Reporting, then recording unless an automation raised an error. */
  lemma ReportThenRecord(c: Cloud, device: string, reported: Fields, name: string, payload: Fields, m: string, now: int, up: bool)
    ensures var (ok, c1) := ApplyReported(Register(c, device), device, reported, Some(m), None, now, up);
            Once(c, if !ok then c1 else RecordEvent(c1, device, name, payload, Some(m)).1, device, m, !WasReported(c, m))
  {
    ReportOnce(c, device, reported, m, now, up);
    RecordOnce(ApplyReported(Register(c, device), device, reported, Some(m), None, now, up).1, device, name, payload, m);
  }

  lemma DeliverOnce(c: Cloud, device: string, delivery: Delivery, m: string)
    requires Carries(delivery, m)
    ensures Once(c, Deliver(c, device, delivery), device, m, !WasReported(c, m))
  {
    match delivery
    case Legacy(doc, now, up) =>
      var event := LegacyEvent(doc).value;
      var reported := WithVersion(
        map["online" := Bool(true), "type" := Text("doorbell"), "last_event" := Text(event)], LegacyVersion(doc));
      ReportThenRecord(c, device, reported, event, WithVersion(map["event" := Text(event)], LegacyVersion(doc)), m, now, up);
    case Normalised(deviceClass, channel, doc, _, now, up) =>
      var e := Unwrap(doc).value;
      var reported := EventReport(deviceClass, e.data);
      ReportThenRecord(c, device, reported, EventName(e.data), reported, m, now, up);
  }

  /** The event a delivery names. */
  function NameIn(delivery: Delivery, m: string): string
    requires Carries(delivery, m)
  {
    if delivery.Legacy? then LegacyEvent(delivery.doc).value else EventName(Unwrap(delivery.doc).value.data)
  }

  /** The device is shown online with the event, and a row added to the log carries it. */
  ghost predicate Shows(c: Cloud, c': Cloud, device: string, name: string, now: int) {
    && device in c'.shadows
    && IsOnline(c'.shadows[device].reported)
    && c'.shadows[device].offlineReason == None
    && c'.shadows[device].lastSeen == Some(now)
    && "last_event" in c'.shadows[device].reported
    && c'.shadows[device].reported["last_event"] == Text(name)
    && (c'.events != c.events ==> c'.events != [] && c'.events[|c'.events| - 1].name == name)
  }

  /** A first delivery on either topic shows the device online with its event, and the row it
      stores, if the automations let it, carries that event. */
  lemma FirstDeliveryShows(c: Cloud, device: string, delivery: Delivery, m: string)
    requires Carries(delivery, m) && !WasReported(c, m)
    ensures Shows(c, Deliver(c, device, delivery), device, NameIn(delivery, m), delivery.now)
  {
    var name := NameIn(delivery, m);
    match delivery
    case Legacy(doc, now, up) =>
      var reported := WithVersion(
        map["online" := Bool(true), "type" := Text("doorbell"), "last_event" := Text(name)], LegacyVersion(doc));
      ShowsThenRecords(c, device, reported, name, WithVersion(map["event" := Text(name)], LegacyVersion(doc)), m, now, up);
    case Normalised(deviceClass, channel, doc, _, now, up) =>
      var reported := EventReport(deviceClass, Unwrap(doc).value.data);
      ShowsThenRecords(c, device, reported, name, reported, m, now, up);
  }

  lemma ShowsThenRecords(c: Cloud, device: string, reported: Fields, name: string, payload: Fields, m: string, now: int, up: bool)
    requires !WasReported(c, m) && "online" in reported && reported["online"] == Bool(true)
    requires "last_event" in reported && reported["last_event"] == Text(name)
    ensures var (ok, c1) := ApplyReported(Register(c, device), device, reported, Some(m), None, now, up);
            Shows(c, if !ok then c1 else RecordEvent(c1, device, name, payload, Some(m)).1, device, name, now)
  {
    ReportShows(Register(c, device), device, reported, m, now, up);
  }

  lemma ReportShows(c: Cloud, device: string, reported: Fields, m: string, now: int, up: bool)
    requires device in c.shadows && !WasReported(c, m) && "online" in reported && reported["online"] == Bool(true)
    requires "last_event" in reported && reported["last_event"].Text?
    ensures var c' := ApplyReported(c, device, reported, Some(m), None, now, up).1;
            Shows(c, c', device, reported["last_event"].s, now) && c'.events == c.events
  {
    FirstReport(c, device, reported, Some(m), None, now, up);
    assert Merge(c.shadows[device].reported, reported)["online"] == Bool(true);
  }

  lemma OnceThenAgain(c: Cloud, c1: Cloud, c2: Cloud, device: string, m: string, isFirst: bool)
    requires Once(c, c1, device, m, isFirst) && Once(c1, c2, device, m, false)
    ensures Once(c, c2, device, m, isFirst) && EventStored(c2.events, device, Some(m))
  {}

  /** One message id on both topics, in any order and any number of times: the reported
      version advances once, the automations run once, and one event row at most is stored,
      certainly so from the second delivery on. */
  lemma {:induction false} BothTopicsOnce(c: Cloud, device: string, deliveries: seq<Delivery>, m: string)
    requires deliveries != [] && forall i :: 0 <= i < |deliveries| ==> Carries(deliveries[i], m)
    ensures Once(c, DeliverAll(c, device, deliveries, m), device, m, !WasReported(c, m))
    ensures |deliveries| >= 2 ==> EventStored(DeliverAll(c, device, deliveries, m).events, device, Some(m))
  {
    var n := |deliveries| - 1;
    var before := DeliverAll(c, device, deliveries[..n], m);
    DeliverOnce(before, device, deliveries[n], m);
    if n > 0 {
      BothTopicsOnce(c, device, deliveries[..n], m);
      OnceThenAgain(c, before, DeliverAll(c, device, deliveries, m), device, m, !WasReported(c, m));
    }
  }
}
