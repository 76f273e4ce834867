/** The cloud's device tables and its store operations, each one transaction. */
module CloudTables {
  import opened Common
  import opened JsonMerge

  datatype Shadow = Shadow(
    desired: Fields, reported: Fields,
    desiredVersion: nat, reportedVersion: nat, version: nat,
    offlineReason: Option<string>, lastSeen: Option<int>)

  const NEW_SHADOW := Shadow(map[], map[], 0, 0, 0, None, None)

  datatype Scope = Desired | Reported

  datatype EventRow = EventRow(id: nat, device: string, name: string, payload: Fields, messageId: Option<string>)

  datatype Action =
    | OnDevice(device: string, state: Fields)
    | OnGroup(group: string, groupState: Fields)
    | OnScene(scene: string)

  datatype Automation = Automation(field: string, value: Json, action: Action)

  /** A device's report of what it runs. A version given as a number counts as its text. */
  datatype VersionReport = VersionReport(device: string, product: string, hw: string, version: Json)

  /** A device's report of how an update of its firmware went. */
  datatype UpdateResult = UpdateResult(device: string, status: string, version: Option<string>, id: Option<string>)

  /** `automations` lists the enabled automations of each trigger device, in the order they
      run. The last four record calls that leave the tables: desired states handed to the
      publisher, reported updates handed to the automation engine, and versions and update
      results handed to the firmware engine. */
  datatype Cloud = Cloud(
    shadows: map<string, Shadow>,
    processed: set<(Scope, string)>,
    events: seq<EventRow>, lastEventId: nat,
    groups: map<string, seq<string>>,
    scenes: map<string, seq<(string, Fields)>>,
    automations: map<string, seq<Automation>>,
    published: seq<(string, Fields)>,
    handled: seq<string>,
    versions: seq<VersionReport>,
    results: seq<UpdateResult>)

  datatype Outcome = NotFound | Unchanged | Changed

  /** The message was applied before, on any device. */
  predicate Processed(c: Cloud, scope: Scope, messageId: Option<string>) {
    messageId.Some? && (scope, messageId.value) in c.processed
  }

  function Recorded(c: Cloud, scope: Scope, messageId: Option<string>): Cloud {
    if messageId.None? then c else c.(processed := c.processed + {(scope, messageId.value)})
  }

  function Register(c: Cloud, device: string): Cloud {
    if device in c.shadows then c else c.(shadows := c.shadows[device := NEW_SHADOW])
  }

  function WithDesired(s: Shadow, patch: Fields): Shadow {
    s.(desired := Merge(s.desired, patch), desiredVersion := s.desiredVersion + 1, version := s.version + 1)
  }

  function UpdateDesired(c: Cloud, device: string, patch: Fields, messageId: Option<string>): (Outcome, Cloud) {
    if device !in c.shadows then (NotFound, c)
    else if Processed(c, Desired, messageId) then (Unchanged, c)
    else (Changed, Recorded(c.(shadows := c.shadows[device := WithDesired(c.shadows[device], patch)]), Desired, messageId))
  }

  predicate IsOnline(reported: Fields) { "online" in reported && reported["online"] == Bool(true) }

  function WithReported(s: Shadow, patch: Fields, reason: Option<string>, now: int): Shadow {
    var merged := Merge(s.reported, patch);
    s.(reported := merged, reportedVersion := s.reportedVersion + 1, version := s.version + 1,
       offlineReason := if IsOnline(merged) then None
                        else if reason.Some? && reason.value != "" then reason
                        else s.offlineReason,
       lastSeen := Some(now))
  }

  function UpdateReported(c: Cloud, device: string, patch: Fields, messageId: Option<string>,
                          reason: Option<string>, now: int): (Outcome, Cloud)
  {
    if device !in c.shadows then (NotFound, c)
    else if Processed(c, Reported, messageId) then (Unchanged, c)
    else (Changed,
      Recorded(c.(shadows := c.shadows[device := WithReported(c.shadows[device], patch, reason, now)]), Reported, messageId))
  }

  const OFFLINE_PATCH: Fields := map["online" := Bool(false)]

  function Offline(s: Shadow, reason: string): Shadow {
    s.(reported := Merge(s.reported, OFFLINE_PATCH), reportedVersion := s.reportedVersion + 1,
       version := s.version + 1, offlineReason := Some(reason))
  }

  function MarkOffline(c: Cloud, device: string, reason: string): (Outcome, Cloud) {
    if device !in c.shadows then (NotFound, c)
    else (Changed, c.(shadows := c.shadows[device := Offline(c.shadows[device], reason)]))
  }

  predicate Stale(s: Shadow, cutoff: int) {
    s.lastSeen.Some? && s.lastSeen.value < cutoff && IsOnline(s.reported)
  }

  function Swept(s: Shadow): Shadow {
    s.(reported := s.reported["online" := Bool(false)], reportedVersion := s.reportedVersion + 1,
       version := s.version + 1, offlineReason := Some("cloud_timeout"))
  }

  function Sweep(c: Cloud, cutoff: int): Cloud {
    c.(shadows := map d | d in c.shadows ::
         if Stale(c.shadows[d], cutoff) then Swept(c.shadows[d]) else c.shadows[d])
  }

  predicate EventStored(events: seq<EventRow>, device: string, messageId: Option<string>) {
    messageId.Some? && exists i :: 0 <= i < |events| && events[i].device == device && events[i].messageId == messageId
  }

  function RecordEvent(c: Cloud, device: string, name: string, payload: Fields, messageId: Option<string>): (Outcome, Cloud) {
    if device !in c.shadows then (NotFound, c)
    else if EventStored(c.events, device, messageId) then (Unchanged, c)
    else (Changed, c.(events := c.events + [EventRow(c.lastEventId + 1, device, name, payload, messageId)],
                      lastEventId := c.lastEventId + 1))
  }

  // --- The table invariant --------------------------------------------------------------

  /** The three version counters agree; an online device has no offline reason and was seen. */
  predicate ShadowOk(s: Shadow) {
    && s.version == s.desiredVersion + s.reportedVersion
    && (IsOnline(s.reported) ==> s.offlineReason.None? && s.lastSeen.Some?)
  }

  /** Event ids rise and are within the counter; a device stores a message id once. */
  predicate EventsOk(events: seq<EventRow>, lastEventId: nat) {
    && (forall i :: 0 <= i < |events| ==> 0 < events[i].id <= lastEventId)
    && (forall i, j :: 0 <= i < j < |events| ==> events[i].id < events[j].id)
    && (forall i, j :: 0 <= i < j < |events| && events[i].device == events[j].device && events[i].messageId.Some? ==>
          events[i].messageId != events[j].messageId)
  }

  ghost predicate TablesOk(c: Cloud) {
    && (forall d :: d in c.shadows ==> ShadowOk(c.shadows[d]))
    && EventsOk(c.events, c.lastEventId)
  }

  lemma EventKeepsOk(c: Cloud, device: string, name: string, payload: Fields, messageId: Option<string>)
    requires EventsOk(c.events, c.lastEventId)
    ensures var c' := RecordEvent(c, device, name, payload, messageId).1; EventsOk(c'.events, c'.lastEventId)
  {}

  lemma SweepKeepsOk(s: Shadow)
    requires ShadowOk(s)
    ensures ShadowOk(Swept(s)) && Swept(s).reported == Merge(s.reported, OFFLINE_PATCH) && !IsOnline(Swept(s).reported)
  {}

  /** A sweep changes exactly the devices that are online and were last seen before the
      cutoff, leaves no such device, and repeated with that cutoff or an earlier one does
      nothing. */
  lemma SweepIsExact(c: Cloud, cutoff: int, earlier: int)
    requires TablesOk(c) && earlier <= cutoff
    ensures var c' := Sweep(c, cutoff);
            && TablesOk(c') && c'.shadows.Keys == c.shadows.Keys
            && (forall d :: d in c.shadows ==>
                  var s, s' := c.shadows[d], c'.shadows[d];
                  if "online" in s.reported && s.reported["online"] == Bool(true) && s.lastSeen.Some? && s.lastSeen.value < cutoff
                  then s' == s.(reported := Merge(s.reported, map["online" := Bool(false)]), offlineReason := Some("cloud_timeout"),
                                reportedVersion := s.reportedVersion + 1, version := s.version + 1)
                  else s' == s)
            && (forall d :: d in c'.shadows ==> !Stale(c'.shadows[d], cutoff))
            && Sweep(c', earlier) == c'
  {
    forall d | d in c.shadows ensures ShadowOk(Swept(c.shadows[d])) {
      SweepKeepsOk(c.shadows[d]);
    }
    var c' := Sweep(c, cutoff);
    forall d | d in c.shadows && Stale(c.shadows[d], cutoff)
      ensures c'.shadows[d].reported == Merge(c.shadows[d].reported, OFFLINE_PATCH)
    {
      SweepKeepsOk(c.shadows[d]);
    }
    assert Sweep(c', earlier).shadows == c'.shadows;
  }
}
