/** How the gateway reads a device id off an MQTT command topic, against the topics the cloud
    publishes to. */
module GatewayTopics {
  import opened Common
  import MeshNodes
  import opened MeshRow
  import opened MeshProtocol

  const DEVICE_ID_SIZE := 32

  const ALL_LIGHTS := "office/light/all/cmd"
  const NORMALIZED_PREFIX := "farmely/light/"
  const NORMALIZED_SUFFIX := "/down/cmd"
  const LEGACY_PREFIX := "office/light/node/"
  const LEGACY_SUFFIX := "/cmd"

  function GatewayTopic(gatewayId: string): string { "farmely/gateway/" + gatewayId + "/down/cmd" }

  /** The two topics on which the cloud commands a light. */
  function NormalizedTopic(deviceId: string): string { NORMALIZED_PREFIX + deviceId + NORMALIZED_SUFFIX }

  function LegacyTopic(deviceId: string): string { LEGACY_PREFIX + deviceId + LEGACY_SUFFIX }

  predicate EndsWith(s: string, suffix: string) { |suffix| <= |s| && s[|s| - |suffix|..] == suffix }

  /** What lies between a prefix and a suffix, if it is not empty and fits the buffer. */
  function Between(topic: string, prefix: string, suffix: string): Option<string>
    requires prefix <= topic
  {
    if |topic| <= |prefix| + |suffix| || !EndsWith(topic, suffix) then None
    else
      var id := topic[|prefix|..|topic| - |suffix|];
      if |id| >= DEVICE_ID_SIZE then None else Some(id)
  }

  function TopicDeviceId(topic: string, gatewayId: string): Option<string> {
    if topic == ALL_LIGHTS || topic == GatewayTopic(gatewayId) then Some("*")
    else if NORMALIZED_PREFIX <= topic then Between(topic, NORMALIZED_PREFIX, NORMALIZED_SUFFIX)
    else if LEGACY_PREFIX <= topic then Between(topic, LEGACY_PREFIX, LEGACY_SUFFIX)
    else None
  }

  lemma BetweenIsMiddle(topic: string, prefix: string, suffix: string, id: string)
    requires prefix <= topic
    ensures Between(topic, prefix, suffix) == Some(id) <==>
            topic == prefix + id + suffix && 0 < |id| < DEVICE_ID_SIZE
  {}

  /** A topic yields a device id exactly when it is one of the two group topics, or a
      normalised or legacy topic made from that id. The id "*" of a crafted light topic is
      the one case where a directed topic commands the whole group. */
  lemma TopicIsExact(topic: string, gatewayId: string, id: string)
    ensures TopicDeviceId(topic, gatewayId) == Some(id) <==>
            (id == "*" && (topic == "office/light/all/cmd" || topic == "farmely/gateway/" + gatewayId + "/down/cmd"))
            || (0 < |id| < 32 && (topic == "farmely/light/" + id + "/down/cmd" || topic == "office/light/node/" + id + "/cmd"))
  {
    DistinctHeads(topic, gatewayId, id);
    if NORMALIZED_PREFIX <= topic { BetweenIsMiddle(topic, NORMALIZED_PREFIX, NORMALIZED_SUFFIX, id); }
    if LEGACY_PREFIX <= topic { BetweenIsMiddle(topic, LEGACY_PREFIX, LEGACY_SUFFIX, id); }
  }

  /** The four topic shapes start differently, so none can be mistaken for another. */
  lemma DistinctHeads(topic: string, gatewayId: string, id: string)
    ensures NormalizedTopic(id)[8] == 'l' && LegacyTopic(id)[13] == 'n'
    ensures ALL_LIGHTS[13] == 'a' && GatewayTopic(gatewayId)[8] == 'g'
    ensures NormalizedTopic(id)[0] == GatewayTopic(gatewayId)[0] == 'f'
    ensures LegacyTopic(id)[0] == ALL_LIGHTS[0] == 'o'
    ensures NORMALIZED_PREFIX <= topic ==> |topic| > 8 && topic[0] == 'f' && topic[8] == 'l'
    ensures LEGACY_PREFIX <= topic ==> |topic| > 13 && topic[0] == 'o' && topic[13] == 'n'
    ensures NORMALIZED_PREFIX <= NormalizedTopic(id) && LEGACY_PREFIX <= LegacyTopic(id)
  {}

  /** The cloud sends a command on both topics of a light. Both name the same device, and if
      the first copy starts a command, the second is refused and changes nothing. */
  lemma SecondCopyIsRefused(m: Mesh, gatewayId: string, id: string, on: bool, m1: string, m2: string,
                            taskOk: bool, sendOk: bool, taskOk': bool, sendOk': bool)
    requires 0 < |id| < DEVICE_ID_SIZE
    ensures TopicDeviceId(NormalizedTopic(id), gatewayId) == Some(id) == TopicDeviceId(LegacyTopic(id), gatewayId)
    ensures var (first, after) := BridgeCommand(m, id, on, m1, taskOk, sendOk);
            first == Ok ==> BridgeCommand(after, id, on, m2, taskOk', sendOk') == (InvalidState, after)
  {
    TopicIsExact(NormalizedTopic(id), gatewayId, id);
    TopicIsExact(LegacyTopic(id), gatewayId, id);
    if id == "*" {
      SecondGroupRefused(m, on, m1, m2, taskOk, sendOk, taskOk', sendOk');
    } else {
      if FindDevice(m.rows, id) < |m.rows| { SecondDirectedRefused(m, id, on, m1, m2, sendOk, sendOk'); }
    }
  }

  lemma SecondGroupRefused(m: Mesh, on: bool, m1: string, m2: string, taskOk: bool, sendOk: bool, taskOk': bool, sendOk': bool)
    ensures var (first, after) := GroupCommand(m, on, m1, taskOk, sendOk);
            first == Ok ==> GroupCommand(after, on, m2, taskOk', sendOk') == (InvalidState, after)
  {
    var (first, after) := GroupCommand(m, on, m1, taskOk, sendOk);
    if first == Ok {
      var i :| 0 <= i < |m.rows| && MeshNodes.Assigned(m.rows[i].node);
      assert MeshNodes.Assigned(after.rows[i].node) && after.rows[i].slot.inFlight;
    }
  }

  lemma SecondDirectedRefused(m: Mesh, id: string, on: bool, m1: string, m2: string, sendOk: bool, sendOk': bool)
    requires FindDevice(m.rows, id) < |m.rows|
    ensures var i := FindDevice(m.rows, id); var (first, after) := CommandRow(m, i, on, m1, sendOk);
            && FindDevice(after.rows, id) == i
            && (first == Ok ==> CommandRow(after, i, on, m2, sendOk') == (InvalidState, after))
  {
    var i := FindDevice(m.rows, id);
    var (first, after) := CommandRow(m, i, on, m1, sendOk);
    assert forall k :: 0 <= k < |m.rows| ==> after.rows[k].node == m.rows[k].node;
    assert Answers(after.rows[i], id);
    assert after.rows[i := after.rows[i]] == after.rows;
  }
}
