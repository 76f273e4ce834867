/** What each step of the gateway does to the row it concerns, in plain values: which counter
    it moves, what it sends, what the history then shows. */
module MeshLaws {
  import opened Common
  import opened MeshNodes
  import opened MeshRow
  import opened MeshProtocol
  import opened MeshGuarantees

  // --- Events -----------------------------------------------------------------------------

  /** The event starts the armed toggle. */
  predicate Toggles(m: Mesh, i: nat, reply: Reply)
    requires i < |m.rows|
  {
    reply.GetStatus? && m.toggleAddr == m.rows[i].node.unicast
  }

  /** An event that starts no toggle is its row's own handler and nothing else. */
  lemma EventIsHandled(m: Mesh, i: nat, reply: Reply, sendOk: bool, toggleOk: bool)
    requires Inv(m) && Enabled(m, Event(i, reply, sendOk, toggleOk)) && !Toggles(m, i, reply)
    ensures Next(m, Event(i, reply, sendOk, toggleOk)) == m.(rows := m.rows[i := OnReply(m.rows[i], reply, sendOk)])
  {
    ReplyFindsRow(m, i);
  }

  /** The retry counter if an event leaves the command open: a contradicting Get status
      starts it afresh, anything else counts one. */
  function NextRetries(r: Row, reply: Reply): int {
    if reply.GetStatus? then 0 else r.slot.retries + 1
  }

  /** An event on a row in flight. It acknowledges on a status that shows the desired value;
      it gives up on an error, on a failed send, and on a fourth fruitless answer; otherwise
      the command stays and is asked for again, by a Get after a Get timeout and by a Set in
      all other cases. */
  lemma CommandAfterEvent(m: Mesh, i: nat, reply: Reply, sendOk: bool, toggleOk: bool)
    requires Inv(m) && Enabled(m, Event(i, reply, sendOk, toggleOk)) && !Toggles(m, i, reply)
    requires m.rows[i].slot.inFlight
    ensures var r := m.rows[i]; var m' := Next(m, Event(i, reply, sendOk, toggleOk));
            var wanted := r.slot.desired;
            var shown := match reply case GetStatus(p) => p case SetStatus(p) => p case _ => r.node.onoff;
            var acked := reply == GetStatus(wanted) || reply == SetStatus(wanted);
            var lost := !acked && (reply.GetError? || reply.SetError? || !sendOk || (!reply.GetStatus? && r.slot.retries == 3));
            var asked := if reply.GetStatus? then Then(r.log, GetMismatch(shown)) else r.log;
            && |m'.rows| == |m.rows| && m' == m.(rows := m.rows[i := m'.rows[i]])
            && var r' := m'.rows[i];
               && r'.node == r.node.(onoff := shown)
               && r'.getRetries == (if reply.GetStatus? then 0 else r.getRetries)
               && r'.slot == (if acked || lost then Slot(false, 0, 0, "") else r.slot.(retries := NextRetries(r, reply)))
               && r'.log == (if acked then Then(r.log, Acked(wanted, r.slot.messageId))
                             else if lost then Then(asked, Dropped)
                             else Then(asked, if reply.GetTimeout? then GetRequested else SetRequested(wanted)))
               && r'.sets == r.sets - (if OfSet(reply) then 1 else 0) + (if acked || lost || reply.GetTimeout? then 0 else 1)
               && r'.gets == r.gets - (if OfSet(reply) then 0 else 1) + (if !acked && !lost && reply.GetTimeout? then 1 else 0)
  {
    EventIsHandled(m, i, reply, sendOk, toggleOk);
    assert RowInv(m.rows[i]);
  }

  /** An event on a row without a command only shows its value, except that an unanswered Get
      is asked again, three times. */
  lemma IdleRowAfterEvent(m: Mesh, i: nat, reply: Reply, sendOk: bool, toggleOk: bool)
    requires Inv(m) && Enabled(m, Event(i, reply, sendOk, toggleOk)) && !Toggles(m, i, reply)
    requires !m.rows[i].slot.inFlight
    ensures var r := m.rows[i]; var m' := Next(m, Event(i, reply, sendOk, toggleOk));
            var shown := match reply case GetStatus(p) => p case SetStatus(p) => p case _ => r.node.onoff;
            var again := reply.GetTimeout? && r.getRetries < 3;
            && |m'.rows| == |m.rows| && m' == m.(rows := m.rows[i := m'.rows[i]])
            && var r' := m'.rows[i];
               && r'.node == r.node.(onoff := shown) && r'.slot == r.slot
               && r'.getRetries == (if again then r.getRetries + 1
                                    else if reply.GetStatus? || reply.GetTimeout? then 0 else r.getRetries)
               && r'.log == (if again && sendOk then Then(r.log, GetRequested) else r.log)
               && r'.sets == r.sets - (if OfSet(reply) then 1 else 0)
               && r'.gets == r.gets - (if OfSet(reply) then 0 else 1) + (if again && sendOk then 1 else 0)
  {
    EventIsHandled(m, i, reply, sendOk, toggleOk);
    assert RowInv(m.rows[i]);
  }

  // --- Polls --------------------------------------------------------------------------------

  lemma PollAsks(m: Mesh, i: nat, sendOk: bool)
    requires Enabled(m, Poll(i, sendOk))
    ensures Next(m, Poll(i, sendOk)) == m.(rows := m.rows[i :=
              if sendOk then m.rows[i].(getRetries := 0, gets := m.rows[i].gets + 1, log := Then(m.rows[i].log, GetRequested))
              else m.rows[i].(getRetries := 0)])
  {}

  function PollThenTimeouts(i: nat, n: nat): (steps: seq<Step>)
    ensures |steps| == n + 1
  {
    if n == 0 then [Poll(i, true)] else PollThenTimeouts(i, n - 1) + [Event(i, GetTimeout, true, true)]
  }

  /** `n` Get requests, one after another. */
  function Gets(h: History, n: nat): History { if n == 0 then h else Then(Gets(h, n - 1), GetRequested) }

  /** Row `i` after a poll and `n` unanswered Gets, everything else as in `m0`. */
  ghost predicate Unheard(m0: Mesh, m: Mesh, i: nat, n: nat) {
    && i < |m0.rows| && n <= 4
    && var r := m0.rows[i];
       m == m0.(rows := m0.rows[i := if n < 4 then r.(getRetries := n, gets := 1, log := Gets(r.log, n + 1))
                                     else r.(getRetries := 0, log := Gets(r.log, 4))])
  }

  lemma OneMoreTimeout(m0: Mesh, m: Mesh, i: nat, n: nat)
    requires Inv(m) && n < 4 && Unheard(m0, m, i, n) && Assigned(m0.rows[i].node) && Quiet(m0.rows[i])
    ensures Enabled(m, Event(i, GetTimeout, true, true)) && Unheard(m0, Next(m, Event(i, GetTimeout, true, true)), i, n + 1)
  {
    EventIsHandled(m, i, GetTimeout, true, true);
  }

  /** As a run: polling a quiet row and hearing nothing sends four Gets in all, one for each
      timeout but the fourth, after which the row is quiet and ready for the next poll. */
  lemma {:induction false} PollRun(m: Mesh, i: nat, n: nat)
    requires Inv(m) && i < |m.rows| && Assigned(m.rows[i].node) && Quiet(m.rows[i]) && n <= 4
    ensures Runnable(m, PollThenTimeouts(i, n)) && Unheard(m, Run(m, PollThenTimeouts(i, n)), i, n)
  {
    if n == 0 {
      PollAsks(m, i, true);
      assert Run(m, [Poll(i, true)]) == Next(m, Poll(i, true));
    } else {
      var steps := PollThenTimeouts(i, n - 1);
      PollRun(m, i, n - 1);
      RunKeepsInv(m, steps);
      OneMoreTimeout(m, Run(m, steps), i, n - 1);
      RunThen(m, steps, Event(i, GetTimeout, true, true));
    }
  }

  // --- Commands -------------------------------------------------------------------------------

  /** An accepted command occupies the slot with its own value, one for on and zero for off;
      a directed one sends a Set of that value, a group one is broadcast with it. */
  lemma CommandAsksForItsValue(m: Mesh, deviceId: string, on: bool, id: string, taskOk: bool, sendOk: bool, i: nat)
    requires Inv(m) && i < |m.rows| && !m.rows[i].slot.inFlight
    requires BridgeCommand(m, deviceId, on, id, taskOk, sendOk).1.rows[i].slot.inFlight
    ensures var m' := BridgeCommand(m, deviceId, on, id, taskOk, sendOk).1;
            var value := if on then 1 else 0; var accepted := Then(m.rows[i].log, Accepted(value, Truncated(id)));
            && m'.rows[i].slot == Slot(true, value, 0, Truncated(id))
            && (deviceId == "*" ==> m'.rows[i].log == accepted && m'.broadcasts == m.broadcasts + [value])
            && (deviceId != "*" ==> m'.rows[i].log == Then(accepted, SetRequested(value)) && m'.broadcasts == m.broadcasts)
  {
    if deviceId == "*" {
      GroupAllOrNothing(m, on, id, taskOk, sendOk);
    } else {
      BridgeCommandIsExact(m, deviceId, on, id, taskOk, sendOk);
      CommandKeepsRow(m.rows[i], on, id, sendOk);
    }
  }

  /** And it is acknowledged on a status of that value and on no other event. */
  lemma CommandAckedOnItsValue(m: Mesh, deviceId: string, on: bool, id: string, taskOk: bool, setOk: bool, i: nat,
                               reply: Reply, sendOk: bool, toggleOk: bool)
    requires Inv(m) && i < |m.rows| && !m.rows[i].slot.inFlight
    requires BridgeCommand(m, deviceId, on, id, taskOk, setOk).1.rows[i].slot.inFlight
    requires var m' := BridgeCommand(m, deviceId, on, id, taskOk, setOk).1;
             Enabled(m', Event(i, reply, sendOk, toggleOk)) && !Toggles(m', i, reply)
    ensures var m' := BridgeCommand(m, deviceId, on, id, taskOk, setOk).1;
            var m'' := Next(m', Event(i, reply, sendOk, toggleOk)); var value := if on then 1 else 0;
            && i < |m''.rows|
            && (m''.rows[i].log == Then(m'.rows[i].log, Acked(value, Truncated(id))) <==>
                  reply == GetStatus(value) || reply == SetStatus(value))
  {
    var m' := BridgeCommand(m, deviceId, on, id, taskOk, setOk).1;
    CommandAsksForItsValue(m, deviceId, on, id, taskOk, setOk, i);
    StepKeepsInv(m, Bridge(deviceId, on, id, taskOk, setOk));
    CommandAfterEvent(m', i, reply, sendOk, toggleOk);
  }

  // --- Sync visits ----------------------------------------------------------------------------

  /** A sync task asks a row in flight for its state, or gives its command up if it cannot,
      and moves on by one row. */
  lemma VisitAsks(m: Mesh, t: nat, sendOk: bool)
    requires Inv(m) && Enabled(m, Visit(t, sendOk))
    ensures var i := m.syncs[t]; var r := m.rows[i];
            Next(m, Visit(t, sendOk)) == m.(syncs := m.syncs[t := i + 1], rows := m.rows[i :=
              if !r.slot.inFlight then r
              else if sendOk then r.(gets := r.gets + 1, log := Then(r.log, GetRequested))
              else r.(slot := Slot(false, 0, 0, ""), log := Then(r.log, Dropped))])
  {
    assert RowInv(m.rows[m.syncs[t]]);
  }

  // --- Provisioning -----------------------------------------------------------------------------

  /** Provisioning gives the device its range in the owner map, unless the address is not
      unicast or a new device meets a full table, and records its light as off. Nothing else
      of the gateway changes. */
  lemma ProvisionRefinesMap(m: Mesh, uuid: Uuid, unicast: nat, elemNum: byte)
    requires Inv(m) && Enabled(m, Provisioned(uuid, unicast, elemNum))
    ensures var m' := Next(m, Provisioned(uuid, unicast, elemNum));
            var taken := 0 < unicast < 0x8000 &&
                         (uuid in Owners(Nodes(m)) || exists k :: 0 <= k < |m.rows| && m.rows[k].node.unicast == 0);
            && Owners(Nodes(m')) == (if taken then Owners(Nodes(m))[uuid := (unicast, elemNum)] else Owners(Nodes(m)))
            && |m'.rows| == |m.rows|
            && (forall i :: 0 <= i < |m.rows| ==> m'.rows[i].(node := m.rows[i].node) == m.rows[i])
            && (!taken ==> m' == m)
            && (taken ==> exists i :: 0 <= i < |m.rows| && m' == m.(rows := m.rows[i := m'.rows[i]])
                                      && m'.rows[i].node == Node(uuid, unicast, elemNum, 0))
  {
    var ns := Nodes(m);
    var m' := Next(m, Provisioned(uuid, unicast, elemNum));
    StoreRefinesMap(ns, uuid, unicast, elemNum, 0);
    var (res, after) := Store(ns, uuid, unicast, elemNum, 0);
    assert Nodes(m') == after;
    forall k | 0 <= k < |ns| ensures Assigned(ns[k]) <==> m.rows[k].node.unicast != 0 { assert RowOk(ns[k]); }
    if res == Stored {
      var i := StoreRow(ns, uuid);
      assert m'.rows == m.rows[i := m'.rows[i]];
    } else {
      assert m'.rows == m.rows;
    }
  }

  /** Lookup is reading the owner map: it answers a row of the one device whose range holds
      the address. */
  lemma LookupReadsTheMap(nodes: seq<Node>, addr: nat, uuid: Uuid)
    requires TableOk(nodes)
    ensures (Lookup(nodes, addr).Some? && nodes[Lookup(nodes, addr).value].uuid == uuid) <==>
            0 < addr < 0x8000 && uuid in Owners(nodes)
            && Owners(nodes)[uuid].0 <= addr < Owners(nodes)[uuid].0 + Owners(nodes)[uuid].1
  {
    LookupFindsOwner(nodes, addr);
    OwnersIsTable(nodes, uuid);
  }

  // --- Device identifiers -------------------------------------------------------------------------

  predicate IsHexDigit(c: char) { '0' <= c <= '9' || 'A' <= c <= 'F' }

  function HexValue(c: char): int
    requires IsHexDigit(c)
  {
    if c <= '9' then c as int - '0' as int else c as int - 'A' as int + 10
  }

  /** The id reads back as bytes 5, 6 and 7 of the UUID, in upper-case hexadecimal. */
  lemma DeviceIdShowsBytes(uuid: Uuid)
    ensures var id := DeviceId(uuid);
            && |id| == 11 && id[..5] == "node-" && (forall k :: 5 <= k < 11 ==> IsHexDigit(id[k]))
            && 16 * HexValue(id[5]) + HexValue(id[6]) == uuid[5]
            && 16 * HexValue(id[7]) + HexValue(id[8]) == uuid[6]
            && 16 * HexValue(id[9]) + HexValue(id[10]) == uuid[7]
  {
    HexReadsBack(uuid[5]);
    HexReadsBack(uuid[6]);
    HexReadsBack(uuid[7]);
  }

  lemma HexReadsBack(b: byte)
    ensures var h := Hex(b);
            |h| == 2 && IsHexDigit(h[0]) && IsHexDigit(h[1]) && 16 * HexValue(h[0]) + HexValue(h[1]) == b
  {
    DigitReadsBack(b / 16);
    DigitReadsBack(b % 16);
  }

  lemma DigitReadsBack(d: nat)
    requires d < 16
    ensures IsHexDigit(HexDigit(d)) && HexValue(HexDigit(d)) == d
  {}
}
