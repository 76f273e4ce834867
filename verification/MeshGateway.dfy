/** The gateway's mutable tables and the handlers that update them in place. `View` is the
    transition-system state the tables stand for; every handler performs one of its steps. */
module MeshGateway {
  import opened Common
  import opened MeshNodes
  import opened MeshRow
  import opened MeshProtocol

  ghost function Rows(nodes: seq<Node>, pending: seq<Slot>, getRetries: seq<byte>,
                      sets: seq<nat>, gets: seq<nat>, logs: seq<History>): (r: seq<Row>)
    requires |nodes| == |pending| == |getRetries| == |sets| == |gets| == |logs|
    ensures |r| == |nodes|
  {
    seq(|nodes|, i requires 0 <= i < |nodes| =>
      Row(nodes[i], pending[i], getRetries[i], sets[i], gets[i], logs[i]))
  }

  ghost function Put(m: Mesh, i: nat, r: Row): Mesh
    requires i < |m.rows|
  {
    m.(rows := m.rows[i := r])
  }

  class Gateway {
    const nodes: array<Node>
    const pending: array<Slot>
    const getRetries: array<byte>
    var toggleAddr: nat
    /** The next row of each group-sync task. */
    var syncs: seq<nat>
    /** The stack's outstanding requests, and what happened so far, per row. */
    ghost var sets: seq<nat>
    ghost var gets: seq<nat>
    ghost var logs: seq<History>
    /** The values of the group Sets sent. */
    ghost var broadcasts: seq<byte>

    ghost predicate Valid()
      reads this
    {
      && nodes as object != pending && nodes as object != getRetries && pending as object != getRetries
      && nodes.Length == pending.Length == getRetries.Length == |sets| == |gets| == |logs|
    }

    ghost function View(): (m: Mesh)
      requires Valid()
      reads this, nodes, pending, getRetries
      ensures |m.rows| == nodes.Length
    {
      Mesh(Rows(nodes[..], pending[..], getRetries[..], sets, gets, logs), syncs, toggleAddr, broadcasts)
    }

    constructor (stored: seq<Node>)
      ensures Valid() && fresh(nodes) && fresh(pending) && fresh(getRetries)
      ensures View() == Boot(stored)
    {
      var n := |stored|;
      nodes := new Node[n](i requires 0 <= i < n => stored[i]);
      pending := new Slot[n](_ => IDLE);
      getRetries := new byte[n](_ => 0);
      toggleAddr, syncs, broadcasts := UNASSIGNED, [], [];
      sets, gets, logs := seq(n, _ => 0), seq(n, _ => 0), seq(n, _ => Start);
      new;
      assert nodes[..] == stored;
      assert View().rows == Boot(stored).rows;
    }

    lemma ViewNodes()
      requires Valid()
      ensures Nodes(View()) == nodes[..]
    {}

    // --- The node table ------------------------------------------------------------------

    method StoreNodeInfo(uuid: Uuid, unicast: nat, elemNum: byte, onoff: byte) returns (res: StoreResult)
      requires Valid()
      modifies nodes
      ensures (res, nodes[..]) == Store(old(nodes[..]), uuid, unicast, elemNum, onoff)
    {
      if !IsUnicast(unicast) {
        return InvalidArg;
      }
      var i := 0;
      while i < nodes.Length
        invariant 0 <= i <= nodes.Length
        invariant forall k :: 0 <= k < i ==> nodes[k].uuid != uuid
        invariant nodes[..] == old(nodes[..])
      {
        if nodes[i].uuid == uuid {
          nodes[i] := Node(uuid, unicast, elemNum, onoff);
          return Stored;
        }
        i := i + 1;
      }
      i := 0;
      while i < nodes.Length
        invariant 0 <= i <= nodes.Length
        invariant forall k :: 0 <= k < i ==> nodes[k].unicast != UNASSIGNED
        invariant nodes[..] == old(nodes[..])
      {
        if nodes[i].unicast == UNASSIGNED {
          nodes[i] := Node(uuid, unicast, elemNum, onoff);
          return Stored;
        }
        i := i + 1;
      }
      return TableFull;
    }

    method GetNodeInfo(unicast: nat) returns (row: Option<nat>)
      requires Valid()
      ensures row == Lookup(nodes[..], unicast)
    {
      if !IsUnicast(unicast) {
        return None;
      }
      var i := 0;
      while i < nodes.Length
        invariant 0 <= i <= nodes.Length
        invariant Lookup(nodes[..], unicast) == Lookup(nodes[..], unicast, i)
      {
        if Covers(nodes[i], unicast) {
          return Some(i);
        }
        i := i + 1;
      }
      return None;
    }

    /** A provisioned device gets its row with its light recorded as off. */
    method ProvisionNode(uuid: Uuid, unicast: nat, elemNum: byte) returns (res: StoreResult)
      requires Valid()
      modifies nodes
      ensures View() == Provision(old(View()), uuid, unicast, elemNum)
      ensures res == Store(old(nodes[..]), uuid, unicast, elemNum, 0).0
    {
      ViewNodes();
      res := StoreNodeInfo(uuid, unicast, elemNum, 0);
      assert View().rows == Provision(old(View()), uuid, unicast, elemNum).rows;
    }

    // --- Slots and requests ------------------------------------------------------------------

    ghost method Note(i: nat, e: Entry)
      requires Valid() && i < |logs|
      modifies this`logs
      ensures Valid() && logs == old(logs)[i := Then(old(logs)[i], e)]
    {
      logs := logs[i := Then(logs[i], e)];
    }

    method ClearPending(i: nat)
      requires Valid() && i < pending.Length
      modifies pending
      ensures pending[..] == old(pending[..])[i := IDLE]
    {
      pending[i] := IDLE;
    }

    method ClearAllPending()
      requires Valid()
      modifies pending
      ensures forall k :: 0 <= k < pending.Length ==> pending[k] == IDLE
    {
      var i := 0;
      while i < pending.Length
        invariant 0 <= i <= pending.Length
        invariant forall k :: 0 <= k < i ==> pending[k] == IDLE
      {
        ClearPending(i);
        i := i + 1;
      }
    }

    /** Ends the row's command without an acknowledgement. */
    method Drop(i: nat)
      requires Valid() && i < pending.Length
      modifies pending, this`logs
      ensures Valid() && View() == Put(old(View()), i, MeshRow.ClearPending(old(View()).rows[i]))
    {
      if pending[i].inFlight { Note(i, Dropped); }
      ClearPending(i);
      assert View().rows == Put(old(View()), i, MeshRow.ClearPending(old(View()).rows[i])).rows;
    }

    /** An acknowledged Set for the slot's value; `ok` is the stack's answer to the send. */
    method SendOnoffRequest(i: nat, ok: bool)
      requires Valid() && i < pending.Length
      modifies this`sets, this`logs
      ensures Valid() && View() == Put(old(View()), i, MeshRow.SendSet(old(View()).rows[i], ok))
    {
      if ok {
        sets := sets[i := sets[i] + 1];
        Note(i, SetRequested(pending[i].desired));
      }
      assert View().rows == Put(old(View()), i, MeshRow.SendSet(old(View()).rows[i], ok)).rows;
    }

    method SendGet(i: nat, ok: bool)
      requires Valid() && i < pending.Length
      modifies this`gets, this`logs
      ensures Valid() && View() == Put(old(View()), i, MeshRow.SendGet(old(View()).rows[i], ok))
    {
      if ok {
        gets := gets[i := gets[i] + 1];
        Note(i, GetRequested);
      }
      assert View().rows == Put(old(View()), i, MeshRow.SendGet(old(View()).rows[i], ok)).rows;
    }

    method StartGet(i: nat, ok: bool)
      requires Valid() && i < pending.Length
      modifies getRetries, this`gets, this`logs
      ensures Valid() && View() == Put(old(View()), i, MeshRow.StartGet(old(View()).rows[i], ok))
    {
      getRetries[i] := 0;
      ghost var mid := View();
      assert mid.rows == old(View()).rows[i := old(View()).rows[i].(getRetries := 0)];
      SendGet(i, ok);
    }

    /** A command for one node, refused while another is in flight. */
    method SendOnoff(i: nat, on: bool, messageId: string, sendOk: bool) returns (res: CommandResult)
      requires Valid() && i < pending.Length
      modifies pending, this`sets, this`logs
      ensures Valid() && (res, View()) == CommandRow(old(View()), i, on, messageId, sendOk)
    {
      if pending[i].inFlight {
        assert View().rows == old(View()).rows[i := old(View()).rows[i]];
        return InvalidState;
      }
      ghost var before := logs;
      pending[i] := Occupy(pending[i], on, messageId);
      Note(i, Accepted(Bit(on), Truncated(messageId)));
      assert View().rows == old(View()).rows[i := Accept(old(View()).rows[i], on, messageId)];
      SendOnoffRequest(i, sendOk);
      ghost var sent := View().rows;
      if !sendOk {
        ClearPending(i);
        logs := before;
        forall k | 0 <= k < nodes.Length && k != i ensures View().rows[k] == old(View()).rows[k] {
          assert sent[k] == old(View()).rows[k];
        }
        assert sent[i].sets == old(View()).rows[i].sets;
        assert View().rows == old(View()).rows[i := old(View()).rows[i].(slot := IDLE)];
        return SendFailed;
      }
      assert View().rows == old(View()).rows[i := MeshRow.SendSet(Accept(old(View()).rows[i], on, messageId), true)];
      return Ok;
    }

    /** A command for every provisioned node: refused if any of them is busy, undone if the
        sync task or the group Set cannot be started. */
    method SendGroupOnoff(on: bool, messageId: string, taskOk: bool, sendOk: bool) returns (res: CommandResult)
      requires Valid()
      modifies pending, this`syncs, this`logs, this`broadcasts
      ensures Valid() && (res, View()) == GroupCommand(old(View()), on, messageId, taskOk, sendOk)
    {
      ghost var rows := View().rows;
      var nodeCount := 0;
      var i := 0;
      while i < nodes.Length
        invariant 0 <= i <= nodes.Length
        invariant forall k :: 0 <= k < i && Assigned(rows[k].node) ==> !rows[k].slot.inFlight
        invariant nodeCount > 0 <==> exists k :: 0 <= k < i && Assigned(rows[k].node)
        invariant nodeCount >= 0
      {
        if Assigned(nodes[i]) {
          if pending[i].inFlight {
            assert Assigned(rows[i].node) && rows[i].slot.inFlight;
            return InvalidState;
          }
          assert Assigned(rows[i].node);
          nodeCount := nodeCount + 1;
        }
        i := i + 1;
      }
      if nodeCount == 0 {
        return NotFound;
      }
      OccupyAll(on, messageId);
      if !taskOk {
        ClearAllPending();
        logs := old(logs);
        assert View().rows == EmptySlots(rows);
        return NoMemory;
      }
      syncs := syncs + [0];
      if !sendOk {
        ClearAllPending();
        logs := old(logs);
        assert View().rows == EmptySlots(rows);
        return SendFailed;
      }
      broadcasts := broadcasts + [Bit(on)];
      return Ok;
    }

    method OccupyAll(on: bool, messageId: string)
      requires Valid()
      modifies pending, this`logs
      ensures Valid() && View() == old(View()).(rows := AcceptAll(old(View()).rows, on, messageId))
    {
      ghost var rows := View().rows;
      var i := 0;
      while i < nodes.Length
        invariant 0 <= i <= nodes.Length && Valid()
        invariant forall k :: 0 <= k < nodes.Length ==>
                    View().rows[k] == if k < i && Assigned(rows[k].node) then Accept(rows[k], on, messageId) else rows[k]
        invariant syncs == old(syncs) && toggleAddr == old(toggleAddr)
      {
        assert View().rows[i] == rows[i];
        if Assigned(nodes[i]) {
          pending[i] := Occupy(pending[i], on, messageId);
          Note(i, Accepted(Bit(on), Truncated(messageId)));
        }
        i := i + 1;
      }
      assert View().rows == AcceptAll(rows, on, messageId);
    }

    /** One iteration of a group-sync task: ask a node that still has a command in flight. */
    method GroupSyncIteration(task: nat, sendOk: bool)
      requires Valid() && task < |syncs| && syncs[task] < nodes.Length
      modifies pending, this`syncs, this`gets, this`logs
      ensures Valid() && View() == SyncVisit(old(View()), task, sendOk)
    {
      var i := syncs[task];
      syncs := syncs[task := i + 1];
      if !pending[i].inFlight || !Assigned(nodes[i]) {
        assert View().rows == old(View()).rows;
        return;
      }
      SendGet(i, sendOk);
      if !sendOk {
        Drop(i);
      }
      assert View().rows == SyncVisit(old(View()), task, sendOk).rows;
    }

    method FindNode(deviceId: string) returns (i: nat)
      requires Valid()
      ensures i == FindDevice(View().rows, deviceId)
    {
      i := 0;
      while i < nodes.Length
        invariant 0 <= i <= nodes.Length
        invariant FindDevice(View().rows, deviceId) == FindDevice(View().rows, deviceId, i)
      {
        if Assigned(nodes[i]) {
          var currentId := DeviceId(nodes[i].uuid);
          if deviceId == currentId {
            return;
          }
        }
        i := i + 1;
      }
    }

    method HandleBridgeCommand(deviceId: string, on: bool, messageId: string, taskOk: bool, sendOk: bool)
      returns (res: CommandResult)
      requires Valid()
      modifies pending, this`syncs, this`sets, this`logs, this`broadcasts
      ensures Valid() && (res, View()) == BridgeCommand(old(View()), deviceId, on, messageId, taskOk, sendOk)
    {
      if deviceId == "*" {
        res := SendGroupOnoff(on, messageId, taskOk, sendOk);
      } else {
        var i := FindNode(deviceId);
        if i < nodes.Length {
          res := SendOnoff(i, on, messageId, sendOk);
        } else {
          res := NotFound;
        }
      }
    }

    // --- Events of the mesh stack --------------------------------------------------------------

    ghost method Take(i: nat, reply: Reply)
      requires Valid() && i < nodes.Length
      modifies this`sets, this`gets
      ensures Valid() && View() == Put(old(View()), i, Taken(old(View()).rows[i], reply))
    {
      if OfSet(reply) {
        sets := sets[i := Less1(sets[i])];
      } else {
        gets := gets[i := Less1(gets[i])];
      }
      assert View().rows == Put(old(View()), i, Taken(old(View()).rows[i], reply)).rows;
    }

    method Acknowledge(i: nat)
      requires Valid() && i < nodes.Length
      modifies pending, this`logs
      ensures Valid() && View() == Put(old(View()), i, MeshRow.Acknowledge(old(View()).rows[i]))
    {
      Note(i, Acked(nodes[i].onoff, pending[i].messageId));
      ClearPending(i);
      assert View().rows == Put(old(View()), i, MeshRow.Acknowledge(old(View()).rows[i])).rows;
    }

    method Resend(i: nat, ok: bool)
      requires Valid() && i < nodes.Length
      modifies pending, this`sets, this`logs
      ensures Valid() && View() == Put(old(View()), i, SendSetOrClear(old(View()).rows[i], ok))
    {
      SendOnoffRequest(i, ok);
      if !ok {
        Drop(i);
      }
      assert View().rows == Put(old(View()), i, SendSetOrClear(old(View()).rows[i], ok)).rows;
    }

    method SetRetries(i: nat, retries: byte)
      requires Valid() && i < nodes.Length
      modifies pending
      ensures Valid() && View() == Put(old(View()), i, old(View()).rows[i].(slot := old(pending[i]).(retries := retries)))
    {
      pending[i] := pending[i].(retries := retries);
      assert View().rows
          == Put(old(View()), i, old(View()).rows[i].(slot := old(pending[i]).(retries := retries))).rows;
    }

    method SetOnoff(i: nat, present: byte)
      requires Valid() && i < nodes.Length
      modifies nodes
      ensures Valid() && View() == Put(old(View()), i, old(View()).rows[i].(node := old(nodes[i]).(onoff := present)))
    {
      nodes[i] := nodes[i].(onoff := present);
      assert View().rows == Put(old(View()), i, old(View()).rows[i].(node := old(nodes[i]).(onoff := present))).rows;
    }

    method OnGetStatus(i: nat, present: byte, sendOk: bool)
      requires Valid() && i < nodes.Length
      modifies nodes, pending, getRetries, this`sets, this`logs
      ensures Valid() && View() == Put(old(View()), i, MeshRow.OnGetStatus(old(View()).rows[i], present, sendOk))
    {
      ghost var r := View().rows[i];
      getRetries[i] := 0;
      assert View().rows == old(View()).rows[i := r.(getRetries := 0)];
      SetOnoff(i, present);
      assert View().rows == old(View()).rows[i := r.(node := r.node.(onoff := present), getRetries := 0)];
      if pending[i].inFlight {
        if pending[i].desired == nodes[i].onoff {
          Acknowledge(i);
        } else {
          ghost var seen := View().rows;
          Note(i, GetMismatch(present));
          assert View().rows == seen[i := seen[i].(log := Then(seen[i].log, GetMismatch(present)))];
          SetRetries(i, 0);
          Resend(i, sendOk);
        }
      }
      assert View().rows == Put(old(View()), i, MeshRow.OnGetStatus(r, present, sendOk)).rows;
    }

    method OnSetStatus(i: nat, present: byte, sendOk: bool)
      requires Valid() && i < nodes.Length
      modifies nodes, pending, this`sets, this`logs
      ensures Valid() && View() == Put(old(View()), i, MeshRow.OnSetStatus(old(View()).rows[i], present, sendOk))
    {
      SetOnoff(i, present);
      if pending[i].inFlight {
        if pending[i].desired == nodes[i].onoff {
          Acknowledge(i);
        } else if pending[i].retries >= MAX_RETRIES {
          Drop(i);
        } else {
          SetRetries(i, pending[i].retries + 1);
          Resend(i, sendOk);
        }
      }
      assert View().rows == Put(old(View()), i, MeshRow.OnSetStatus(old(View()).rows[i], present, sendOk)).rows;
    }

    method OnGetTimeout(i: nat, sendOk: bool)
      requires Valid() && i < nodes.Length
      modifies pending, getRetries, this`gets, this`logs
      ensures Valid() && View() == Put(old(View()), i, MeshRow.OnGetTimeout(old(View()).rows[i], sendOk))
    {
      ghost var r := View().rows[i];
      if pending[i].inFlight {
        if pending[i].retries >= MAX_RETRIES {
          Drop(i);
          return;
        }
        SetRetries(i, pending[i].retries + 1);
      } else {
        if getRetries[i] >= MAX_RETRIES {
          getRetries[i] := 0;
          assert View().rows == old(View()).rows[i := r.(getRetries := 0)];
          return;
        }
        getRetries[i] := getRetries[i] + 1;
        assert View().rows == old(View()).rows[i := r.(getRetries := r.getRetries + 1)];
      }
      SendGet(i, sendOk);
      if !sendOk && pending[i].inFlight {
        Drop(i);
      }
      assert View().rows == Put(old(View()), i, MeshRow.OnGetTimeout(r, sendOk)).rows;
    }

    method OnSetTimeout(i: nat, sendOk: bool)
      requires Valid() && i < nodes.Length
      modifies pending, this`sets, this`logs
      ensures Valid() && View() == Put(old(View()), i, MeshRow.OnSetTimeout(old(View()).rows[i], sendOk))
    {
      if !pending[i].inFlight {
        assert View().rows == old(View()).rows[i := old(View()).rows[i]];
        return;
      }
      if pending[i].retries >= MAX_RETRIES {
        Drop(i);
        return;
      }
      SetRetries(i, pending[i].retries + 1);
      Resend(i, sendOk);
      assert View().rows == Put(old(View()), i, MeshRow.OnSetTimeout(old(View()).rows[i], sendOk)).rows;
    }

    /** The client callback: find the row by address, then act on the kind of event. */
    method GenericClientEvent(addr: nat, reply: Reply, sendOk: bool, toggleOk: bool)
      requires Valid()
      modifies this, nodes, pending, getRetries
      ensures Valid() && View() == ClientEvent(old(View()), addr, reply, sendOk, toggleOk)
    {
      ViewNodes();
      var row := GetNodeInfo(addr);
      if row.None? {
        return;
      }
      var i := row.value;
      Take(i, reply);
      match reply {
        case GetError => Drop(i);
        case SetError => Drop(i);
        case GetStatus(present) => OnGetStatus(i, present, sendOk);
        case SetStatus(present) => OnSetStatus(i, present, sendOk);
        case GetTimeout => OnGetTimeout(i, sendOk);
        case SetTimeout => OnSetTimeout(i, sendOk);
      }
      assert View() == Put(old(View()), i, OnReply(old(View()).rows[i], reply, sendOk));
      if reply.GetStatus? && toggleAddr == addr {
        toggleAddr := UNASSIGNED;
        var _ := SendOnoff(i, reply.present == 0, "", toggleOk);
      }
    }
  }
}
