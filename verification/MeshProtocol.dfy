/** The gateway as a transition system: commands from the bridge, group-sync tasks, and the
    events of the mesh stack, each handler or task iteration being one atomic step. */
module MeshProtocol {
  import opened Common
  import opened MeshNodes
  import opened MeshRow

  /** `syncs` holds, for every group-sync task, the row it visits next; a task at the end of
      the table has finished. `toggleAddr` is the node whose next Get status starts a toggle.
      `broadcasts` holds the values of the group Sets that were sent; none is answered. */
  datatype Mesh = Mesh(rows: seq<Row>, syncs: seq<nat>, toggleAddr: nat, broadcasts: seq<byte>)

  function Nodes(m: Mesh): (ns: seq<Node>)
    ensures |ns| == |m.rows| && forall i :: 0 <= i < |ns| ==> ns[i] == m.rows[i].node
  {
    seq(|m.rows|, i requires 0 <= i < |m.rows| => m.rows[i].node)
  }

  // --- Device identifiers ---------------------------------------------------------------

  function HexDigit(d: nat): char
    requires d < 16
  {
    "0123456789ABCDEF"[d]
  }

  function Hex(b: byte): string { [HexDigit(b / 16), HexDigit(b % 16)] }

  function DeviceId(uuid: Uuid): string { "node-" + Hex(uuid[5]) + Hex(uuid[6]) + Hex(uuid[7]) }

  /** Two devices share an id exactly when three bytes of their UUIDs agree; a command then
      reaches the one in the earlier row only. */
  lemma SharedDeviceId(u: Uuid, v: Uuid)
    ensures DeviceId(u) == DeviceId(v) <==> u[5] == v[5] && u[6] == v[6] && u[7] == v[7]
  {
    if DeviceId(u) == DeviceId(v) {
      SamePieces("node-", Hex(u[5]), Hex(u[6]), Hex(u[7]), Hex(v[5]), Hex(v[6]), Hex(v[7]));
      HexInjective(u[5], v[5]);
      HexInjective(u[6], v[6]);
      HexInjective(u[7], v[7]);
    }
  }

  lemma SamePieces(p: string, a: string, b: string, c: string, a': string, b': string, c': string)
    requires |a| == |a'| && |b| == |b'| && |c| == |c'|
    requires p + a + b + c == p + a' + b' + c'
    ensures a == a' && b == b' && c == c'
  {
    SameHalves(p + a + b, c, p + a' + b', c');
    SameHalves(p + a, b, p + a', b');
    SameHalves(p, a, p, a');
  }

  lemma SameHalves(a: string, b: string, a': string, b': string)
    requires |a| == |a'| && a + b == a' + b'
    ensures a == a' && b == b'
  {
    assert a == (a + b)[..|a|] && b == (a + b)[|a|..];
    assert a' == (a' + b')[..|a|] && b' == (a' + b')[|a|..];
  }

  lemma HexInjective(a: byte, b: byte)
    requires Hex(a) == Hex(b)
    ensures a == b
  {
    assert Hex(a)[0] == Hex(b)[0] && Hex(a)[1] == Hex(b)[1];
    DigitInjective(a / 16, b / 16);
    DigitInjective(a % 16, b % 16);
  }

  lemma DigitInjective(a: nat, b: nat)
    requires a < 16 && b < 16 && HexDigit(a) == HexDigit(b)
    ensures a == b
  {}

  predicate Answers(r: Row, deviceId: string) { Assigned(r.node) && DeviceId(r.node.uuid) == deviceId }

  /** The first provisioned row that answers to `deviceId`. */
  function FindDevice(rows: seq<Row>, deviceId: string, from: nat := 0): (r: nat)
    requires from <= |rows|
    ensures from <= r <= |rows|
    ensures r < |rows| ==> Answers(rows[r], deviceId)
    ensures forall k :: from <= k < r ==> !Answers(rows[k], deviceId)
    decreases |rows| - from
  {
    if from == |rows| || Answers(rows[from], deviceId) then from else FindDevice(rows, deviceId, from + 1)
  }

  // --- Commands --------------------------------------------------------------------------

  predicate Busy(rows: seq<Row>) { exists i :: 0 <= i < |rows| && Assigned(rows[i].node) && rows[i].slot.inFlight }

  predicate Populated(rows: seq<Row>) { exists i :: 0 <= i < |rows| && Assigned(rows[i].node) }

  function AcceptAll(rows: seq<Row>, on: bool, id: string): (r: seq<Row>)
    ensures |r| == |rows|
  {
    seq(|rows|, i requires 0 <= i < |rows| =>
      if Assigned(rows[i].node) then Accept(rows[i], on, id) else rows[i])
  }

  function EmptySlots(rows: seq<Row>): (r: seq<Row>)
    ensures |r| == |rows|
  {
    seq(|rows|, i requires 0 <= i < |rows| => rows[i].(slot := IDLE))
  }

  /** The sync task is created before the group Set is sent, and outlives a failed send. */
  function GroupCommand(m: Mesh, on: bool, id: string, taskOk: bool, sendOk: bool): (CommandResult, Mesh) {
    if Busy(m.rows) then (InvalidState, m)
    else if !Populated(m.rows) then (NotFound, m)
    else if !taskOk then (NoMemory, m.(rows := EmptySlots(m.rows)))
    else if !sendOk then (SendFailed, m.(rows := EmptySlots(m.rows), syncs := m.syncs + [0]))
    else (Ok, m.(rows := AcceptAll(m.rows, on, id), syncs := m.syncs + [0], broadcasts := m.broadcasts + [Bit(on)]))
  }

  function CommandRow(m: Mesh, i: nat, on: bool, id: string, sendOk: bool): (CommandResult, Mesh)
    requires i < |m.rows|
  {
    var (res, row) := Command(m.rows[i], on, id, sendOk);
    (res, m.(rows := m.rows[i := row]))
  }

  function BridgeCommand(m: Mesh, deviceId: string, on: bool, id: string, taskOk: bool, sendOk: bool): (CommandResult, Mesh) {
    if deviceId == "*" then GroupCommand(m, on, id, taskOk, sendOk)
    else
      var i := FindDevice(m.rows, deviceId);
      if i < |m.rows| then CommandRow(m, i, on, id, sendOk) else (NotFound, m)
  }

  // --- Events -----------------------------------------------------------------------------

  /** An event finds its row by address; a Get status from the armed address also starts a
      command for the opposite value, with no message id. */
  function ReplyAt(m: Mesh, i: nat, addr: nat, reply: Reply, sendOk: bool, toggleOk: bool): Mesh
    requires i < |m.rows|
  {
    var m1 := m.(rows := m.rows[i := OnReply(m.rows[i], reply, sendOk)]);
    if reply.GetStatus? && m.toggleAddr == addr then
      CommandRow(m1.(toggleAddr := UNASSIGNED), i, reply.present == 0, "", toggleOk).1
    else m1
  }

  function ClientEvent(m: Mesh, addr: nat, reply: Reply, sendOk: bool, toggleOk: bool): Mesh {
    match Lookup(Nodes(m), addr)
    case None => m
    case Some(i) => ReplyAt(m, i, addr, reply, sendOk, toggleOk)
  }

  function SyncVisit(m: Mesh, task: nat, sendOk: bool): Mesh
    requires task < |m.syncs| && m.syncs[task] < |m.rows|
  {
    var i := m.syncs[task];
    m.(syncs := m.syncs[task := i + 1], rows := m.rows[i := VisitForSync(m.rows[i], sendOk)])
  }

  function Provision(m: Mesh, uuid: Uuid, unicast: nat, elemNum: byte): Mesh {
    var nodes := Store(Nodes(m), uuid, unicast, elemNum, 0).1;
    m.(rows := seq(|m.rows|, i requires 0 <= i < |m.rows| => m.rows[i].(node := nodes[i])))
  }

  // --- Steps and runs ------------------------------------------------------------------------

  datatype Step =
    | Bridge(deviceId: string, on: bool, id: string, taskOk: bool, setOk: bool)
    | Poll(row: nat, getOk: bool)
    | ArmToggle(armed: nat)
    | Provisioned(uuid: Uuid, unicast: nat, elemNum: byte)
    | Visit(task: nat, visitOk: bool)
    | Event(from: nat, reply: Reply, sendOk: bool, toggleOk: bool)

  predicate Quiet(r: Row) { !r.slot.inFlight && r.sets == 0 && r.gets == 0 }

  /** Polls and events concern provisioned rows; an event answers a request still owed one;
      a device is reprovisioned only while nothing is pending on it. */
  ghost predicate Enabled(m: Mesh, s: Step) {
    match s
    case Bridge(_, _, _, _, _) => true
    case Poll(i, _) => i < |m.rows| && Assigned(m.rows[i].node)
    case ArmToggle(i) => i < |m.rows| && Assigned(m.rows[i].node)
    case Provisioned(uuid, unicast, elemNum) =>
      && RangeFree(Nodes(m), uuid, unicast, elemNum)
      && var i := StoreRow(Nodes(m), uuid); (i < |m.rows| ==> Quiet(m.rows[i]))
    case Visit(t, _) => t < |m.syncs| && m.syncs[t] < |m.rows|
    case Event(i, reply, _, _) =>
      && i < |m.rows| && Assigned(m.rows[i].node)
      && if OfSet(reply) then m.rows[i].sets > 0 else m.rows[i].gets > 0
  }

  ghost function Next(m: Mesh, s: Step): Mesh
    requires Enabled(m, s)
  {
    match s
    case Bridge(deviceId, on, id, taskOk, setOk) => BridgeCommand(m, deviceId, on, id, taskOk, setOk).1
    case Poll(i, getOk) => m.(rows := m.rows[i := StartGet(m.rows[i], getOk)])
    case ArmToggle(i) => m.(toggleAddr := m.rows[i].node.unicast)
    case Provisioned(uuid, unicast, elemNum) => Provision(m, uuid, unicast, elemNum)
    case Visit(t, ok) => SyncVisit(m, t, ok)
    case Event(i, reply, ok, toggleOk) => ClientEvent(m, m.rows[i].node.unicast, reply, ok, toggleOk)
  }

  ghost predicate Runnable(m: Mesh, steps: seq<Step>)
    decreases |steps|
  {
    steps == [] || (Enabled(m, steps[0]) && Runnable(Next(m, steps[0]), steps[1..]))
  }

  ghost function Run(m: Mesh, steps: seq<Step>): Mesh
    requires Runnable(m, steps)
    decreases |steps|
  {
    if steps == [] then m else Run(Next(m, steps[0]), steps[1..])
  }

  // --- The invariant ---------------------------------------------------------------------------

  /** Sync tasks that have not yet passed row `i`. */
  function Due(syncs: seq<nat>, i: nat): nat {
    if syncs == [] then 0
    else Due(syncs[..|syncs| - 1], i) + if syncs[|syncs| - 1] <= i then 1 else 0
  }

  ghost predicate Inv(m: Mesh) {
    && TableOk(Nodes(m))
    && forall i :: 0 <= i < |m.rows| ==> RowInv(m.rows[i]) && Attended(m.rows[i], Due(m.syncs, i))
  }

  /** The gateway after boot: stored nodes, zeroed slots and counters. */
  ghost function Boot(nodes: seq<Node>): Mesh {
    Mesh(seq(|nodes|, i requires 0 <= i < |nodes| => Row(nodes[i], IDLE, 0, 0, 0, Start)), [], UNASSIGNED, [])
  }

  lemma BootInv(nodes: seq<Node>)
    requires TableOk(nodes)
    ensures Inv(Boot(nodes))
  {}

  lemma {:induction false} DueAfterVisit(syncs: seq<nat>, t: nat, i: nat)
    requires t < |syncs|
    ensures Due(syncs[t := syncs[t] + 1], i) == Due(syncs, i) - if syncs[t] == i then 1 else 0
    ensures syncs[t] <= i ==> Due(syncs, i) > 0
    decreases |syncs|
  {
    var n := |syncs| - 1;
    if t == n {
      assert syncs[t := syncs[t] + 1][..n] == syncs[..n];
    } else {
      assert syncs[t := syncs[t] + 1][..n] == syncs[..n][t := syncs[t] + 1];
      DueAfterVisit(syncs[..n], t, i);
    }
  }

  lemma DueAfterStart(syncs: seq<nat>, i: nat)
    ensures Due(syncs + [0], i) == Due(syncs, i) + 1
  {}

  /** Only `onoff` values differ. */
  ghost predicate SameTable(a: seq<Node>, b: seq<Node>) {
    |a| == |b| && forall i :: 0 <= i < |a| ==> b[i].(onoff := a[i].onoff) == a[i] && (!Assigned(a[i]) ==> a[i] == b[i])
  }

  lemma SameTableOk(a: seq<Node>, b: seq<Node>)
    requires TableOk(a) && SameTable(a, b)
    ensures TableOk(b)
  {
    forall i, j | 0 <= i < j < |b| ensures RowsAgree(b[i], b[j]) {
      assert RowsAgree(a[i], a[j]);
    }
    forall i | 0 <= i < |b| ensures RowOk(b[i]) {
      assert RowOk(a[i]);
    }
  }

  /** An event sent to a node's own address comes back to that node's row. */
  lemma ReplyFindsRow(m: Mesh, i: nat)
    requires Inv(m) && i < |m.rows| && Assigned(m.rows[i].node)
    ensures Lookup(Nodes(m), m.rows[i].node.unicast) == Some(i)
  {
    assert RowOk(Nodes(m)[i]);
    LookupFindsOwner(Nodes(m), m.rows[i].node.unicast);
  }

  lemma CommandRowKeepsInv(m: Mesh, i: nat, on: bool, id: string, sendOk: bool)
    requires Inv(m) && i < |m.rows| && Assigned(m.rows[i].node)
    ensures Inv(CommandRow(m, i, on, id, sendOk).1)
  {
    CommandKeepsRow(m.rows[i], on, id, sendOk);
    assert Nodes(CommandRow(m, i, on, id, sendOk).1) == Nodes(m);
  }

  /** Row `i` is the first provisioned one with this device id. */
  predicate IsFirst(rows: seq<Row>, i: nat, deviceId: string) {
    && i < |rows| && Assigned(rows[i].node) && DeviceId(rows[i].node.uuid) == deviceId
    && forall k :: 0 <= k < i && Assigned(rows[k].node) ==> DeviceId(rows[k].node.uuid) != deviceId
  }

  /** A directed command was started on row `i`: its slot waits for one if the command is for
      on and for zero if it is for off, and a Set of that value is outstanding. */
  function Started(r: Row, on: bool, id: string): Row {
    var value := if on then 1 else 0;
    r.(slot := Slot(true, value, 0, Truncated(id)), sets := r.sets + 1,
       log := Then(Then(r.log, Accepted(value, Truncated(id))), SetRequested(value)))
  }

  /** A command for a device id reaches the first node that answers to it, and is not found
      exactly if none does; every other row stays. */
  lemma BridgeCommandIsExact(m: Mesh, deviceId: string, on: bool, id: string, taskOk: bool, sendOk: bool)
    requires Inv(m) && deviceId != "*"
    ensures var (res, m') := BridgeCommand(m, deviceId, on, id, taskOk, sendOk);
            && (res == NotFound <==>
                  forall i :: 0 <= i < |m.rows| && Assigned(m.rows[i].node) ==> DeviceId(m.rows[i].node.uuid) != deviceId)
            && (res != Ok ==> m' == m)
            && (res == Ok ==>
                  exists i: nat :: IsFirst(m.rows, i, deviceId) && !m.rows[i].slot.inFlight
                    && m' == m.(rows := m.rows[i := Started(m.rows[i], on, id)]))
  {
    FoundIsFirst(m.rows, deviceId);
    var i := FindDevice(m.rows, deviceId);
    if i < |m.rows| { CommandStarts(m, i, on, id, sendOk); }
  }

  lemma FoundIsFirst(rows: seq<Row>, deviceId: string)
    ensures var i := FindDevice(rows, deviceId);
            if i < |rows| then IsFirst(rows, i, deviceId)
            else forall k :: 0 <= k < |rows| && Assigned(rows[k].node) ==> DeviceId(rows[k].node.uuid) != deviceId
  {
    var i := FindDevice(rows, deviceId);
    assert forall k :: 0 <= k < i ==> !Answers(rows[k], deviceId);
  }

  lemma CommandStarts(m: Mesh, i: nat, on: bool, id: string, sendOk: bool)
    requires Inv(m) && i < |m.rows| && Assigned(m.rows[i].node)
    ensures var (res, m') := CommandRow(m, i, on, id, sendOk);
            && res != NotFound && (res != Ok ==> m' == m)
            && (res == Ok ==> !m.rows[i].slot.inFlight && m' == m.(rows := m.rows[i := Started(m.rows[i], on, id)]))
  {
    CommandKeepsRow(m.rows[i], on, id, sendOk);
    assert m.rows[i := m.rows[i]] == m.rows;
  }

  /** All or nothing: an accepted group command occupies the slot of every provisioned node
      with one value and one id; a refused or failed one leaves every row as it was. */
  lemma GroupAllOrNothing(m: Mesh, on: bool, id: string, taskOk: bool, sendOk: bool)
    requires Inv(m)
    ensures var (res, m') := GroupCommand(m, on, id, taskOk, sendOk);
            var value := if on then 1 else 0;
            && Inv(m')
            && (res == InvalidState <==> exists i :: 0 <= i < |m.rows| && Assigned(m.rows[i].node) && m.rows[i].slot.inFlight)
            && (res == NotFound <==> forall i :: 0 <= i < |m.rows| ==> !Assigned(m.rows[i].node))
            && (res == NoMemory ==> !taskOk) && (res == SendFailed ==> taskOk && !sendOk) && (res == Ok ==> taskOk && sendOk)
            && (res != Ok ==> m'.rows == m.rows && m'.broadcasts == m.broadcasts)
            && (res == Ok ==> m'.broadcasts == m.broadcasts + [value])
            && (res == Ok ==> forall i :: 0 <= i < |m.rows| ==>
                  m'.rows[i] == if Assigned(m.rows[i].node)
                                then m.rows[i].(slot := Slot(true, value, 0, Truncated(id)),
                                                log := Then(m.rows[i].log, Accepted(value, Truncated(id))))
                                else m.rows[i])
            && m'.syncs == (if res in {Ok, SendFailed} then m.syncs + [0] else m.syncs)
            && m'.toggleAddr == m.toggleAddr
  {
    GroupKeepsInv(m, on, id, taskOk, sendOk);
    if !Busy(m.rows) { FreeSlotsAreEmpty(m); }
  }

  lemma FreeSlotsAreEmpty(m: Mesh)
    requires Inv(m) && !Busy(m.rows)
    ensures EmptySlots(m.rows) == m.rows && forall i :: 0 <= i < |m.rows| ==> m.rows[i].slot == IDLE
  {
    forall i | 0 <= i < |m.rows| ensures m.rows[i].slot == IDLE {
      assert RowInv(m.rows[i]);
    }
  }

  lemma GroupKeepsInv(m: Mesh, on: bool, id: string, taskOk: bool, sendOk: bool)
    requires Inv(m)
    ensures Inv(GroupCommand(m, on, id, taskOk, sendOk).1)
  {
    var m' := GroupCommand(m, on, id, taskOk, sendOk).1;
    if !Busy(m.rows) {
      FreeSlotsAreEmpty(m);
      forall i | 0 <= i < |m.rows|
        ensures RowInv(m'.rows[i]) && Attended(m'.rows[i], Due(m'.syncs, i))
      {
        DueAfterStart(m.syncs, i);
        assert RowInv(m.rows[i]);
      }
      assert Nodes(m') == Nodes(m);
    }
  }

  lemma HandledReplyKeepsInv(m: Mesh, i: nat, reply: Reply, sendOk: bool)
    requires Inv(m) && Enabled(m, Event(i, reply, sendOk, true))
    ensures var m1 := m.(rows := m.rows[i := OnReply(m.rows[i], reply, sendOk)]);
            Inv(m1) && m1.rows[i].node.unicast == m.rows[i].node.unicast && Assigned(m1.rows[i].node)
  {
    ReplyKeepsRow(m.rows[i], Due(m.syncs, i), reply, sendOk);
    var m1 := m.(rows := m.rows[i := OnReply(m.rows[i], reply, sendOk)]);
    assert SameTable(Nodes(m), Nodes(m1));
    SameTableOk(Nodes(m), Nodes(m1));
  }

  lemma EventKeepsInv(m: Mesh, i: nat, reply: Reply, sendOk: bool, toggleOk: bool)
    requires Inv(m) && Enabled(m, Event(i, reply, sendOk, toggleOk))
    ensures var m' := Next(m, Event(i, reply, sendOk, toggleOk));
            && Inv(m') && m'.syncs == m.syncs && |m'.rows| == |m.rows|
            && (forall j :: 0 <= j < |m.rows| && j != i ==> m'.rows[j] == m.rows[j])
            && Rank(m'.rows[i], Due(m.syncs, i)) < Rank(m.rows[i], Due(m.syncs, i))
  {
    ReplyFindsRow(m, i);
    ReplyKeepsRow(m.rows[i], Due(m.syncs, i), reply, sendOk);
    HandledReplyKeepsInv(m, i, reply, sendOk);
    var r := OnReply(m.rows[i], reply, sendOk);
    if reply.GetStatus? && m.toggleAddr == m.rows[i].node.unicast {
      var m2 := m.(rows := m.rows[i := r], toggleAddr := UNASSIGNED);
      assert Nodes(m2) == Nodes(m.(rows := m.rows[i := r]));
      CommandRowKeepsInv(m2, i, reply.present == 0, "", toggleOk);
      CommandKeepsRow(r, reply.present == 0, "", toggleOk);
    }
  }

  lemma VisitKeepsInv(m: Mesh, t: nat, ok: bool)
    requires Inv(m) && Enabled(m, Visit(t, ok))
    ensures var m' := Next(m, Visit(t, ok)); var i := m.syncs[t];
            && Inv(m') && |m'.rows| == |m.rows|
            && (forall j :: 0 <= j < |m.rows| && j != i ==> m'.rows[j] == m.rows[j] && Due(m'.syncs, j) == Due(m.syncs, j))
            && Rank(m'.rows[i], Due(m'.syncs, i)) < Rank(m.rows[i], Due(m.syncs, i))
  {
    var m' := Next(m, Visit(t, ok));
    var i := m.syncs[t];
    forall j | 0 <= j < |m.rows| ensures Due(m'.syncs, j) == Due(m.syncs, j) - if i == j then 1 else 0 {
      DueAfterVisit(m.syncs, t, j);
    }
    DueAfterVisit(m.syncs, t, i);
    VisitKeepsRow(m.rows[i], Due(m.syncs, i), ok);
    assert Nodes(m') == Nodes(m);
  }

  lemma ProvisionKeepsInv(m: Mesh, uuid: Uuid, unicast: nat, elemNum: byte)
    requires Inv(m) && Enabled(m, Provisioned(uuid, unicast, elemNum))
    ensures Inv(Next(m, Provisioned(uuid, unicast, elemNum)))
  {
    var m' := Next(m, Provisioned(uuid, unicast, elemNum));
    StoreKeepsTable(Nodes(m), uuid, unicast, elemNum, 0);
    assert Nodes(m') == Store(Nodes(m), uuid, unicast, elemNum, 0).1;
    forall i | 0 <= i < |m.rows| ensures RowInv(m'.rows[i]) && Attended(m'.rows[i], Due(m'.syncs, i)) {
      assert RowInv(m.rows[i]);
    }
  }

  lemma StepKeepsInv(m: Mesh, s: Step)
    requires Inv(m) && Enabled(m, s)
    ensures Inv(Next(m, s))
  {
    match s
    case Bridge(deviceId, on, id, taskOk, setOk) =>
      if deviceId == "*" {
        GroupAllOrNothing(m, on, id, taskOk, setOk);
      } else {
        var i := FindDevice(m.rows, deviceId);
        if i < |m.rows| { CommandRowKeepsInv(m, i, on, id, setOk); }
      }
    case Poll(i, ok) =>
      StartGetKeepsRow(m.rows[i], ok);
      assert Nodes(Next(m, s)) == Nodes(m);
    case ArmToggle(_) =>
      assert Nodes(Next(m, s)) == Nodes(m);
    case Provisioned(uuid, unicast, elemNum) => ProvisionKeepsInv(m, uuid, unicast, elemNum);
    case Visit(t, ok) => VisitKeepsInv(m, t, ok);
    case Event(i, reply, ok, toggleOk) => EventKeepsInv(m, i, reply, ok, toggleOk);
  }

  /** Safety over every run: no command is stuck, every free slot is zero, no retry counter
      exceeds three, histories are orderly, and the Set-request bound holds. */
  lemma {:induction false} RunKeepsInv(m: Mesh, steps: seq<Step>)
    requires Inv(m) && Runnable(m, steps)
    ensures Inv(Run(m, steps))
    decreases |steps|
  {
    if steps != [] {
      StepKeepsInv(m, steps[0]);
      RunKeepsInv(Next(m, steps[0]), steps[1..]);
    }
  }
}
