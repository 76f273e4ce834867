/** The gateway's table of provisioned nodes: one row per device, keyed by UUID,
    searched by the range of element addresses the device owns. */
module MeshNodes {
  import opened Common

  const UNASSIGNED := 0x0000
  const FIRST_GROUP_OR_VIRTUAL := 0x8000

  type Uuid = u: seq<byte> | |u| == 16 witness [0, 0, 0, 0, 0, 0, 0, 0, 0, 0, 0, 0, 0, 0, 0, 0]

  datatype Node = Node(uuid: Uuid, unicast: nat, elemNum: byte, onoff: byte)

  const NO_UUID: Uuid := [0, 0, 0, 0, 0, 0, 0, 0, 0, 0, 0, 0, 0, 0, 0, 0]

  /** A row of the zero-initialised array. */
  const EMPTY_ROW := Node(NO_UUID, UNASSIGNED, 0, 0)

  predicate IsUnicast(addr: nat) { UNASSIGNED < addr < FIRST_GROUP_OR_VIRTUAL }

  predicate Assigned(n: Node) { IsUnicast(n.unicast) }

  predicate InRange(addr: nat, base: nat, size: nat) { base <= addr < base + size }

  /** The row's element range covers `addr`. */
  predicate Covers(n: Node, addr: nat) { InRange(addr, n.unicast, n.elemNum) }

  predicate Overlap(a: nat, la: nat, b: nat, lb: nat) { a < b + lb && b < a + la }

  /** Two ranges overlap exactly when some address lies in both. */
  lemma OverlapIsShared(a: nat, la: nat, b: nat, lb: nat)
    requires la > 0 && lb > 0
    ensures Overlap(a, la, b, lb) <==> exists x :: InRange(x, a, la) && InRange(x, b, lb)
  {
    if Overlap(a, la, b, lb) {
      var x := if a < b then b else a;
      assert InRange(x, a, la) && InRange(x, b, lb);
    }
  }

  datatype StoreResult = Stored | InvalidArg | TableFull

  // --- What the two searches of the table compute -----------------------------

  function FirstUuid(nodes: seq<Node>, uuid: Uuid, from: nat := 0): (r: nat)
    requires from <= |nodes|
    ensures from <= r <= |nodes|
    ensures r < |nodes| ==> nodes[r].uuid == uuid
    ensures forall k :: from <= k < r ==> nodes[k].uuid != uuid
    decreases |nodes| - from
  {
    if from == |nodes| || nodes[from].uuid == uuid then from else FirstUuid(nodes, uuid, from + 1)
  }

  function FirstFree(nodes: seq<Node>, from: nat := 0): (r: nat)
    requires from <= |nodes|
    ensures from <= r <= |nodes|
    ensures r < |nodes| ==> nodes[r].unicast == UNASSIGNED
    ensures forall k :: from <= k < r ==> nodes[k].unicast != UNASSIGNED
    decreases |nodes| - from
  {
    if from == |nodes| || nodes[from].unicast == UNASSIGNED then from else FirstFree(nodes, from + 1)
  }

  /** The row a store request writes: the device's own row, or else the first free one. */
  function StoreRow(nodes: seq<Node>, uuid: Uuid): (r: nat)
    ensures r <= |nodes|
  {
    var own := FirstUuid(nodes, uuid);
    if own < |nodes| then own else FirstFree(nodes)
  }

  function Store(nodes: seq<Node>, uuid: Uuid, unicast: nat, elemNum: byte, onoff: byte): (r: (StoreResult, seq<Node>))
    ensures |r.1| == |nodes|
  {
    if !IsUnicast(unicast) then (InvalidArg, nodes)
    else
      var row := StoreRow(nodes, uuid);
      if row < |nodes| then (Stored, nodes[row := Node(uuid, unicast, elemNum, onoff)])
      else (TableFull, nodes)
  }

  function Lookup(nodes: seq<Node>, addr: nat, from: nat := 0): (r: Option<nat>)
    requires from <= |nodes|
    ensures r.Some? ==> from <= r.value < |nodes| && IsUnicast(addr) && Covers(nodes[r.value], addr)
    ensures r.Some? ==> forall k :: from <= k < r.value ==> !Covers(nodes[k], addr)
    ensures r.None? && IsUnicast(addr) ==> forall k :: from <= k < |nodes| ==> !Covers(nodes[k], addr)
    decreases |nodes| - from
  {
    if !IsUnicast(addr) || from == |nodes| then None
    else if Covers(nodes[from], addr) then Some(from)
    else Lookup(nodes, addr, from + 1)
  }

  // --- The table invariant ------------------------------------------------------

  /** An earlier and a later row: assigned rows come first, and two assigned rows belong
      to different devices with disjoint element ranges. */
  predicate RowsAgree(a: Node, b: Node) {
    Assigned(b) ==> Assigned(a) && a.uuid != b.uuid && !Overlap(a.unicast, a.elemNum, b.unicast, b.elemNum)
  }

  predicate RowOk(n: Node) { if Assigned(n) then n.elemNum > 0 else n == EMPTY_ROW }

  ghost predicate TableOk(nodes: seq<Node>) {
    && (forall i :: 0 <= i < |nodes| ==> RowOk(nodes[i]))
    && (forall i, j {:trigger RowsAgree(nodes[i], nodes[j])} :: 0 <= i < j < |nodes| ==> RowsAgree(nodes[i], nodes[j]))
  }

  /** The address range offered for `uuid` is disjoint from every other device's range. */
  ghost predicate RangeFree(nodes: seq<Node>, uuid: Uuid, unicast: nat, elemNum: byte) {
    && elemNum > 0
    && forall i :: 0 <= i < |nodes| && Assigned(nodes[i]) && nodes[i].uuid != uuid ==>
         !Overlap(nodes[i].unicast, nodes[i].elemNum, unicast, elemNum)
  }

  /** The table's meaning: which address range each device owns. */
  ghost function Owners(nodes: seq<Node>): map<Uuid, (nat, byte)> {
    if nodes == [] then map[]
    else
      var n := nodes[|nodes| - 1];
      var before := Owners(nodes[..|nodes| - 1]);
      if Assigned(n) then before[n.uuid := (n.unicast, n.elemNum)] else before
  }

  lemma {:induction false} OwnersIsTable(nodes: seq<Node>, uuid: Uuid)
    requires TableOk(nodes)
    ensures uuid in Owners(nodes) <==> exists i :: 0 <= i < |nodes| && Assigned(nodes[i]) && nodes[i].uuid == uuid
    ensures forall i :: 0 <= i < |nodes| && Assigned(nodes[i]) && nodes[i].uuid == uuid ==>
              Owners(nodes)[uuid] == (nodes[i].unicast, nodes[i].elemNum)
  {
    if nodes != [] {
      var n := |nodes| - 1;
      OwnersIsTable(nodes[..n], uuid);
      forall i | 0 <= i < n ensures RowsAgree(nodes[i], nodes[n]) && nodes[..n][i] == nodes[i] {}
      if uuid in Owners(nodes[..n]) {
        var i :| 0 <= i < n && Assigned(nodes[..n][i]) && nodes[..n][i].uuid == uuid;
        assert nodes[i].uuid == uuid;
      }
    }
  }

  /** A store writes the one row that holds the device, or the first empty row if there is
      none; the all-zero UUID, which every empty row carries, is no exception. */
  lemma StoreRowIsTheDevicesRow(nodes: seq<Node>, uuid: Uuid)
    requires TableOk(nodes)
    ensures var r := StoreRow(nodes, uuid);
            && (forall i :: 0 <= i < |nodes| && Assigned(nodes[i]) && nodes[i].uuid == uuid ==> r == i)
            && (r < |nodes| && Assigned(nodes[r]) ==> nodes[r].uuid == uuid)
            && (r < |nodes| && !Assigned(nodes[r]) ==> forall k :: 0 <= k < r ==> Assigned(nodes[k]))
            && (r == |nodes| ==> forall k :: 0 <= k < |nodes| ==> Assigned(nodes[k]) && nodes[k].uuid != uuid)
  {
    var own := FirstUuid(nodes, uuid);
    forall i | own < i < |nodes| ensures !(Assigned(nodes[i]) && nodes[i].uuid == uuid) {
      assert RowsAgree(nodes[own], nodes[i]);
    }
    forall k | 0 <= k < |nodes| ensures RowOk(nodes[k]) {}
  }

  lemma StoreKeepsTable(nodes: seq<Node>, uuid: Uuid, unicast: nat, elemNum: byte, onoff: byte)
    requires TableOk(nodes) && RangeFree(nodes, uuid, unicast, elemNum)
    ensures TableOk(Store(nodes, uuid, unicast, elemNum, onoff).1)
  {
    StoreRowIsTheDevicesRow(nodes, uuid);
    var after := Store(nodes, uuid, unicast, elemNum, onoff).1;
    forall i, j | 0 <= i < j < |after| ensures RowsAgree(after[i], after[j]) {
      assert RowsAgree(nodes[i], nodes[j]);
    }
  }

  lemma {:induction false} OwnersAfterWrite(nodes: seq<Node>, r: nat, n: Node)
    requires r < |nodes| && Assigned(n)
    requires forall i :: 0 <= i < |nodes| && Assigned(nodes[i]) && nodes[i].uuid == n.uuid ==> i == r
    requires Assigned(nodes[r]) ==> nodes[r].uuid == n.uuid
    ensures Owners(nodes[r := n]) == Owners(nodes)[n.uuid := (n.unicast, n.elemNum)]
  {
    var last := |nodes| - 1;
    if r == last {
      assert nodes[r := n][..last] == nodes[..last];
    } else {
      assert nodes[r := n][..last] == nodes[..last][r := n];
      OwnersAfterWrite(nodes[..last], r, n);
    }
  }

  /** Refinement: storing updates the owner map at one key, fails exactly when the address
      is not unicast or a new device meets a full table, and never moves another device. */
  lemma StoreRefinesMap(nodes: seq<Node>, uuid: Uuid, unicast: nat, elemNum: byte, onoff: byte)
    requires TableOk(nodes) && RangeFree(nodes, uuid, unicast, elemNum)
    ensures TableOk(Store(nodes, uuid, unicast, elemNum, onoff).1)
    ensures var (res, after) := Store(nodes, uuid, unicast, elemNum, onoff);
            && (res == InvalidArg <==> !IsUnicast(unicast))
            && (res == TableFull <==> IsUnicast(unicast) && uuid !in Owners(nodes)
                                      && forall k :: 0 <= k < |nodes| ==> Assigned(nodes[k]))
            && (res == Stored ==> var r := StoreRow(nodes, uuid); r < |nodes| && after[r] == Node(uuid, unicast, elemNum, onoff))
            && Owners(after) == (if res == Stored then Owners(nodes)[uuid := (unicast, elemNum)] else Owners(nodes))
            && (forall i :: 0 <= i < |nodes| && Assigned(nodes[i]) ==> Assigned(after[i]) && after[i].uuid == nodes[i].uuid)
            && (forall i :: 0 <= i < |nodes| && Assigned(nodes[i]) && nodes[i].uuid != uuid ==> after[i] == nodes[i])
  {
    StoreKeepsTable(nodes, uuid, unicast, elemNum, onoff);
    StoreRowIsTheDevicesRow(nodes, uuid);
    OwnersIsTable(nodes, uuid);
    var r := StoreRow(nodes, uuid);
    if IsUnicast(unicast) && r < |nodes| {
      OwnersAfterWrite(nodes, r, Node(uuid, unicast, elemNum, onoff));
    }
  }

  /** Lookup answers with the one row whose range covers the address, and with none
      exactly when no device owns it. */
  lemma LookupFindsOwner(nodes: seq<Node>, addr: nat)
    requires TableOk(nodes)
    ensures forall i :: 0 <= i < |nodes| ==>
              (Lookup(nodes, addr) == Some(i) <==> IsUnicast(addr) && Assigned(nodes[i]) && Covers(nodes[i], addr))
  {
    forall i, j | 0 <= i < j < |nodes| ensures !(Covers(nodes[i], addr) && Covers(nodes[j], addr)) {
      assert RowOk(nodes[i]) && RowOk(nodes[j]) && RowsAgree(nodes[i], nodes[j]);
    }
    forall i | 0 <= i < |nodes| ensures RowOk(nodes[i]) {}
  }

  // --- Whole provisioning histories -----------------------------------------------

  datatype Provisioning = Provisioning(uuid: Uuid, unicast: nat, elemNum: byte, onoff: byte)

  function Replay(nodes: seq<Node>, history: seq<Provisioning>): (r: seq<Node>)
    ensures |r| == |nodes|
    decreases |history|
  {
    if history == [] then nodes
    else
      var p := history[0];
      Replay(Store(nodes, p.uuid, p.unicast, p.elemNum, p.onoff).1, history[1..])
  }

  /** Every request of the history offers a range free of the other devices' ranges. */
  ghost predicate DisjointHistory(nodes: seq<Node>, history: seq<Provisioning>)
    decreases |history|
  {
    history == [] ||
    var p := history[0];
    && RangeFree(nodes, p.uuid, p.unicast, p.elemNum)
    && DisjointHistory(Store(nodes, p.uuid, p.unicast, p.elemNum, p.onoff).1, history[1..])
  }

  /** The abstract history: a bounded map that accepts an update unless the address is not
      unicast or a new key would exceed `capacity`. */
  ghost function ReplayMap(owners: map<Uuid, (nat, byte)>, capacity: nat, history: seq<Provisioning>): map<Uuid, (nat, byte)>
    decreases |history|
  {
    if history == [] then owners
    else
      var p := history[0];
      var fits := IsUnicast(p.unicast) && (p.uuid in owners || |owners| < capacity);
      ReplayMap(if fits then owners[p.uuid := (p.unicast, p.elemNum)] else owners, capacity, history[1..])
  }

  lemma {:induction false} OwnersCount(nodes: seq<Node>)
    requires TableOk(nodes)
    ensures |Owners(nodes)| <= |nodes|
    ensures |Owners(nodes)| == |nodes| <==> forall k :: 0 <= k < |nodes| ==> Assigned(nodes[k])
  {
    if nodes != [] {
      var n := |nodes| - 1;
      OwnersCount(nodes[..n]);
      OwnersIsTable(nodes[..n], nodes[n].uuid);
      forall i | 0 <= i < n ensures RowsAgree(nodes[i], nodes[n]) && nodes[..n][i] == nodes[i] {}
    }
  }

  /** After any orderly history the array refines the bounded map from UUID to range, and
      a device stays in the row it first got. */
  lemma {:induction false} ReplayRefinesMap(nodes: seq<Node>, history: seq<Provisioning>)
    requires TableOk(nodes) && DisjointHistory(nodes, history)
    ensures TableOk(Replay(nodes, history))
    ensures Owners(Replay(nodes, history)) == ReplayMap(Owners(nodes), |nodes|, history)
    ensures forall i :: 0 <= i < |nodes| && Assigned(nodes[i]) ==>
              Assigned(Replay(nodes, history)[i]) && Replay(nodes, history)[i].uuid == nodes[i].uuid
    decreases |history|
  {
    if history != [] {
      var p := history[0];
      StoreRefinesMap(nodes, p.uuid, p.unicast, p.elemNum, p.onoff);
      OwnersCount(nodes);
      var after := Store(nodes, p.uuid, p.unicast, p.elemNum, p.onoff).1;
      ReplayRefinesMap(after, history[1..]);
      forall i | 0 <= i < |nodes| && Assigned(nodes[i])
        ensures Assigned(Replay(nodes, history)[i]) && Replay(nodes, history)[i].uuid == nodes[i].uuid
      {
        assert Assigned(after[i]);
      }
    }
  }
}
