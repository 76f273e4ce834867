/** One row of the gateway: a provisioned node, its pending-command slot, and the requests
    the mesh stack still owes an event for. Every handler of the gateway acts on one row. */
module MeshRow {
  import opened Common
  import opened MeshNodes

  const MAX_RETRIES := 3
  const MESSAGE_ID_SIZE := 96

  datatype Slot = Slot(inFlight: bool, desired: byte, retries: byte, messageId: string)

  /** The zero-filled slot. */
  const IDLE := Slot(false, 0, 0, "")

  /** What happened on a row, oldest first. `Accepted` starts a command and `Acked` or
      `Dropped` ends it; `GetMismatch` is a Get status that contradicts the command. */
  datatype Entry =
    | Accepted(desired: byte, id: string)
    | Acked(present: byte, ackId: string)
    | Dropped
    | SetRequested(value: byte)
    | GetRequested
    | GetMismatch(found: byte)

  datatype History = Start | Then(past: History, last: Entry)

  /** `sets` and `gets` count the acknowledged requests that were sent and whose single
      status, timeout or error event is still to come. */
  datatype Row = Row(node: Node, slot: Slot, getRetries: byte, sets: nat, gets: nat, log: History)

  datatype CommandResult = Ok | InvalidState | NotFound | NoMemory | SendFailed

  /** What the stack reports for one request. */
  datatype Reply =
    | GetStatus(present: byte)
    | SetStatus(present: byte)
    | GetTimeout
    | SetTimeout
    | GetError
    | SetError

  function Bit(on: bool): byte { if on then 1 else 0 }

  /** The bounded copy of a message id into a slot, one character being the terminator. */
  function Truncated(id: string): (r: string)
    ensures |r| < MESSAGE_ID_SIZE && r <= id
    ensures if |id| < MESSAGE_ID_SIZE then r == id else |r| == MESSAGE_ID_SIZE - 1
  {
    if |id| < MESSAGE_ID_SIZE then id else id[..MESSAGE_ID_SIZE - 1]
  }

  function Less1(n: nat): nat { if n > 0 then n - 1 else 0 }

  // --- The handlers, on one row ------------------------------------------------------

  function SendSet(r: Row, ok: bool): Row {
    if ok then r.(sets := r.sets + 1, log := Then(r.log, SetRequested(r.slot.desired))) else r
  }

  function SendGet(r: Row, ok: bool): Row {
    if ok then r.(gets := r.gets + 1, log := Then(r.log, GetRequested)) else r
  }

  function ClearPending(r: Row): Row {
    r.(slot := IDLE, log := if r.slot.inFlight then Then(r.log, Dropped) else r.log)
  }

  function SendSetOrClear(r: Row, ok: bool): Row {
    if ok then SendSet(r, true) else ClearPending(r)
  }

  function Acknowledge(r: Row): Row {
    r.(slot := IDLE, log := Then(r.log, Acked(r.node.onoff, r.slot.messageId)))
  }

  /** Occupying a slot leaves its retry counter as it was. */
  function Occupy(s: Slot, on: bool, id: string): Slot {
    Slot(true, Bit(on), s.retries, Truncated(id))
  }

  function Accept(r: Row, on: bool, id: string): Row {
    r.(slot := Occupy(r.slot, on, id), log := Then(r.log, Accepted(Bit(on), Truncated(id))))
  }

  function Command(r: Row, on: bool, id: string, sendOk: bool): (CommandResult, Row) {
    if r.slot.inFlight then (InvalidState, r)
    else if !sendOk then (SendFailed, r.(slot := IDLE))
    else (Ok, SendSet(Accept(r, on, id), true))
  }

  function StartGet(r: Row, sendOk: bool): Row {
    SendGet(r.(getRetries := 0), sendOk)
  }

  function VisitForSync(r: Row, sendOk: bool): Row {
    if !r.slot.inFlight || !Assigned(r.node) then r
    else if sendOk then SendGet(r, true) else ClearPending(r)
  }

  /** A Get status: acknowledge a matching command, or start its retries afresh. */
  function OnGetStatus(r: Row, present: byte, sendOk: bool): Row {
    var seen := r.(node := r.node.(onoff := present), getRetries := 0);
    if !seen.slot.inFlight then seen
    else if seen.slot.desired == present then Acknowledge(seen)
    else SendSetOrClear(seen.(slot := seen.slot.(retries := 0), log := Then(seen.log, GetMismatch(present))), sendOk)
  }

  /** A Set status: acknowledge a matching command, or retry, or give up. */
  function OnSetStatus(r: Row, present: byte, sendOk: bool): Row {
    var seen := r.(node := r.node.(onoff := present));
    if !seen.slot.inFlight then seen
    else if seen.slot.desired == present then Acknowledge(seen)
    else if seen.slot.retries >= MAX_RETRIES then ClearPending(seen)
    else SendSetOrClear(seen.(slot := seen.slot.(retries := seen.slot.retries + 1)), sendOk)
  }

  /** A Get timeout spends the command's retries while one is in flight, else its own. */
  function OnGetTimeout(r: Row, sendOk: bool): Row {
    if r.slot.inFlight then
      if r.slot.retries >= MAX_RETRIES then ClearPending(r)
      else
        var counted := r.(slot := r.slot.(retries := r.slot.retries + 1));
        if sendOk then SendGet(counted, true) else ClearPending(counted)
    else if r.getRetries >= MAX_RETRIES then r.(getRetries := 0)
    else SendGet(r.(getRetries := r.getRetries + 1), sendOk)
  }

  function OnSetTimeout(r: Row, sendOk: bool): Row {
    if !r.slot.inFlight then r
    else if r.slot.retries >= MAX_RETRIES then ClearPending(r)
    else SendSetOrClear(r.(slot := r.slot.(retries := r.slot.retries + 1)), sendOk)
  }

  predicate OfSet(reply: Reply) { reply.SetStatus? || reply.SetTimeout? || reply.SetError? }

  /** The event takes its request off the channel, then the handler runs. */
  function Taken(r: Row, reply: Reply): Row {
    if OfSet(reply) then r.(sets := Less1(r.sets)) else r.(gets := Less1(r.gets))
  }

  function OnReply(r: Row, reply: Reply, sendOk: bool): Row {
    var t := Taken(r, reply);
    match reply
    case GetStatus(present) => OnGetStatus(t, present, sendOk)
    case SetStatus(present) => OnSetStatus(t, present, sendOk)
    case GetTimeout => OnGetTimeout(t, sendOk)
    case SetTimeout => OnSetTimeout(t, sendOk)
    case GetError => ClearPending(t)
    case SetError => ClearPending(t)
  }

  // --- Reading a history -----------------------------------------------------------------

  /** The command a history leaves open. */
  function Open(h: History): Option<(byte, string)> {
    match h
    case Start => None
    case Then(past, e) =>
      match e
      case Accepted(d, id) => Some((d, id))
      case Acked(_, _) => None
      case Dropped => None
      case _ => Open(past)
  }

  /** Commands do not overlap, an acknowledgement carries the open command's id and is made
      on seeing its value, and only an open command is dropped, contradicted or re-sent. */
  predicate Orderly(h: History) {
    match h
    case Start => true
    case Then(past, e) =>
      Orderly(past) &&
      match e
      case Accepted(_, _) => Open(past) == None
      case Acked(present, id) => Open(past) == Some((present, id))
      case Dropped => Open(past).Some?
      case SetRequested(v) => Open(past).Some? && Open(past).value.0 == v
      case GetMismatch(found) => Open(past).Some? && Open(past).value.0 != found
      case GetRequested => true
  }

  function Accepts(h: History): nat {
    match h case Start => 0 case Then(past, e) => Accepts(past) + if e.Accepted? then 1 else 0
  }

  function Acks(h: History): nat {
    match h case Start => 0 case Then(past, e) => Acks(past) + if e.Acked? then 1 else 0
  }

  function Drops(h: History): nat {
    match h case Start => 0 case Then(past, e) => Drops(past) + if e.Dropped? then 1 else 0
  }

  function AcceptsOf(h: History, id: string): nat {
    match h case Start => 0 case Then(past, e) => AcceptsOf(past, id) + if e.Accepted? && e.id == id then 1 else 0
  }

  function AcksOf(h: History, id: string): nat {
    match h case Start => 0 case Then(past, e) => AcksOf(past, id) + if e.Acked? && e.ackId == id then 1 else 0
  }

  /** Set requests since the latest command was accepted. */
  function SetsSince(h: History): nat {
    match h
    case Start => 0
    case Then(past, e) => if e.Accepted? then 0 else SetsSince(past) + if e.SetRequested? then 1 else 0
  }

  /** Contradicting Get statuses since the latest command was accepted. */
  function MismatchesSince(h: History): nat {
    match h
    case Start => 0
    case Then(past, e) => if e.Accepted? then 0 else MismatchesSince(past) + if e.GetMismatch? then 1 else 0
  }

  lemma {:induction false} NothingLost(h: History)
    requires Orderly(h)
    ensures Accepts(h) == Acks(h) + Drops(h) + if Open(h).Some? then 1 else 0
  {
    if h.Then? { NothingLost(h.past); }
  }

  /** No command id is acknowledged more often than it was accepted. */
  lemma {:induction false} AckedAtMostOnce(h: History, id: string)
    requires Orderly(h)
    ensures AcksOf(h, id) + (if Open(h).Some? && Open(h).value.1 == id then 1 else 0) <= AcceptsOf(h, id)
  {
    if h.Then? { AckedAtMostOnce(h.past, id); }
  }

  // --- The row invariant ------------------------------------------------------------------

  ghost predicate RowInv(r: Row) {
    && (!r.slot.inFlight ==> r.slot == IDLE)
    && r.slot.retries <= MAX_RETRIES
    && r.getRetries <= MAX_RETRIES
    && (r.slot.inFlight ==> Assigned(r.node))
    && (!Assigned(r.node) ==> r.sets == 0 && r.gets == 0)
    && Orderly(r.log)
    && Open(r.log) == (if r.slot.inFlight then Some((r.slot.desired, r.slot.messageId)) else None)
    && SetsSince(r.log) <= 4 * (MismatchesSince(r.log) + 1)
    && (r.slot.inFlight ==> SetsSince(r.log) <= 4 * MismatchesSince(r.log) + 1 + r.slot.retries)
  }

  /** A command in flight is owed an event, or a visit by a group-sync task. */
  predicate Attended(r: Row, visits: nat) {
    r.slot.inFlight ==> r.sets + r.gets + visits > 0
  }

  /** The progress measure: every event on the row and every sync visit lowers it. */
  function Rank(r: Row, visits: nat): nat
    requires r.slot.retries <= MAX_RETRIES && r.getRetries <= MAX_RETRIES
  {
    12 * (2 * visits + r.gets) + (if r.slot.inFlight then 4 else 0)
    + (MAX_RETRIES - r.slot.retries) + (MAX_RETRIES - r.getRetries) + r.sets
  }

  /** How an event ends a command: with an acknowledgement exactly on a status that shows the
      desired value, and without one exactly on an error, on a failed send, or on a fourth
      unsuccessful answer in a row. */
  lemma HowACommandEnds(r: Row, reply: Reply, sendOk: bool)
    requires RowInv(r) && r.slot.inFlight
    ensures var r' := OnReply(r, reply, sendOk); var spent := r.slot.retries == MAX_RETRIES;
            && (Acks(r'.log) == Acks(r.log) + 1 <==> r'.log == Then(r.log, Acked(r.slot.desired, r.slot.messageId)))
            && (Acks(r'.log) == Acks(r.log) + 1 <==> reply == GetStatus(r.slot.desired) || reply == SetStatus(r.slot.desired))
            && (Drops(r'.log) == Drops(r.log) + 1 <==>
                  match reply
                  case GetError => true
                  case SetError => true
                  case GetStatus(present) => present != r.slot.desired && !sendOk
                  case SetStatus(present) => present != r.slot.desired && (spent || !sendOk)
                  case GetTimeout => spent || !sendOk
                  case SetTimeout => spent || !sendOk)
            && (r'.slot.inFlight <==> Acks(r'.log) == Acks(r.log) && Drops(r'.log) == Drops(r.log))
            && (r'.slot.inFlight ==> r'.slot.(retries := r.slot.retries) == r.slot)
  {}

  function GetTimeouts(r: Row, n: nat): Row {
    if n == 0 then r else OnReply(GetTimeouts(r, n - 1), GetTimeout, true)
  }

  /** An unanswered poll of an idle node is asked four times in all and then given up, ready
      for the next poll; a status ends it at once. */
  lemma PollIsAskedFourTimes(r: Row, present: byte)
    requires RowInv(r) && Assigned(r.node) && !r.slot.inFlight && r.sets == 0 && r.gets == 0
    ensures var polled := StartGet(r, true); var asked := Then(r.log, GetRequested);
            && GetTimeouts(polled, 3).gets == 1
            && GetTimeouts(polled, 4) ==
                 r.(getRetries := 0, log := Then(Then(Then(asked, GetRequested), GetRequested), GetRequested))
            && OnReply(GetTimeouts(polled, 3), GetStatus(present), true).getRetries == 0
            && OnReply(polled, GetStatus(present), true) == r.(node := r.node.(onoff := present), getRetries := 0, log := asked)
  {
    var polled := StartGet(r, true);
    var once := OnReply(polled, GetTimeout, true);
    var twice := OnReply(once, GetTimeout, true);
    var thrice := OnReply(twice, GetTimeout, true);
    assert GetTimeouts(polled, 1) == once;
    assert GetTimeouts(polled, 2) == twice;
    assert GetTimeouts(polled, 3) == thrice;
  }

  lemma CommandKeepsRow(r: Row, on: bool, id: string, sendOk: bool)
    requires RowInv(r) && Assigned(r.node)
    ensures var (res, r') := Command(r, on, id, sendOk);
            && RowInv(r')
            && (res == Ok <==> !r.slot.inFlight && sendOk)
            && (res == InvalidState <==> r.slot.inFlight)
            && (res != Ok ==> r' == r)
            && (res == Ok ==> var value := if on then 1 else 0;
                              r' == r.(slot := Slot(true, value, 0, Truncated(id)), sets := r.sets + 1,
                                       log := Then(Then(r.log, Accepted(value, Truncated(id))), SetRequested(value))))
            && (forall visits :: Attended(r, visits) ==> Attended(r', visits))
            && (r.sets == 0 && r.gets == 0 && res == Ok ==> Rank(r', 0) <= 11)
  {}

  lemma StartGetKeepsRow(r: Row, sendOk: bool)
    requires RowInv(r) && Assigned(r.node)
    ensures RowInv(StartGet(r, sendOk))
    ensures forall visits :: Attended(r, visits) ==> Attended(StartGet(r, sendOk), visits)
  {}

  lemma VisitKeepsRow(r: Row, visits: nat, sendOk: bool)
    requires RowInv(r) && visits > 0
    ensures RowInv(VisitForSync(r, sendOk)) && Attended(VisitForSync(r, sendOk), visits - 1)
    ensures Rank(VisitForSync(r, sendOk), visits - 1) < Rank(r, visits)
  {}

  /** Any event keeps the invariant, leaves the command attended, and lowers the rank. */
  lemma ReplyKeepsRow(r: Row, visits: nat, reply: Reply, sendOk: bool)
    requires RowInv(r) && Assigned(r.node) && Attended(r, visits)
    requires if OfSet(reply) then r.sets > 0 else r.gets > 0
    ensures var r' := OnReply(r, reply, sendOk);
            && RowInv(r') && Attended(r', visits)
            && Rank(r', visits) < Rank(r, visits)
            && (reply.GetStatus? && !r'.slot.inFlight ==> Rank(r', visits) + 9 <= Rank(r, visits))
            && r'.node == (match reply
                           case GetStatus(p) => r.node.(onoff := p)
                           case SetStatus(p) => r.node.(onoff := p)
                           case _ => r.node)
  {}
}
