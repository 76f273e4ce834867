/** What every run of the gateway guarantees: acknowledgements, progress, and the exact
    number of Set requests one command can cost. */
module MeshGuarantees {
  import opened Common
  import opened MeshNodes
  import opened MeshRow
  import opened MeshProtocol

  // --- Safety ---------------------------------------------------------------------------

  /** In every reachable state: a command in flight is owed a reply or a sync visit, a free
      slot is zero, retry counters stay within three, commands are conserved, no id is
      acknowledged more often than accepted, and Set requests stay within budget. */
  lemma ReachableRow(nodes: seq<Node>, steps: seq<Step>, i: nat, id: string)
    requires TableOk(nodes) && Runnable(Boot(nodes), steps) && i < |Run(Boot(nodes), steps).rows|
    ensures var m := Run(Boot(nodes), steps); var r := m.rows[i];
            && (r.slot.inFlight ==> r.sets > 0 || r.gets > 0 || exists t :: 0 <= t < |m.syncs| && m.syncs[t] <= i)
            && (!r.slot.inFlight ==> r.slot == IDLE)
            && r.slot.retries <= MAX_RETRIES && r.getRetries <= MAX_RETRIES
            && Orderly(r.log)
            && Accepts(r.log) == Acks(r.log) + Drops(r.log) + (if r.slot.inFlight then 1 else 0)
            && AcksOf(r.log, id) <= AcceptsOf(r.log, id)
            && SetsSince(r.log) <= 4 * (MismatchesSince(r.log) + 1)
  {
    BootInv(nodes);
    RunKeepsInv(Boot(nodes), steps);
    var m := Run(Boot(nodes), steps);
    NothingLost(m.rows[i].log);
    AckedAtMostOnce(m.rows[i].log, id);
    DueMeansTask(m.syncs, i);
  }

  lemma {:induction false} DueMeansTask(syncs: seq<nat>, i: nat)
    ensures Due(syncs, i) > 0 <==> exists t :: 0 <= t < |syncs| && syncs[t] <= i
  {
    if syncs != [] {
      var n := |syncs| - 1;
      DueMeansTask(syncs[..n], i);
      if Due(syncs[..n], i) > 0 {
        var t :| 0 <= t < n && syncs[..n][t] <= i;
        assert syncs[t] <= i;
      }
      if t :| 0 <= t < |syncs| && syncs[t] <= i && t < n { assert syncs[..n][t] <= i; }
    }
  }

  // --- Progress ---------------------------------------------------------------------------

  /** Steps that only work off what is outstanding: no new command and no new poll. */
  predicate Reactive(s: Step) { s.Visit? || s.Event? }

  predicate AllReactive(steps: seq<Step>) { forall k :: 0 <= k < |steps| ==> Reactive(steps[k]) }

  ghost function RowRank(m: Mesh, i: nat): nat
    requires Inv(m) && i < |m.rows|
  {
    Rank(m.rows[i], Due(m.syncs, i))
  }

  function Sum(ranks: seq<nat>): nat {
    if ranks == [] then 0 else Sum(ranks[..|ranks| - 1]) + ranks[|ranks| - 1]
  }

  ghost function Ranks(m: Mesh): (r: seq<nat>)
    requires Inv(m)
    ensures |r| == |m.rows| && forall i :: 0 <= i < |r| ==> r[i] == RowRank(m, i)
  {
    seq(|m.rows|, i requires 0 <= i < |m.rows| => RowRank(m, i))
  }

  ghost function TotalRank(m: Mesh): nat
    requires Inv(m)
  {
    Sum(Ranks(m))
  }

  /** The row a reactive step works on. */
  ghost function Target(m: Mesh, s: Step): nat
    requires Reactive(s) && Enabled(m, s)
  {
    if s.Visit? then m.syncs[s.task] else s.from
  }

  lemma ReactiveStep(m: Mesh, s: Step)
    requires Inv(m) && Reactive(s) && Enabled(m, s)
    ensures Inv(Next(m, s)) && |Next(m, s).rows| == |m.rows| && Target(m, s) < |m.rows|
    ensures RowRank(Next(m, s), Target(m, s)) < RowRank(m, Target(m, s))
    ensures forall j :: 0 <= j < |m.rows| && j != Target(m, s) ==> RowRank(Next(m, s), j) == RowRank(m, j)
  {
    match s
    case Visit(t, ok) => VisitKeepsInv(m, t, ok);
    case Event(i, reply, ok, toggleOk) => EventKeepsInv(m, i, reply, ok, toggleOk);
  }

  lemma {:induction false} SumDrops(before: seq<nat>, after: seq<nat>, i: nat)
    requires |after| == |before| && i < |before| && after[i] < before[i]
    requires forall j :: 0 <= j < |before| && j != i ==> after[j] == before[j]
    ensures Sum(after) < Sum(before)
  {
    var n := |before| - 1;
    if i == n {
      assert after[..n] == before[..n];
    } else {
      SumDrops(before[..n], after[..n], i);
    }
  }

  /** Nothing runs for ever: without new commands or polls, the number of further events and
      sync visits is bounded by the rank of the state. */
  lemma {:induction false} ReactiveRunIsBounded(m: Mesh, steps: seq<Step>)
    requires Inv(m) && Runnable(m, steps) && AllReactive(steps)
    ensures Inv(Run(m, steps)) && |Run(m, steps).rows| == |m.rows|
    ensures |steps| + TotalRank(Run(m, steps)) <= TotalRank(m)
    decreases |steps|
  {
    if steps != [] {
      var m1 := Next(m, steps[0]);
      ReactiveStep(m, steps[0]);
      SumDrops(Ranks(m), Ranks(m1), Target(m, steps[0]));
      assert AllReactive(steps[1..]);
      ReactiveRunIsBounded(m1, steps[1..]);
    }
  }

  // --- Progress of one row, whatever the others do ----------------------------------------------

  /** The step is an event of row `i`'s node or a sync visit to it. */
  predicate WorksOn(m: Mesh, s: Step, i: nat) {
    (s.Event? && s.from == i) || (s.Visit? && s.task < |m.syncs| && m.syncs[s.task] == i)
  }

  predicate Polls(s: Step, i: nat) { s.Poll? && s.row == i }

  /** While a row is in flight, only its own events, visits and polls reach it: commands are
      refused, and provisioning waits. */
  lemma StepSeenFromRow(m: Mesh, s: Step, i: nat)
    requires Inv(m) && Enabled(m, s) && i < |m.rows| && m.rows[i].slot.inFlight
    ensures Inv(Next(m, s)) && |Next(m, s).rows| == |m.rows|
    ensures WorksOn(m, s, i) ==> RowRank(Next(m, s), i) < RowRank(m, i)
    ensures Polls(s, i) ==> RowRank(Next(m, s), i) <= RowRank(m, i) + 15
    ensures !WorksOn(m, s, i) && !Polls(s, i) ==> Next(m, s).rows[i] == m.rows[i] && Due(Next(m, s).syncs, i) == Due(m.syncs, i)
  {
    StepKeepsInv(m, s);
    match s {
      case Bridge(deviceId, on, id, taskOk, setOk) => CommandSeenFromRow(m, deviceId, on, id, taskOk, setOk, i);
      case Provisioned(uuid, unicast, elemNum) => assert Nodes(m)[i] == m.rows[i].node;
      case Visit(t, ok) => VisitKeepsInv(m, t, ok);
      case Event(j, reply, ok, toggleOk) => EventKeepsInv(m, j, reply, ok, toggleOk);
      case _ =>
    }
  }

  /** While a row is in flight, group commands and its own are refused. */
  lemma CommandSeenFromRow(m: Mesh, deviceId: string, on: bool, id: string, taskOk: bool, sendOk: bool, i: nat)
    requires Inv(m) && i < |m.rows| && m.rows[i].slot.inFlight
    ensures var m' := BridgeCommand(m, deviceId, on, id, taskOk, sendOk).1;
            m'.syncs == m.syncs && |m'.rows| == |m.rows| && m'.rows[i] == m.rows[i]
  {
    assert RowInv(m.rows[i]);
    if deviceId == "*" {
      assert Busy(m.rows);
    } else {
      BridgeCommandIsExact(m, deviceId, on, id, taskOk, sendOk);
    }
  }

  /** Row `i` is in flight in every state of the run. */
  ghost predicate StaysInFlight(m: Mesh, steps: seq<Step>, i: nat)
    requires Runnable(m, steps)
    decreases |steps|
  {
    && i < |m.rows| && m.rows[i].slot.inFlight
    && (steps == [] || StaysInFlight(Next(m, steps[0]), steps[1..], i))
  }

  ghost function WorkOn(m: Mesh, steps: seq<Step>, i: nat): nat
    requires Runnable(m, steps)
    decreases |steps|
  {
    if steps == [] then 0
    else WorkOn(Next(m, steps[0]), steps[1..], i) + if WorksOn(m, steps[0], i) then 1 else 0
  }

  function PollsOf(steps: seq<Step>, i: nat): nat {
    if steps == [] then 0 else PollsOf(steps[1..], i) + if Polls(steps[0], i) then 1 else 0
  }

  /** A row is resolved by its own events, in any run at all: whatever is commanded, polled
      or provisioned meanwhile, while the row stays in flight its events and visits stay four
      below the rank it started with, raised by fifteen for each poll of that row. */
  lemma {:induction false} RowResolvesByItsOwnEvents(m: Mesh, steps: seq<Step>, i: nat)
    requires Inv(m) && Runnable(m, steps) && StaysInFlight(m, steps, i)
    ensures Inv(Run(m, steps)) && |Run(m, steps).rows| == |m.rows|
    ensures WorkOn(m, steps, i) + RowRank(Run(m, steps), i) <= RowRank(m, i) + 15 * PollsOf(steps, i)
    ensures WorkOn(m, steps, i) + 4 <= RowRank(m, i) + 15 * PollsOf(steps, i)
    decreases |steps|
  {
    if steps != [] {
      StepSeenFromRow(m, steps[0], i);
      RowResolvesByItsOwnEvents(Next(m, steps[0]), steps[1..], i);
    }
  }

  // --- Whose answer an acknowledgement is --------------------------------------------------------

  /** The row holds a command whose Set is the only request outstanding, and no sync visit
      will ask for more. */
  ghost predicate AwaitsItsSet(m: Mesh, i: nat) {
    && i < |m.rows| && m.rows[i].slot.inFlight
    && m.rows[i].sets == 1 && m.rows[i].gets == 0 && Due(m.syncs, i) == 0
  }

  /** Such a command is answered on its Set: the row becomes quiet, or waits for a repeated
      Set, and it is acknowledged exactly by a Set status with its value. */
  lemma SetAnswered(m: Mesh, s: Step, i: nat)
    requires Inv(m) && AwaitsItsSet(m, i) && Enabled(m, s) && WorksOn(m, s, i)
    ensures Inv(Next(m, s)) && |Next(m, s).rows| == |m.rows|
    ensures var r, r' := m.rows[i], Next(m, s).rows[i];
            && s.Event? && OfSet(s.reply)
            && (Quiet(r') || (AwaitsItsSet(Next(m, s), i) && r'.slot.retries == r.slot.retries + 1 <= MAX_RETRIES))
            && (Acks(r'.log) == Acks(r.log) + 1 <==> s.reply == SetStatus(r.slot.desired))
  {
    if s.Visit? {
      DueAfterVisit(m.syncs, s.task, i);
      assert false;
    }
    ReplyFindsRow(m, i);
    EventKeepsInv(m, i, s.reply, s.sendOk, s.toggleOk);
    HowACommandEnds(m.rows[i], s.reply, s.sendOk);
  }

  /** In any run without a poll of its row, while the command is in flight its node's events
      only repeat its Set, one retry each: the fourth event at the latest ends it. */
  lemma {:induction false} DirectedCommandResolves(m: Mesh, i: nat, steps: seq<Step>)
    requires Inv(m) && AwaitsItsSet(m, i) && Runnable(m, steps)
    requires StaysInFlight(m, steps, i) && PollsOf(steps, i) == 0
    ensures Inv(Run(m, steps)) && AwaitsItsSet(Run(m, steps), i)
    ensures WorkOn(m, steps, i) + m.rows[i].slot.retries == Run(m, steps).rows[i].slot.retries <= MAX_RETRIES
    decreases |steps|
  {
    assert RowInv(m.rows[i]);
    if steps != [] {
      StepSeenFromRow(m, steps[0], i);
      if WorksOn(m, steps[0], i) { SetAnswered(m, steps[0], i); }
      DirectedCommandResolves(Next(m, steps[0]), i, steps[1..]);
    }
  }

  /** After `steps`, in which no poll of row `i` is started, step `s` acknowledges the command
      that row `i` holds in `m`. */
  ghost predicate AckedAfter(m: Mesh, steps: seq<Step>, s: Step, i: nat) {
    && Runnable(m, steps) && StaysInFlight(m, steps, i) && PollsOf(steps, i) == 0
    && i < |m.rows| && i < |Run(m, steps).rows|
    && Accepts(Run(m, steps).rows[i].log) == Accepts(m.rows[i].log)
    && Enabled(Run(m, steps), s) && i < |Next(Run(m, steps), s).rows|
    && Acks(Next(Run(m, steps), s).rows[i].log) > Acks(Run(m, steps).rows[i].log)
  }

  /** The acknowledging step is a status of a Set request, and no request is left that the
      status might not have been the answer to. */
  ghost predicate BySetAlone(m: Mesh, steps: seq<Step>, s: Step, i: nat)
    requires AckedAfter(m, steps, s, i)
  {
    && s.Event? && s.from == i && s.reply.SetStatus?
    && Next(Run(m, steps), s).rows[i].sets == 0 && Next(Run(m, steps), s).rows[i].gets == 0
  }

  ghost predicate AckedOnlyBySet(m: Mesh, i: nat) {
    forall steps, s :: AckedAfter(m, steps, s, i) ==> BySetAlone(m, steps, s, i)
  }

  /** When an acknowledgement shows that the node carried out the command: in every run
      without a poll of its row a command is acknowledged by a Set status that leaves nothing
      outstanding, if and only if its Set is the only request outstanding and every sync task
      has passed its row. */
  lemma AckShowsTheSetExactly(m: Mesh, i: nat)
    requires Inv(m) && i < |m.rows| && m.rows[i].slot.inFlight
    ensures AckedOnlyBySet(m, i) <==> m.rows[i].sets == 1 && m.rows[i].gets == 0 && Due(m.syncs, i) == 0
  {
    if AwaitsItsSet(m, i) {
      forall steps, s | AckedAfter(m, steps, s, i) ensures BySetAlone(m, steps, s, i) {
        var before := Run(m, steps);
        DirectedCommandResolves(m, i, steps);
        StepSeenFromRow(before, s, i);
        if WorksOn(before, s, i) { SetAnswered(before, s, i); }
      }
    } else {
      var steps, s := AckElsewhere(m, i);
      assert AckedAfter(m, steps, s, i);
    }
  }

  /** Seen when the command is given: its acknowledgement will show that it was carried out
      exactly for a command to one device, on a row with nothing outstanding and no sync
      visit due. A group command never gives that assurance. */
  lemma AssuredCommands(m: Mesh, deviceId: string, on: bool, id: string, taskOk: bool, sendOk: bool, i: nat)
    requires Inv(m) && i < |m.rows| && !m.rows[i].slot.inFlight
    requires BridgeCommand(m, deviceId, on, id, taskOk, sendOk).1.rows[i].slot.inFlight
    ensures var m' := BridgeCommand(m, deviceId, on, id, taskOk, sendOk).1;
            AckedOnlyBySet(m', i) <==> deviceId != "*" && Quiet(m.rows[i]) && Due(m.syncs, i) == 0
  {
    var m' := BridgeCommand(m, deviceId, on, id, taskOk, sendOk).1;
    assert Enabled(m, Bridge(deviceId, on, id, taskOk, sendOk));
    StepKeepsInv(m, Bridge(deviceId, on, id, taskOk, sendOk));
    AckShowsTheSetExactly(m', i);
    Outstanding(m, deviceId, on, id, taskOk, sendOk, i);
  }

  /** What an accepted command leaves outstanding on a row: a Set, or a sync visit. */
  lemma Outstanding(m: Mesh, deviceId: string, on: bool, id: string, taskOk: bool, sendOk: bool, i: nat)
    requires Inv(m) && i < |m.rows| && !m.rows[i].slot.inFlight
    requires BridgeCommand(m, deviceId, on, id, taskOk, sendOk).1.rows[i].slot.inFlight
    ensures var m' := BridgeCommand(m, deviceId, on, id, taskOk, sendOk).1; var toAll := deviceId == "*";
            && m'.rows[i].sets == m.rows[i].sets + (if toAll then 0 else 1) && m'.rows[i].gets == m.rows[i].gets
            && Due(m'.syncs, i) == Due(m.syncs, i) + (if toAll then 1 else 0)
  {
    DueAfterStart(m.syncs, i);
    if deviceId == "*" {
      GroupAllOrNothing(m, on, id, taskOk, sendOk);
    } else {
      BridgeCommandIsExact(m, deviceId, on, id, taskOk, sendOk);
    }
  }

  /** Otherwise some run acknowledges it on a Get status, or with a Set still outstanding. */
  lemma AckElsewhere(m: Mesh, i: nat) returns (steps: seq<Step>, s: Step)
    requires Inv(m) && i < |m.rows| && m.rows[i].slot.inFlight && !AwaitsItsSet(m, i)
    ensures AckedAfter(m, steps, s, i) && !BySetAlone(m, steps, s, i)
  {
    steps := [];
    if m.rows[i].gets == 0 && m.rows[i].sets <= 1 {
      DueMeansTask(m.syncs, i);
      var t :| 0 <= t < |m.syncs| && m.syncs[t] <= i;
      steps := VisitsUntil(m, t, i);
    }
    var before := Run(m, steps);
    var desired := before.rows[i].slot.desired;
    s := Event(i, if before.rows[i].gets > 0 then GetStatus(desired) else SetStatus(desired), true, false);
    MatchingStatusAcks(before, i, s.reply);
  }

  lemma MatchingStatusAcks(m: Mesh, i: nat, reply: Reply)
    requires Inv(m) && i < |m.rows| && m.rows[i].slot.inFlight && Enabled(m, Event(i, reply, true, false))
    requires reply == GetStatus(m.rows[i].slot.desired) || reply == SetStatus(m.rows[i].slot.desired)
    ensures var m' := Next(m, Event(i, reply, true, false));
            && |m'.rows| == |m.rows| && Acks(m'.rows[i].log) == Acks(m.rows[i].log) + 1
            && m'.rows[i].sets == m.rows[i].sets - (if OfSet(reply) then 1 else 0)
  {
    ReplyFindsRow(m, i);
  }

  /** A sync task that has not passed row `i` brings it a Get, visiting the rows before it. */
  lemma {:induction false} VisitsUntil(m: Mesh, t: nat, i: nat) returns (steps: seq<Step>)
    requires Inv(m) && i < |m.rows| && m.rows[i].slot.inFlight && t < |m.syncs| && m.syncs[t] <= i
    ensures Runnable(m, steps) && Inv(Run(m, steps)) && |Run(m, steps).rows| == |m.rows|
    ensures StaysInFlight(m, steps, i) && PollsOf(steps, i) == 0
    ensures Run(m, steps).rows[i].slot == m.rows[i].slot && Run(m, steps).rows[i].gets > 0
    ensures Accepts(Run(m, steps).rows[i].log) == Accepts(m.rows[i].log)
    decreases i - m.syncs[t]
  {
    var visit := Visit(t, true);
    var m1 := Next(m, visit);
    VisitKeepsInv(m, t, true);
    assert RowInv(m.rows[i]);
    var rest := [];
    if m.syncs[t] < i { rest := VisitsUntil(m1, t, i); }
    steps := [visit] + rest;
    assert steps[1..] == rest;
  }

  /** No deadlock: as long as a command is in flight, an event or a sync visit on or before
      its row can still happen. */
  lemma InFlightCanReact(m: Mesh, i: nat) returns (s: Step)
    requires Inv(m) && i < |m.rows| && m.rows[i].slot.inFlight
    ensures Reactive(s) && Enabled(m, s) && Target(m, s) <= i
  {
    var r := m.rows[i];
    DueMeansTask(m.syncs, i);
    if r.sets > 0 {
      s := Event(i, SetError, false, false);
    } else if r.gets > 0 {
      s := Event(i, GetError, false, false);
    } else {
      var t :| 0 <= t < |m.syncs| && m.syncs[t] <= i;
      s := Visit(t, false);
    }
  }

  /** Every command is resolved: a run of events and visits that can go no further, which any
      such run reaches within `TotalRank(m)` steps, leaves no command in flight, and each
      accepted command was acknowledged or dropped. */
  lemma ExhaustedRunResolvesAll(m: Mesh, steps: seq<Step>, i: nat)
    requires Inv(m) && Runnable(m, steps) && AllReactive(steps) && i < |m.rows|
    requires forall s :: Reactive(s) ==> !Enabled(Run(m, steps), s)
    ensures |steps| <= TotalRank(m) && i < |Run(m, steps).rows|
    ensures var r := Run(m, steps).rows[i]; !r.slot.inFlight && Accepts(r.log) == Acks(r.log) + Drops(r.log)
  {
    ReactiveRunIsBounded(m, steps);
    NothingLost(Run(m, steps).rows[i].log);
    if Run(m, steps).rows[i].slot.inFlight {
      var s := InFlightCanReact(Run(m, steps), i);
      assert false;
    }
  }

  /** The armed address toggles once: the first Get status from it starts a command for the
      opposite of what it shows, on a row that is free by then, and disarms. */
  lemma ToggleActsOnce(m: Mesh, i: nat, present: byte, sendOk: bool, toggleOk: bool)
    requires Inv(m) && Enabled(m, Event(i, GetStatus(present), sendOk, toggleOk))
    requires m.toggleAddr == m.rows[i].node.unicast
    ensures var m' := Next(m, Event(i, GetStatus(present), sendOk, toggleOk));
            var handled := OnReply(m.rows[i], GetStatus(present), sendOk);
            && m'.toggleAddr == UNASSIGNED
            && i < |m'.rows|
            && (forall k :: 0 <= k < |m.rows| && k != i ==> m'.rows[k] == m.rows[k]) && |m'.rows| == |m.rows|
            && m'.rows[i] == if handled.slot.inFlight || !toggleOk then handled
                             else var value := if present == 0 then 1 else 0;
                                  handled.(slot := Slot(true, value, 0, ""), sets := handled.sets + 1,
                                           log := Then(Then(handled.log, Accepted(value, "")), SetRequested(value)))
  {
    ReplyFindsRow(m, i);
    ReplyKeepsRow(m.rows[i], Due(m.syncs, i), GetStatus(present), sendOk);
  }

  // --- The two claims that fail ---------------------------------------------------------------

  lemma {:induction false} RunThen(m: Mesh, steps: seq<Step>, s: Step)
    requires Runnable(m, steps) && Enabled(Run(m, steps), s)
    ensures Runnable(m, steps + [s]) && Run(m, steps + [s]) == Next(Run(m, steps), s)
    decreases |steps|
  {
    if steps != [] {
      RunThen(Next(m, steps[0]), steps[1..], s);
      assert (steps + [s])[1..] == steps[1..] + [s];
    }
  }

  /** Row `i` is ready to show the worst case: its toggle is not armed and its own device id
      reaches it. */
  ghost predicate Testable(m: Mesh, i: nat) {
    && Inv(m) && i < |m.rows| && Assigned(m.rows[i].node)
    && m.toggleAddr != m.rows[i].node.unicast
    && FindDevice(m.rows, DeviceId(m.rows[i].node.uuid)) == i
  }

  /** A command for "on" that has used every retry, after `g` contradicting Get statuses. */
  ghost predicate Spent(m: Mesh, i: nat, g: nat) {
    && Inv(m) && i < |m.rows| && Assigned(m.rows[i].node)
    && m.toggleAddr != m.rows[i].node.unicast
    && var r := m.rows[i];
       && r.slot.inFlight && r.slot.desired == 1 && r.slot.retries == MAX_RETRIES && r.sets > 0
       && SetsSince(r.log) == 4 * (g + 1) && MismatchesSince(r.log) == g
  }

  lemma TimeoutOnce(m0: Mesh, steps: seq<Step>, i: nat) returns (more: seq<Step>)
    requires Runnable(m0, steps)
    requires var m := Run(m0, steps);
             && Inv(m) && i < |m.rows| && Assigned(m.rows[i].node) && m.toggleAddr != m.rows[i].node.unicast
             && m.rows[i].slot.inFlight && m.rows[i].slot.retries < MAX_RETRIES && m.rows[i].sets > 0
    ensures Runnable(m0, more) && Inv(Run(m0, more))
    ensures var m := Run(m0, steps); var r := m.rows[i];
            Run(m0, more) == m.(rows := m.rows[i :=
              r.(slot := r.slot.(retries := r.slot.retries + 1), log := Then(r.log, SetRequested(r.slot.desired)))])
  {
    var m := Run(m0, steps);
    var s := Event(i, SetTimeout, true, true);
    ReplyFindsRow(m, i);
    EventKeepsInv(m, i, SetTimeout, true, true);
    RunThen(m0, steps, s);
    more := steps + [s];
  }

  lemma TimeoutThrice(m0: Mesh, steps: seq<Step>, i: nat, g: nat) returns (more: seq<Step>)
    requires Runnable(m0, steps)
    requires var m := Run(m0, steps);
             && Inv(m) && i < |m.rows| && Assigned(m.rows[i].node) && m.toggleAddr != m.rows[i].node.unicast
             && m.rows[i].slot.inFlight && m.rows[i].slot.desired == 1 && m.rows[i].slot.retries == 0
             && m.rows[i].sets > 0
             && SetsSince(m.rows[i].log) == 4 * g + 1 && MismatchesSince(m.rows[i].log) == g
    ensures Runnable(m0, more) && Spent(Run(m0, more), i, g)
  {
    var a := TimeoutOnce(m0, steps, i);
    var b := TimeoutOnce(m0, a, i);
    more := TimeoutOnce(m0, b, i);
  }

  /** The budget is exact: for every `g` some run has one command send `4 * (g + 1)` Set
      requests after `g` contradicting Get statuses. So "at most four Sets per command"
      holds for commands no Get status contradicts (`ReachableRow` with g = 0), and already
      one contradiction allows eight. */
  lemma {:induction false} BudgetIsReached(m: Mesh, i: nat, g: nat) returns (steps: seq<Step>)
    requires Testable(m, i) && Quiet(m.rows[i])
    ensures Runnable(m, steps) && Spent(Run(m, steps), i, g)
  {
    if g == 0 {
      var s := Bridge(DeviceId(m.rows[i].node.uuid), true, "", true, true);
      FirstSet(m, i);
      assert Run(m, [s]) == Next(m, s);
      steps := TimeoutThrice(m, [s], i, 0);
    } else {
      var before := BudgetIsReached(m, i, g - 1);
      var poll, seen := Poll(i, true), Event(i, GetStatus(0), true, true);
      Contradicted(Run(m, before), i, g - 1);
      RunThen(m, before, poll);
      RunThen(m, before + [poll], seen);
      steps := TimeoutThrice(m, before + [poll] + [seen], i, g);
    }
  }

  lemma FirstSet(m: Mesh, i: nat)
    requires Testable(m, i) && Quiet(m.rows[i])
    ensures var m1 := Next(m, Bridge(DeviceId(m.rows[i].node.uuid), true, "", true, true)); var r := SendSet(Accept(m.rows[i], true, ""), true);
            Inv(m1) && m1 == m.(rows := m.rows[i := r]) && r.slot.retries == 0 && r.slot.desired == 1
  {
    assert DeviceId(m.rows[i].node.uuid)[0] == 'n';
    CommandRowKeepsInv(m, i, true, "", true);
  }

  /** A poll answered by the other value starts the retries afresh. */
  lemma Contradicted(m: Mesh, i: nat, g: nat)
    requires Spent(m, i, g)
    ensures var poll, seen := Poll(i, true), Event(i, GetStatus(0), true, true);
            && Enabled(m, poll) && Enabled(Next(m, poll), seen)
            && var m2 := Next(Next(m, poll), seen);
               && Inv(m2) && i < |m2.rows| && Assigned(m2.rows[i].node) && m2.toggleAddr != m2.rows[i].node.unicast
               && var r := m2.rows[i];
                  && r.slot.inFlight && r.slot.desired == 1 && r.slot.retries == 0 && r.sets > 0
                  && SetsSince(r.log) == 4 * (g + 1) + 1 && MismatchesSince(r.log) == g + 1
  {
    var m1 := Next(m, Poll(i, true));
    StepKeepsInv(m, Poll(i, true));
    ReplyFindsRow(m1, i);
    EventKeepsInv(m1, i, GetStatus(0), true, true);
  }

  /** An acknowledgement does not show that the node carried out this command: a Get asked
      before the command was accepted acknowledges it while its own Set is unanswered. */
  lemma AckMayPrecedeTheSet(m: Mesh, i: nat, id: string) returns (steps: seq<Step>)
    requires Testable(m, i) && Quiet(m.rows[i])
    ensures Runnable(m, steps) && i < |Run(m, steps).rows|
    ensures var r := Run(m, steps).rows[i];
            r.log == Then(Then(Then(Then(m.rows[i].log, GetRequested), Accepted(1, Truncated(id))), SetRequested(1)),
                          Acked(1, Truncated(id)))
            && r.sets == 1 && r.gets == 0
  {
    var deviceId := DeviceId(m.rows[i].node.uuid);
    assert deviceId[0] == 'n';
    var poll := Poll(i, true);
    StepKeepsInv(m, poll);
    var m1 := Next(m, poll);
    assert FindDevice(m1.rows, deviceId) == i;
    var command := Bridge(deviceId, true, id, true, true);
    StepKeepsInv(m1, command);
    var m2 := Next(m1, command);
    var seen := Event(i, GetStatus(1), true, true);
    ReplyFindsRow(m2, i);
    assert Run(m, [poll]) == m1;
    RunThen(m, [poll], command);
    RunThen(m, [poll] + [command], seen);
    steps := [poll] + [command] + [seen];
  }
}
