/** Desired-state commands for devices and groups, and the automations that reported updates
    set off. */
module GroupCommands {
  import opened Common
  import opened Decimal
  import opened JsonMerge
  import opened CloudTables

  datatype CommandResult = CommandResult(device: string, changed: bool, published: bool, found: bool)

  /** The publisher is called only for a change; `up` is its answer. */
  function ApplyDesired(c: Cloud, device: string, state: Fields, id: Option<string>, up: bool): (CommandResult, Cloud) {
    var (outcome, c') := UpdateDesired(c, device, state, id);
    match outcome
    case NotFound => (CommandResult(device, false, false, false), c')
    case Unchanged => (CommandResult(device, false, false, true), c')
    case Changed => (CommandResult(device, true, up, true), c'.(published := c'.published + [(device, state)]))
  }

  /** A group command deduplicates member by member, on the position in the member list. */
  function ScopedId(id: Option<string>, index: nat): Option<string> {
    if id.None? then None else Some(id.value + ":" + Dec(index))
  }

  /** The command given to the first `n` members. */
  function GroupUpTo(c: Cloud, members: seq<string>, state: Fields, id: Option<string>, up: bool, n: nat): (r: (seq<CommandResult>, Cloud))
    requires n <= |members|
    ensures |r.0| == n
  {
    if n == 0 then ([], c)
    else
      var (results, c1) := GroupUpTo(c, members, state, id, up, n - 1);
      var (result, c2) := ApplyDesired(c1, members[n - 1], state, ScopedId(id, n - 1), up);
      (results + [result], c2)
  }

  function CommandGroup(c: Cloud, members: seq<string>, state: Fields, id: Option<string>, up: bool): (seq<CommandResult>, Cloud) {
    GroupUpTo(c, members, state, id, up, |members|)
  }

  /** Position `i` takes effect: the member exists, and its scoped id is new. */
  predicate Effective(c: Cloud, members: seq<string>, id: Option<string>, i: nat)
    requires i < |members|
  {
    members[i] in c.shadows && !Processed(c, Desired, ScopedId(id, i))
  }

  lemma ScopedIdsDiffer(id: Option<string>, i: nat, j: nat)
    requires id.Some? && i != j
    ensures ScopedId(id, i) != ScopedId(id, j)
  {
    if ScopedId(id, i) == ScopedId(id, j) {
      var prefix := id.value + ":";
      assert (prefix + Dec(i))[|prefix|..] == Dec(i);
      assert (prefix + Dec(j))[|prefix|..] == Dec(j);
      DecInjective(i, j);
    }
  }

  /** The published calls of a group command: one for each effective position, in order. */
  function PublishedBy(c: Cloud, members: seq<string>, state: Fields, id: Option<string>, n: nat): seq<(string, Fields)>
    requires n <= |members|
  {
    if n == 0 then []
    else
      var before := PublishedBy(c, members, state, id, n - 1);
      if Effective(c, members, id, n - 1) then before + [(members[n - 1], state)] else before
  }

  /** What one member's command does to the store. */
  lemma OneCommand(c: Cloud, device: string, state: Fields, id: Option<string>, up: bool)
    ensures var (result, c') := ApplyDesired(c, device, state, id, up);
            var effective := device in c.shadows && !Processed(c, Desired, id);
            && result == CommandResult(device, effective, effective && up, device in c.shadows)
            && c' == c.(shadows := if effective then c.shadows[device := WithDesired(c.shadows[device], state)] else c.shadows,
                        processed := if effective && id.Some? then c.processed + {(Desired, id.value)} else c.processed,
                        published := if effective then c.published + [(device, state)] else c.published)
  {}

  /** The ids a group command leaves processed are those it found and those of its members. */
  lemma {:induction false} GroupIds(c: Cloud, members: seq<string>, state: Fields, id: Option<string>, up: bool, n: nat)
    requires n <= |members|
    ensures var c' := GroupUpTo(c, members, state, id, up, n).1;
            && c'.shadows.Keys == c.shadows.Keys && c.processed <= c'.processed
            && (forall p :: p in c'.processed && p !in c.processed ==>
                  id.Some? && exists i :: 0 <= i < n && p == (Desired, ScopedId(id, i).value))
            && (forall i :: 0 <= i < n && id.Some? && members[i] in c.shadows ==> (Desired, ScopedId(id, i).value) in c'.processed)
            && c'.(shadows := c.shadows, processed := c.processed, published := c.published) == c
  {
    if n > 0 {
      GroupIds(c, members, state, id, up, n - 1);
      OneCommand(GroupUpTo(c, members, state, id, up, n - 1).1, members[n - 1], state, ScopedId(id, n - 1), up);
    }
  }

  /** No earlier member uses up a later member's id. */
  lemma NextIsFresh(c: Cloud, members: seq<string>, state: Fields, id: Option<string>, up: bool, n: nat)
    requires n < |members|
    ensures var c' := GroupUpTo(c, members, state, id, up, n).1;
            Processed(c', Desired, ScopedId(id, n)) <==> Processed(c, Desired, ScopedId(id, n))
  {
    GroupIds(c, members, state, id, up, n);
    if id.Some? {
      forall j | 0 <= j < n ensures ScopedId(id, j) != ScopedId(id, n) { ScopedIdsDiffer(id, j, n); }
    }
  }

  /** Position `i` takes effect exactly if it is effective. */
  lemma {:induction false} GroupResults(c: Cloud, members: seq<string>, state: Fields, id: Option<string>, up: bool, n: nat, i: nat)
    requires i < n <= |members|
    ensures GroupUpTo(c, members, state, id, up, n).0[i] == ResultAt(c, members, id, up, i)
  {
    if i == n - 1 {
      NextResult(c, members, state, id, up, i);
    } else {
      GroupResults(c, members, state, id, up, n - 1, i);
    }
  }

  /** The effective positions are published, in order. */
  lemma {:induction false} GroupPublished(c: Cloud, members: seq<string>, state: Fields, id: Option<string>, up: bool, n: nat)
    requires n <= |members|
    ensures GroupUpTo(c, members, state, id, up, n).1.published == c.published + PublishedBy(c, members, state, id, n)
  {
    if n > 0 {
      GroupPublished(c, members, state, id, up, n - 1);
      NextResult(c, members, state, id, up, n - 1);
    }
  }

  function ResultAt(c: Cloud, members: seq<string>, id: Option<string>, up: bool, i: nat): CommandResult
    requires i < |members|
  {
    var effective := Effective(c, members, id, i);
    CommandResult(members[i], effective, effective && up, members[i] in c.shadows)
  }

  lemma NextResult(c: Cloud, members: seq<string>, state: Fields, id: Option<string>, up: bool, n: nat)
    requires n < |members|
    ensures var c1 := GroupUpTo(c, members, state, id, up, n).1;
            var (result, c2) := ApplyDesired(c1, members[n], state, ScopedId(id, n), up);
            && result == ResultAt(c, members, id, up, n)
            && c2.published == if Effective(c, members, id, n) then c1.published + [(members[n], state)] else c1.published
  {
    GroupIds(c, members, state, id, up, n);
    NextIsFresh(c, members, state, id, up, n);
    OneCommand(GroupUpTo(c, members, state, id, up, n).1, members[n], state, ScopedId(id, n), up);
  }

  lemma {:induction false} BystanderStays(c: Cloud, members: seq<string>, state: Fields, id: Option<string>, up: bool, n: nat, d: string)
    requires n <= |members| && d in c.shadows && forall i :: 0 <= i < n ==> members[i] != d
    ensures var c' := GroupUpTo(c, members, state, id, up, n).1;
            d in c'.shadows && c'.shadows[d] == c.shadows[d]
  {
    if n > 0 {
      BystanderStays(c, members, state, id, up, n - 1, d);
      OneCommand(GroupUpTo(c, members, state, id, up, n - 1).1, members[n - 1], state, ScopedId(id, n - 1), up);
    }
  }

  /** Each effective member's desired state is patched, once. */
  lemma {:induction false} MemberShadow(c: Cloud, members: seq<string>, state: Fields, id: Option<string>, up: bool, n: nat, i: nat)
    requires i < n <= |members| && members[i] in c.shadows
    requires forall j, k :: 0 <= j < k < |members| ==> members[j] != members[k]
    ensures var c' := GroupUpTo(c, members, state, id, up, n).1; var s := c.shadows[members[i]];
            && members[i] in c'.shadows
            && c'.shadows[members[i]] == if Effective(c, members, id, i) then WithDesired(s, state) else s
  {
    OneCommand(GroupUpTo(c, members, state, id, up, n - 1).1, members[n - 1], state, ScopedId(id, n - 1), up);
    if i == n - 1 {
      BystanderStays(c, members, state, id, up, n - 1, members[i]);
      NextIsFresh(c, members, state, id, up, n - 1);
    } else {
      MemberShadow(c, members, state, id, up, n - 1, i);
    }
  }

  /** Replaying a group command, by then with any state and on any later store, changes and
      publishes nothing for the positions the first delivery had; only positions past its
      member list can take effect. */
  lemma ReplayTouchesOnlyNewPositions(c: Cloud, members: seq<string>, state: Fields, id: string, up: bool,
                                      later: Cloud, members': seq<string>, state': Fields, up': bool)
    requires forall i :: 0 <= i < |members| ==> members[i] in c.shadows
    requires CommandGroup(c, members, state, Some(id), up).1.processed <= later.processed
    ensures var (results, after) := CommandGroup(later, members', state', Some(id), up');
            && (forall i :: 0 <= i < |members'| ==>
                  (results[i].changed <==> members'[i] in later.shadows && i >= |members|
                                           && (Desired, ScopedId(Some(id), i).value) !in later.processed))
            && (|members'| <= |members| ==> after == later)
  {
    GroupIds(c, members, state, Some(id), up, |members|);
    forall i | 0 <= i < |members'|
      ensures CommandGroup(later, members', state', Some(id), up').0[i] == ResultAt(later, members', Some(id), up', i)
    {
      GroupResults(later, members', state', Some(id), up', |members'|, i);
    }
    if |members'| <= |members| {
      ReplayStays(later, members', state', id, up', |members'|);
    }
  }

  lemma {:induction false} ReplayStays(c: Cloud, members: seq<string>, state: Fields, id: string, up: bool, n: nat)
    requires n <= |members| && forall i :: 0 <= i < n ==> (Desired, ScopedId(Some(id), i).value) in c.processed
    ensures GroupUpTo(c, members, state, Some(id), up, n).1 == c
  {
    if n > 0 {
      ReplayStays(c, members, state, id, up, n - 1);
      OneCommand(c, members[n - 1], state, ScopedId(Some(id), n - 1), up);
    }
  }

  // --- Automations -------------------------------------------------------------------------

  /** Equality as the automation engine tests it: a boolean equals the number it stands for. */
  predicate SameJson(a: Json, b: Json)
    decreases a
  {
    match a
    case Bool(x) => b == a || (b.Number? && b.n == if x then 1.0 else 0.0)
    case Number(x) => b == a || (b.Bool? && x == if b.b then 1.0 else 0.0)
    case Array(xs) => b.Array? && |xs| == |b.items| && forall i :: 0 <= i < |xs| ==> SameJson(xs[i], b.items[i])
    case Object(m) => b.Object? && m.Keys == b.fields.Keys && forall k :: k in m ==> SameJson(m[k], b.fields[k])
    case _ => a == b
  }

  /** A value with every boolean read as the number it stands for. */
  function Numeric(j: Json): Json
    decreases j
  {
    match j
    case Bool(b) => Number(if b then 1.0 else 0.0)
    case Array(items) => Array(seq(|items|, i requires 0 <= i < |items| => Numeric(items[i])))
    case Object(m) => Object(map k | k in m :: Numeric(m[k]))
    case _ => j
  }

  /** The engine's equality is equality of values read that way, at every depth. */
  lemma {:induction false} SameJsonIsNumeric(a: Json, b: Json)
    ensures SameJson(a, b) <==> Numeric(a) == Numeric(b)
    decreases a
  {
    match a {
      case Array(xs) =>
        if b.Array? && |xs| == |b.items| {
          forall i | 0 <= i < |xs| ensures SameJson(xs[i], b.items[i]) <==> Numeric(xs[i]) == Numeric(b.items[i]) {
            SameJsonIsNumeric(xs[i], b.items[i]);
          }
          SameItems(xs, b.items, Numeric(a).items, Numeric(b).items);
        } else if b.Array? {
          assert |Numeric(a).items| == |xs| && |Numeric(b).items| == |b.items|;
        }
      case Object(m) =>
        if b.Object? {
          assert Numeric(a).fields.Keys == m.Keys && Numeric(b).fields.Keys == b.fields.Keys;
          forall k | k in m && k in b.fields ensures SameJson(m[k], b.fields[k]) <==> Numeric(m[k]) == Numeric(b.fields[k]) {
            SameJsonIsNumeric(m[k], b.fields[k]);
          }
          if Numeric(a) == Numeric(b) {
            forall k | k in m ensures k in b.fields && SameJson(m[k], b.fields[k]) {
              assert Numeric(a).fields[k] == Numeric(b).fields[k];
            }
          }
        }
      case _ =>
    }
  }

  /** Of plain values: a boolean fits itself and the number it stands for, anything else
      fits itself only. */
  lemma PlainValuesCompare(b: bool, x: real, s: string, other: Json)
    ensures SameJson(other, Bool(b)) <==> other == Bool(b) || other == Number(if b then 1.0 else 0.0)
    ensures SameJson(other, Number(x)) <==> other == Number(x) || (x == 1.0 && other == Bool(true)) || (x == 0.0 && other == Bool(false))
    ensures SameJson(other, Text(s)) <==> other == Text(s)
    ensures SameJson(other, Null) <==> other == Null
  {}

  lemma SameItems(xs: seq<Json>, ys: seq<Json>, xs': seq<Json>, ys': seq<Json>)
    requires |xs| == |ys| == |xs'| == |ys'|
    requires forall i :: 0 <= i < |xs| ==> (SameJson(xs[i], ys[i]) <==> xs'[i] == ys'[i])
    ensures (forall i :: 0 <= i < |xs| ==> SameJson(xs[i], ys[i])) <==> xs' == ys'
  {
    if xs' != ys' {
      assert exists i :: 0 <= i < |xs'| && xs'[i] != ys'[i];
    }
  }

  predicate Triggered(a: Automation, reported: Fields) {
    a.field in reported && SameJson(reported[a.field], a.value)
  }

  function ApplyActions(c: Cloud, actions: seq<(string, Fields)>, up: bool): Cloud {
    if actions == [] then c
    else
      var last := actions[|actions| - 1];
      ApplyDesired(ApplyActions(c, actions[..|actions| - 1], up), last.0, last.1, None, up).1
  }

  /** An action on a group or scene that no longer exists raises an error. */
  function RunAction(c: Cloud, action: Action, up: bool): Option<Cloud> {
    match action
    case OnDevice(d, state) => Some(ApplyDesired(c, d, state, None, up).1)
    case OnGroup(g, state) => if g in c.groups then Some(CommandGroup(c, c.groups[g], state, None, up).1) else None
    case OnScene(s) => if s in c.scenes then Some(ApplyActions(c, c.scenes[s], up)) else None
  }

  /** Runs the first `n` automations in order; an error ends the run, but what was applied
      before it stays. The flag says whether all of them ran. */
  function RunUpTo(c: Cloud, automations: seq<Automation>, reported: Fields, up: bool, n: nat): (bool, Cloud)
    requires n <= |automations|
  {
    if n == 0 then (true, c)
    else
      var (ok, c1) := RunUpTo(c, automations, reported, up, n - 1);
      var a := automations[n - 1];
      if !ok || !Triggered(a, reported) then (ok, c1)
      else
        var c2 := RunAction(c1, a.action, up);
        if c2.None? then (false, c1) else (true, c2.value)
  }

  /** Once an automation raised an error, none of the later ones runs. */
  lemma {:induction false} RunStopped(c: Cloud, rules: seq<Automation>, reported: Fields, up: bool, i: nat, n: nat)
    requires i <= n <= |rules| && !RunUpTo(c, rules, reported, up, i).0
    ensures RunUpTo(c, rules, reported, up, n) == RunUpTo(c, rules, reported, up, i)
  {
    if i < n { RunStopped(c, rules, reported, up, i, n - 1); }
  }

  /** The automations of a device see the reported state as it was when they started. */
  function OnReported(c: Cloud, device: string, up: bool): (bool, Cloud) {
    if device !in c.automations || device !in c.shadows then (true, c)
    else
      RunUpTo(c, c.automations[device], c.shadows[device].reported, up, |c.automations[device]|)
  }

  // --- What a reported update sets off -----------------------------------------------------------

  /** The commands an action stands for, when its group or scene exists. */
  function CommandsOf(c: Cloud, action: Action): seq<(string, Fields)> {
    match action
    case OnDevice(d, state) => [(d, state)]
    case OnGroup(g, state) => if g in c.groups then seq(|c.groups[g]|, i requires 0 <= i < |c.groups[g]| => (c.groups[g][i], state)) else []
    case OnScene(s) => if s in c.scenes then c.scenes[s] else []
  }

  predicate Runs(c: Cloud, action: Action) {
    (action.OnGroup? ==> action.group in c.groups) && (action.OnScene? ==> action.scene in c.scenes)
  }

  function KnownOnly(known: set<string>, commands: seq<(string, Fields)>): seq<(string, Fields)> {
    if commands == [] then []
    else
      var before := KnownOnly(known, commands[..|commands| - 1]);
      if commands[|commands| - 1].0 in known then before + [commands[|commands| - 1]] else before
  }

  /** The commands of the first `n` automations that are triggered. */
  function TriggeredCommands(c: Cloud, automations: seq<Automation>, reported: Fields, n: nat): seq<(string, Fields)>
    requires n <= |automations|
  {
    if n == 0 then []
    else
      var before := TriggeredCommands(c, automations, reported, n - 1);
      var a := automations[n - 1];
      if Triggered(a, reported) then before + KnownOnly(c.shadows.Keys, CommandsOf(c, a.action)) else before
  }

  lemma {:induction false} GroupPublishes(c: Cloud, group: seq<string>, state: Fields, commands: seq<(string, Fields)>, n: nat)
    requires n <= |group| == |commands| && forall i :: 0 <= i < |group| ==> commands[i] == (group[i], state)
    ensures PublishedBy(c, group, state, None, n) == KnownOnly(c.shadows.Keys, commands[..n])
  {
    if n > 0 {
      GroupPublishes(c, group, state, commands, n - 1);
      assert commands[..n][..n - 1] == commands[..n - 1];
    }
  }

  lemma {:induction false} ScenePublishes(c: Cloud, actions: seq<(string, Fields)>, up: bool)
    ensures ApplyActions(c, actions, up).shadows.Keys == c.shadows.Keys
    ensures ApplyActions(c, actions, up).published == c.published + KnownOnly(c.shadows.Keys, actions)
  {
    if actions != [] {
      var init, last := actions[..|actions| - 1], actions[|actions| - 1];
      ScenePublishes(c, init, up);
      OneCommand(ApplyActions(c, init, up), last.0, last.1, None, up);
    }
  }

  lemma ActionPublishes(c: Cloud, action: Action, up: bool)
    ensures RunAction(c, action, up).Some? <==> Runs(c, action)
    ensures Runs(c, action) ==>
              RunAction(c, action, up).value.published == c.published + KnownOnly(c.shadows.Keys, CommandsOf(c, action))
  {
    match action {
      case OnDevice(d, state) =>
        OneCommand(c, d, state, None, up);
        assert [(d, state)][..0] == [];
      case OnGroup(g, state) =>
        if g in c.groups {
          var group, commands := c.groups[g], CommandsOf(c, action);
          GroupPublished(c, group, state, None, up, |group|);
          GroupPublishes(c, group, state, commands, |group|);
          assert commands[..|group|] == commands;
        }
      case OnScene(s) =>
        if s in c.scenes { ScenePublishes(c, c.scenes[s], up); }
    }
  }

  lemma LaterActionPublishes(c: Cloud, c': Cloud, action: Action, up: bool)
    requires OnlyDesiredDiffers(c, c')
    ensures RunAction(c', action, up).Some? <==> Runs(c, action)
    ensures Runs(c, action) ==>
              RunAction(c', action, up).value.published == c'.published + KnownOnly(c.shadows.Keys, CommandsOf(c, action))
  {
    assert Runs(c', action) == Runs(c, action) && CommandsOf(c', action) == CommandsOf(c, action);
    ActionPublishes(c', action, up);
  }

  /** The automations run to the end exactly if every triggered one has its group or scene,
      and what is then published is exactly their commands to known devices, in order. */
  lemma {:induction false} AutomationsPublishExactly(c: Cloud, automations: seq<Automation>, reported: Fields, up: bool, n: nat)
    requires n <= |automations|
    ensures var (ok, c') := RunUpTo(c, automations, reported, up, n);
            && (ok <==> forall i :: 0 <= i < n && Triggered(automations[i], reported) ==> Runs(c, automations[i].action))
            && (ok ==> c'.published == c.published + TriggeredCommands(c, automations, reported, n))
  {
    if n > 0 {
      AutomationsPublishExactly(c, automations, reported, up, n - 1);
      RunTouchesDesired(c, automations, reported, up, n - 1);
      LaterActionPublishes(c, RunUpTo(c, automations, reported, up, n - 1).1, automations[n - 1].action, up);
    }
  }

  /** Two stores that differ in desired state and published calls only. */
  ghost predicate OnlyDesiredDiffers(a: Cloud, b: Cloud) {
    && a.shadows.Keys == b.shadows.Keys
    && (forall d :: d in a.shadows ==>
          b.shadows[d].(desired := a.shadows[d].desired, desiredVersion := a.shadows[d].desiredVersion,
                        version := a.shadows[d].version) == a.shadows[d]
          && b.shadows[d].version - b.shadows[d].desiredVersion == a.shadows[d].version - a.shadows[d].desiredVersion)
    && b.(shadows := a.shadows, published := a.published) == a
  }

  lemma ApplyTouchesDesired(c: Cloud, device: string, state: Fields, up: bool)
    ensures OnlyDesiredDiffers(c, ApplyDesired(c, device, state, None, up).1)
  {}

  lemma DesiredDiffersChain(a: Cloud, b: Cloud, c: Cloud)
    requires OnlyDesiredDiffers(a, b) && OnlyDesiredDiffers(b, c)
    ensures OnlyDesiredDiffers(a, c)
  {}

  lemma {:induction false} GroupTouchesDesired(c: Cloud, members: seq<string>, state: Fields, up: bool, n: nat)
    requires n <= |members|
    ensures OnlyDesiredDiffers(c, GroupUpTo(c, members, state, None, up, n).1)
  {
    if n > 0 {
      GroupTouchesDesired(c, members, state, up, n - 1);
      var c1 := GroupUpTo(c, members, state, None, up, n - 1).1;
      ApplyTouchesDesired(c1, members[n - 1], state, up);
      DesiredDiffersChain(c, c1, GroupUpTo(c, members, state, None, up, n).1);
    }
  }

  lemma {:induction false} ActionsTouchDesired(c: Cloud, actions: seq<(string, Fields)>, up: bool)
    ensures OnlyDesiredDiffers(c, ApplyActions(c, actions, up))
  {
    if actions != [] {
      var init, last := actions[..|actions| - 1], actions[|actions| - 1];
      ActionsTouchDesired(c, init, up);
      ApplyTouchesDesired(ApplyActions(c, init, up), last.0, last.1, up);
      DesiredDiffersChain(c, ApplyActions(c, init, up), ApplyActions(c, actions, up));
    }
  }

  lemma {:induction false} RunTouchesDesired(c: Cloud, automations: seq<Automation>, reported: Fields, up: bool, n: nat)
    requires n <= |automations|
    ensures OnlyDesiredDiffers(c, RunUpTo(c, automations, reported, up, n).1)
  {
    if n > 0 {
      RunTouchesDesired(c, automations, reported, up, n - 1);
      var (ok, c1) := RunUpTo(c, automations, reported, up, n - 1);
      var action := automations[n - 1].action;
      if RunAction(c1, action, up).Some? {
        match action {
          case OnDevice(d, state) => ApplyTouchesDesired(c1, d, state, up);
          case OnGroup(g, state) => GroupTouchesDesired(c1, c1.groups[g], state, up, |c1.groups[g]|);
          case OnScene(s) => ActionsTouchDesired(c1, c1.scenes[s], up);
        }
        DesiredDiffersChain(c, c1, RunAction(c1, action, up).value);
      }
    }
  }

  /** Whatever the automations do, they leave every reported state, the event log and the
      record of processed messages alone. */
  lemma AutomationsTouchOnlyDesired(c: Cloud, device: string, up: bool)
    ensures OnlyDesiredDiffers(c, OnReported(c, device, up).1)
  {
    if device in c.automations && device in c.shadows {
      RunTouchesDesired(c, c.automations[device], c.shadows[device].reported, up, |c.automations[device]|);
    }
  }
}
