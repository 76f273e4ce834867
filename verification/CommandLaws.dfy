/** What group commands and automations do, in terms of what was asked for: which commands a
    group command gives under a new message id, and which automations a report sets off. */
module CommandLaws {
  import opened Common
  import opened Decimal
  import opened JsonMerge
  import opened CloudTables
  import opened GroupCommands

  // --- Scoped ids ---------------------------------------------------------------------------

  lemma {:induction false} LastColon(a: string, b: string, s: string, t: string)
    requires a + ":" + s == b + ":" + t
    requires (forall k :: 0 <= k < |s| ==> s[k] != ':') && (forall k :: 0 <= k < |t| ==> t[k] != ':')
    ensures a == b && s == t
  {
    var whole := a + ":" + s;
    assert whole[|a|] == ':' && whole[|b|] == ':';
    assert forall k :: |a| < k < |whole| ==> whole[k] == s[k - |a| - 1];
    assert forall k :: |b| < k < |whole| ==> whole[k] == t[k - |b| - 1];
    assert |a| == |b|;
    assert a == whole[..|a|] && b == whole[..|b|] && s == whole[|a| + 1..] && t == whole[|b| + 1..];
  }

  /** Scoped ids are told apart by the command's id and the position, whatever characters the
      id is made of. */
  lemma ScopedIdsAreInjective(a: string, b: string, i: nat, j: nat)
    ensures ScopedId(Some(a), i) == Some(a + ":" + Dec(i))
    ensures ScopedId(Some(a), i) == ScopedId(Some(b), j) <==> a == b && i == j
  {
    if ScopedId(Some(a), i) == ScopedId(Some(b), j) {
      LastColon(a, b, Dec(i), Dec(j));
      DecInjective(i, j);
    }
  }

  /** The ids processed for desired updates are all those of group commands under other
      message ids than `id`. */
  ghost predicate OnlyOtherGroupIds(c: Cloud, id: string) {
    forall p :: (Desired, p) in c.processed ==> exists b: string, j: nat :: b != id && p == b + ":" + Dec(j)
  }

  lemma NewIdIsUnprocessed(c: Cloud, id: string, i: nat)
    requires OnlyOtherGroupIds(c, id)
    ensures !Processed(c, Desired, ScopedId(Some(id), i))
  {
    if (Desired, id + ":" + Dec(i)) in c.processed {
      var b: string, j: nat :| b != id && id + ":" + Dec(i) == b + ":" + Dec(j);
      ScopedIdsAreInjective(id, b, i, j);
    }
  }

  /** A group command under a new message id takes effect on every member that exists, however
      many group commands under other ids came before: it is changed, published, and its
      desired state patched. */
  lemma NewGroupCommandTakesEffect(c: Cloud, members: seq<string>, state: Fields, id: string, up: bool, i: nat)
    requires OnlyOtherGroupIds(c, id) && i < |members|
    ensures var (results, c') := CommandGroup(c, members, state, Some(id), up); var known := members[i] in c.shadows;
            && |results| == |members|
            && results[i] == CommandResult(members[i], known, known && up, known)
            && c'.published == c.published + Given(c.shadows.Keys, members, state)
            && (forall j :: j != id ==> OnlyOtherGroupIds(c, j) ==> OnlyOtherGroupIds(c', j))
  {
    NewIdIsUnprocessed(c, id, i);
    GroupResults(c, members, state, Some(id), up, |members|, i);
    GroupPublished(c, members, state, Some(id), up, |members|);
    AllGiven(c, members, state, id, |members|);
    assert members[..|members|] == members;
    GroupIds(c, members, state, Some(id), up, |members|);
    var c' := CommandGroup(c, members, state, Some(id), up).1;
    forall j | j != id && OnlyOtherGroupIds(c, j) ensures OnlyOtherGroupIds(c', j) {
      forall p | (Desired, p) in c'.processed ensures exists b: string, k: nat :: b != j && p == b + ":" + Dec(k) {
        if (Desired, p) !in c.processed {
          var k :| 0 <= k < |members| && (Desired, p) == (Desired, ScopedId(Some(id), k).value);
          assert p == id + ":" + Dec(k);
        }
      }
    }
  }

  /** One command for each member that exists, in order. */
  function Given(known: set<string>, members: seq<string>, state: Fields): seq<(string, Fields)> {
    if members == [] then []
    else
      var init, last := members[..|members| - 1], members[|members| - 1];
      Given(known, init, state) + if last in known then [(last, state)] else []
  }

  lemma {:induction false} AllGiven(c: Cloud, members: seq<string>, state: Fields, id: string, n: nat)
    requires OnlyOtherGroupIds(c, id) && n <= |members|
    ensures PublishedBy(c, members, state, Some(id), n) == Given(c.shadows.Keys, members[..n], state)
  {
    if n > 0 {
      AllGiven(c, members, state, id, n - 1);
      NewIdIsUnprocessed(c, id, n - 1);
      assert members[..n][..n - 1] == members[..n - 1];
    }
  }

  // --- Automations ---------------------------------------------------------------------------

  /** The automation's field is reported with its value, booleans counting as numbers. */
  predicate Fits(a: Automation, reported: Fields) {
    a.field in reported && Numeric(reported[a.field]) == Numeric(a.value)
  }

  /** The action's group or scene is gone. */
  predicate Gone(c: Cloud, action: Action) {
    (action.OnGroup? && action.group !in c.groups) || (action.OnScene? && action.scene !in c.scenes)
  }

  /** How many of the automations are reached before one that fits has lost its group or
      scene. */
  function Reached(c: Cloud, automations: seq<Automation>, reported: Fields, from: nat := 0): (n: nat)
    requires from <= |automations|
    ensures from <= n <= |automations|
    ensures n < |automations| ==> Fits(automations[n], reported) && Gone(c, automations[n].action)
    ensures forall i :: from <= i < n ==> !(Fits(automations[i], reported) && Gone(c, automations[i].action))
    decreases |automations| - from
  {
    if from == |automations| || (Fits(automations[from], reported) && Gone(c, automations[from].action)) then from
    else Reached(c, automations, reported, from + 1)
  }

  /** The commands of the first `n` automations that fit, to devices that exist, in order. */
  function FittingCommands(c: Cloud, automations: seq<Automation>, reported: Fields, n: nat): seq<(string, Fields)>
    requires n <= |automations|
  {
    if n == 0 then []
    else
      FittingCommands(c, automations, reported, n - 1) +
      if Fits(automations[n - 1], reported) then KnownOnly(c.shadows.Keys, CommandsOf(c, automations[n - 1].action)) else []
  }

  lemma TriggeredIfFitting(a: Automation, reported: Fields)
    ensures Triggered(a, reported) <==> Fits(a, reported)
  {
    if a.field in reported { SameJsonIsNumeric(reported[a.field], a.value); }
  }

  lemma {:induction false} FittingIsTriggered(c: Cloud, automations: seq<Automation>, reported: Fields, n: nat)
    requires n <= |automations|
    ensures TriggeredCommands(c, automations, reported, n) == FittingCommands(c, automations, reported, n)
  {
    if n > 0 {
      FittingIsTriggered(c, automations, reported, n - 1);
      TriggeredIfFitting(automations[n - 1], reported);
    }
  }

  /** A report runs exactly the automations of its device that fit the reported state found,
      in order, up to the first of them that has lost its group or scene, which is an error:
      their commands to devices that exist are published after what was published before.
      Without automations, or for an unknown device, nothing happens. */
  lemma ReportRunsWhatFits(c: Cloud, device: string, up: bool)
    ensures device !in c.automations || device !in c.shadows ==> OnReported(c, device, up) == (true, c)
    ensures device in c.automations && device in c.shadows ==>
              var automations, reported := c.automations[device], c.shadows[device].reported;
              var n := Reached(c, automations, reported); var (ok, c') := OnReported(c, device, up);
              && (ok <==> n == |automations|)
              && c'.published == c.published + FittingCommands(c, automations, reported, n)
  {
    if device in c.automations && device in c.shadows {
      var automations, reported := c.automations[device], c.shadows[device].reported;
      var n := Reached(c, automations, reported);
      forall i | 0 <= i < |automations| ensures Triggered(automations[i], reported) <==> Fits(automations[i], reported) {
        TriggeredIfFitting(automations[i], reported);
      }
      FittingIsTriggered(c, automations, reported, n);
      AutomationsPublishExactly(c, automations, reported, up, n);
      if n < |automations| {
        var before := RunUpTo(c, automations, reported, up, n).1;
        RunTouchesDesired(c, automations, reported, up, n);
        assert Triggered(automations[n], reported) && RunAction(before, automations[n].action, up) == None;
        assert RunUpTo(c, automations, reported, up, n + 1) == (false, before);
        RunStopped(c, automations, reported, up, n + 1, |automations|);
      }
    }
  }
}
