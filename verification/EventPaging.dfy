/** Paging back through a device's events with the last id seen as the cursor, while new
    events keep arriving. */
module EventPaging {
  import opened Common
  import opened CloudTables

  type Log = seq<EventRow>

  predicate Wanted(e: EventRow, device: string, before: Option<nat>) {
    e.device == device && (before.None? || e.id < before.value)
  }

  /** The device's events below the cursor, newest first. */
  function Newest(log: Log, device: string, before: Option<nat>): (r: Log)
    ensures forall i :: 0 <= i < |r| ==> Wanted(r[i], device, before)
  {
    if log == [] then []
    else
      var last := log[|log| - 1];
      var older := Newest(log[..|log| - 1], device, before);
      if Wanted(last, device, before) then [last] + older else older
  }

  /** A negative limit is no limit. */
  function Limited(rows: Log, limit: int): (r: Log)
    ensures r <= rows && |r| == if 0 <= limit < |rows| then limit else |rows|
  {
    if 0 <= limit < |rows| then rows[..limit] else rows
  }

  function Page(log: Log, device: string, limit: int, before: Option<nat>): Log {
    Limited(Newest(log, device, before), limit)
  }

  ghost predicate Rising(log: Log) {
    forall i, j :: 0 <= i < j < |log| ==> log[i].id < log[j].id
  }

  /** The pages of a walk: each next cursor is the last id of the page before, and before
      each further page the next batch of `arrivals` is appended to the log. */
  function Walk(log: Log, device: string, limit: int, before: Option<nat>, arrivals: seq<Log>): seq<Log>
    decreases before.None?, if before.Some? then before.value else 0
  {
    var page := Page(log, device, limit, before);
    if page == [] then []
    else
      var cursor := page[|page| - 1].id;
      var grown := if arrivals == [] then log else log + arrivals[0];
      [page] + Walk(grown, device, limit, Some(cursor), if arrivals == [] then [] else arrivals[1..])
  }

  function Flat(pages: seq<Log>): Log {
    if pages == [] then [] else pages[0] + Flat(pages[1..])
  }

  /** Every batch continues the rising ids of the log. */
  ghost predicate Continues(log: Log, arrivals: seq<Log>)
    decreases |arrivals|
  {
    Rising(log) && (arrivals == [] || Continues(log + arrivals[0], arrivals[1..]))
  }

  // --- What one query returns ---------------------------------------------------------------

  lemma {:induction false} IdsBelow(log: Log, device: string, before: Option<nat>, b: nat)
    requires forall i :: 0 <= i < |log| ==> log[i].id < b
    ensures forall i :: 0 <= i < |Newest(log, device, before)| ==> Newest(log, device, before)[i].id < b
  {
    if log != [] { IdsBelow(log[..|log| - 1], device, before, b); }
  }

  /** Newest first, nothing twice, and nothing missing. */
  lemma {:induction false} NewestIsExact(log: Log, device: string, before: Option<nat>)
    requires Rising(log)
    ensures var r := Newest(log, device, before);
            && (forall i, j :: 0 <= i < j < |r| ==> r[i].id > r[j].id)
            && (forall e :: e in r <==> e in log && e.device == device && (before.None? || e.id < before.value))
  {
    if log != [] {
      var init, last := log[..|log| - 1], log[|log| - 1];
      NewestIsExact(init, device, before);
      IdsBelow(init, device, before, last.id);
      assert log == init + [last];
    }
  }

  // --- The walk -----------------------------------------------------------------------------

  lemma {:induction false} NoneIsAbove(log: Log, device: string, b: nat, before: Option<nat>)
    requires forall i :: 0 <= i < |log| ==> log[i].id < b
    requires before.None? || b <= before.value
    ensures Newest(log, device, Some(b)) == Newest(log, device, before)
  {
    if log != [] { NoneIsAbove(log[..|log| - 1], device, b, before); }
  }

  /** Moving the cursor to the last id of a page leaves exactly what the page left out. */
  lemma {:induction false} CursorSplits(log: Log, device: string, before: Option<nat>, k: nat)
    requires Rising(log)
    requires 0 < k <= |Newest(log, device, before)|
    ensures Newest(log, device, Some(Newest(log, device, before)[k - 1].id)) == Newest(log, device, before)[k..]
  {
    var last, init := log[|log| - 1], log[..|log| - 1];
    if !Wanted(last, device, before) {
      CursorSplits(init, device, before, k);
    } else if k == 1 {
      NoneIsAbove(init, device, last.id, before);
    } else {
      IdsBelow(init, device, before, last.id);
      CursorSplits(init, device, before, k - 1);
    }
  }

  /** Events that arrive later are above the cursor. */
  lemma {:induction false} ArrivalsAreAbove(log: Log, more: Log, device: string, b: nat)
    requires forall i :: 0 <= i < |more| ==> more[i].id >= b
    ensures Newest(log + more, device, Some(b)) == Newest(log, device, Some(b))
  {
    if more == [] {
      assert log + more == log;
    } else {
      ArrivalsAreAbove(log, more[..|more| - 1], device, b);
      assert (log + more)[..|log + more| - 1] == log + more[..|more| - 1];
    }
  }

  /** After a page of `k` events the next query, on the grown log, starts where it ended. */
  lemma NextQuery(log: Log, device: string, before: Option<nat>, k: nat, more: Log)
    requires Rising(log + more) && Rising(log)
    requires 0 < k <= |Newest(log, device, before)|
    ensures Newest(log + more, device, Some(Newest(log, device, before)[k - 1].id)) == Newest(log, device, before)[k..]
  {
    var cursor := Newest(log, device, before)[k - 1].id;
    CursorSplits(log, device, before, k);
    forall i | 0 <= i < |more| ensures more[i].id >= cursor {
      assert (log + more)[|log| + i] == more[i];
      forall j | 0 <= j < |log| ensures log[j].id < more[i].id {
        assert (log + more)[j] == log[j];
      }
      IdsBelow(log, device, before, more[i].id);
    }
    ArrivalsAreAbove(log, more, device, cursor);
  }

  /** One page, and the walk that goes on from it. */
  lemma WalkStep(log: Log, device: string, limit: int, before: Option<nat>, arrivals: seq<Log>)
    returns (k: nat, grown: Log, rest: seq<Log>)
    requires Continues(log, arrivals) && limit != 0 && Newest(log, device, before) != []
    ensures var all := Newest(log, device, before);
            && 0 < k <= |all| && (limit > 0 ==> k == Min(limit, |all|))
            && Continues(grown, rest)
            && Newest(grown, device, Some(all[k - 1].id)) == all[k..]
            && Walk(log, device, limit, before, arrivals) == [all[..k]] + Walk(grown, device, limit, Some(all[k - 1].id), rest)
            && (before.Some? ==> all[k - 1].id < before.value)
  {
    var all := Newest(log, device, before);
    var page := Page(log, device, limit, before);
    k := |page|;
    assert page == all[..k];
    grown := if arrivals == [] then log else log + arrivals[0];
    rest := if arrivals == [] then [] else arrivals[1..];
    if arrivals == [] {
      CursorSplits(log, device, before, k);
    } else {
      NextQuery(log, device, before, k, arrivals[0]);
    }
  }

  /** The walk is exact: for any limit but zero, whatever arrives meanwhile, its pages put
      together are the device's events at the first page, each once, newest first. */
  lemma {:induction false} WalkIsExact(log: Log, device: string, limit: int, before: Option<nat>, arrivals: seq<Log>)
    requires Continues(log, arrivals) && limit != 0
    ensures Flat(Walk(log, device, limit, before, arrivals)) == Newest(log, device, before)
    decreases before.None?, if before.Some? then before.value else 0
  {
    var all := Newest(log, device, before);
    if all != [] {
      var k, grown, rest := WalkStep(log, device, limit, before, arrivals);
      WalkIsExact(grown, device, limit, Some(all[k - 1].id), rest);
      FlatStep(all[..k], Walk(grown, device, limit, Some(all[k - 1].id), rest));
      assert all[..k] + all[k..] == all;
    }
  }

  lemma FlatStep(page: Log, pages: seq<Log>)
    ensures Flat([page] + pages) == page + Flat(pages)
  {}

  /** Every page but the last is full, and none is empty: a walk over `n` events takes
      `n / limit` pages, rounded up. */
  lemma {:induction false} WalkLength(log: Log, device: string, limit: int, before: Option<nat>, arrivals: seq<Log>)
    requires Continues(log, arrivals) && limit > 0
    ensures var pages := Walk(log, device, limit, before, arrivals);
            && |pages| == Pages(|Newest(log, device, before)|, limit)
            && (forall k :: 0 <= k < |pages| ==> 0 < |pages[k]| <= limit)
            && (forall k :: 0 <= k < |pages| - 1 ==> |pages[k]| == limit)
    decreases before.None?, if before.Some? then before.value else 0
  {
    var all := Newest(log, device, before);
    if all != [] {
      var k, grown, rest := WalkStep(log, device, limit, before, arrivals);
      WalkLength(grown, device, limit, Some(all[k - 1].id), rest);
    }
  }

  function Pages(n: nat, limit: int): nat
    requires limit > 0
  {
    if n == 0 then 0 else 1 + Pages(n - Min(limit, n), limit)
  }
}
