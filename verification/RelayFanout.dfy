/** Fan-out of one camera to any number of viewers: publishers and viewer iterations
    interleave freely, each taking the cell's lock for one step. */
module RelayFanout {
  import opened Common
  import opened Multipart
  import opened RelayPublisher

  /** A viewer remembers the sequence number it sent last; `got` records its deliveries. */
  datatype Viewer = Viewer(last: nat, got: seq<(nat, string)>)

  datatype Relay = Relay(published: seq<string>, viewers: seq<Viewer>)

  datatype Step = Publish(frame: string) | Connect | Iterate(viewer: nat)

  /** One locked turn of a viewer: nothing new, or the cell's latest frame. */
  function Turn(v: Viewer, published: seq<string>): Viewer {
    if |published| == v.last || published == [] then v
    else Viewer(|published|, v.got + [(|published|, published[|published| - 1])])
  }

  predicate Enabled(r: Relay, s: Step) { s.Iterate? ==> s.viewer < |r.viewers| }

  function Next(r: Relay, s: Step): Relay
    requires Enabled(r, s)
  {
    match s
    case Publish(frame) => r.(published := r.published + [frame])
    case Connect => r.(viewers := r.viewers + [Viewer(0, [])])
    case Iterate(v) => r.(viewers := r.viewers[v := Turn(r.viewers[v], r.published)])
  }

  predicate Runnable(r: Relay, steps: seq<Step>)
    decreases |steps|
  {
    steps == [] || (Enabled(r, steps[0]) && Runnable(Next(r, steps[0]), steps[1..]))
  }

  function Run(r: Relay, steps: seq<Step>): Relay
    requires Runnable(r, steps)
    decreases |steps|
  {
    if steps == [] then r else Run(Next(r, steps[0]), steps[1..])
  }

  /** Deliveries carry the frame of their own sequence number, in strictly rising order, and
      `last` is the number of the latest one. */
  ghost predicate Faithful(v: Viewer, published: seq<string>) {
    && (forall j :: 0 <= j < |v.got| ==> 0 < v.got[j].0 <= |published| && v.got[j].1 == published[v.got[j].0 - 1])
    && (forall j, k :: 0 <= j < k < |v.got| ==> v.got[j].0 < v.got[k].0)
    && v.last == (if v.got == [] then 0 else v.got[|v.got| - 1].0)
  }

  ghost predicate Inv(r: Relay) {
    forall i :: 0 <= i < |r.viewers| ==> Faithful(r.viewers[i], r.published)
  }

  lemma TurnIsFaithful(v: Viewer, published: seq<string>)
    requires Faithful(v, published)
    ensures Faithful(Turn(v, published), published) && v.got <= Turn(v, published).got
  {}

  lemma StaysFaithful(v: Viewer, published: seq<string>, frame: string)
    requires Faithful(v, published)
    ensures Faithful(v, published + [frame])
  {}

  lemma StepKeepsInv(r: Relay, s: Step)
    requires Inv(r) && Enabled(r, s)
    ensures Inv(Next(r, s))
    ensures r.published <= Next(r, s).published && |r.viewers| <= |Next(r, s).viewers|
    ensures forall i :: 0 <= i < |r.viewers| ==> r.viewers[i].got <= Next(r, s).viewers[i].got
  {
    match s
    case Publish(frame) =>
      forall i | 0 <= i < |r.viewers| ensures Faithful(r.viewers[i], r.published + [frame]) {
        StaysFaithful(r.viewers[i], r.published, frame);
      }
    case Connect =>
      assert Faithful(Viewer(0, []), r.published);
    case Iterate(v) =>
      TurnIsFaithful(r.viewers[v], r.published);
  }

  /** For every interleaving, each viewer's deliveries are a strictly rising selection of the
      published frames, and deliveries are never taken back. */
  lemma {:induction false} RunKeepsInv(r: Relay, steps: seq<Step>)
    requires Inv(r) && Runnable(r, steps)
    ensures Inv(Run(r, steps))
    ensures r.published <= Run(r, steps).published && |r.viewers| <= |Run(r, steps).viewers|
    ensures forall i :: 0 <= i < |r.viewers| ==> r.viewers[i].got <= Run(r, steps).viewers[i].got
    decreases |steps|
  {
    if steps != [] {
      StepKeepsInv(r, steps[0]);
      RunKeepsInv(Next(r, steps[0]), steps[1..]);
    }
  }

  /** Once publishing stops, a viewer's next turn delivers the latest frame, and later turns
      deliver nothing. */
  lemma NextTurnIsLatest(v: Viewer, published: seq<string>)
    requires Faithful(v, published) && published != []
    ensures var w := Turn(v, published);
            && w.got != [] && w.got[|w.got| - 1] == (|published|, published[|published| - 1])
            && |w.got| <= |v.got| + 1
            && Turn(w, published) == w
  {}

  function Delivered(v: Viewer): (r: seq<string>)
    ensures |r| == |v.got| && forall j :: 0 <= j < |r| ==> r[j] == v.got[j].1
  {
    seq(|v.got|, j requires 0 <= j < |v.got| => v.got[j].1)
  }

  // --- The viewer's loop --------------------------------------------------------------------

  class ViewerLoop {
    var last: nat
    var stream: string
    ghost var got: seq<(nat, string)>

    constructor ()
      ensures View() == Viewer(0, []) && stream == Print([])
    {
      last, stream, got := 0, "", [];
    }

    ghost function View(): Viewer
      reads this
    {
      Viewer(last, got)
    }

    /** One iteration: nothing while the cell holds nothing new, else the latest frame, sent
        as a part of its own. The stream is always the printed form of the deliveries. */
    method Iterate(cam: Cam)
      requires cam.Valid() && (last == 0 || last <= cam.seqNo) && stream == Print(Delivered(View()))
      modifies this
      ensures View() == Turn(old(View()), cam.published) && last == cam.seqNo
      ensures stream == Print(Delivered(View()))
    {
      if cam.seqNo == last {
        return;
      }
      last := cam.seqNo;
      var data := cam.frame.value;
      ghost var before := Delivered(View());
      got := got + [(last, data)];
      assert Delivered(View())[..|before|] == before;
      stream := stream + Part(data);
    }
  }

  // --- End to end ------------------------------------------------------------------------------

  /** The frames a receiver parses off a viewer's connection, cut anywhere. If the relay's
      frames came from parsing a camera's connection, itself cut anywhere, they are captured
      non-empty frames of that camera, in capture order. `at` gives their positions. */
  lemma CameraToViewer(shots: seq<Option<string>>, wire: string, v: Viewer, seen: string) returns (at: seq<nat>)
    requires forall i :: 0 <= i < |Captured(shots)| ==> |Captured(shots)[i]| <= MAX_FRAME
    requires wire <= Print(Captured(shots))
    requires Faithful(v, Frames(wire))
    requires seen <= Print(Delivered(v))
    ensures Frames(seen) <= Delivered(v)
    ensures seen == Print(Delivered(v)) ==> Frames(seen) == Delivered(v)
    ensures |at| == |Frames(seen)|
    ensures forall j :: 0 <= j < |at| ==>
              at[j] < |NonEmpty(Captured(shots))| && Frames(seen)[j] == NonEmpty(Captured(shots))[at[j]]
    ensures forall j, k :: 0 <= j < k < |at| ==> at[j] < at[k]
  {
    CameraToRelay(shots, wire);
    AllKept(Delivered(v));
    SeenIsDelivered(Delivered(v), seen);
    at := Positions(v, Frames(wire), Frames(seen), NonEmpty(Captured(shots)));
  }

  lemma SeenIsDelivered(frames: seq<string>, seen: string)
    requires (forall i :: 0 <= i < |frames| ==> |frames[i]| <= MAX_FRAME) && NonEmpty(frames) == frames
    requires seen <= Print(frames)
    ensures Frames(seen) <= frames
    ensures seen == Print(frames) ==> Frames(seen) == frames
  {
    RoundTrip(frames);
    assert seen == Print(frames)[..|seen|];
    CutLosesOnlyTheEnd(Print(frames), |seen|);
  }

  lemma Positions(v: Viewer, published: seq<string>, seen: seq<string>, all: seq<string>) returns (at: seq<nat>)
    requires Faithful(v, published) && published <= all && seen <= Delivered(v)
    ensures |at| == |seen|
    ensures forall j :: 0 <= j < |at| ==> at[j] < |all| && seen[j] == all[at[j]]
    ensures forall j, k :: 0 <= j < k < |at| ==> at[j] < at[k]
  {
    at := seq(|seen|, j requires 0 <= j < |seen| => v.got[j].0 - 1);
    forall j | 0 <= j < |at| ensures at[j] < |all| && seen[j] == all[at[j]] {
      assert seen[j] == Delivered(v)[j] == published[at[j]];
    }
  }

  lemma {:induction false} AllKept(frames: seq<string>)
    requires forall j :: 0 <= j < |frames| ==> frames[j] != ""
    ensures NonEmpty(frames) == frames
  {
    if frames != [] { AllKept(frames[..|frames| - 1]); }
  }
}
