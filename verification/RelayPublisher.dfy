/** The camera side of the relay, and the relay's intake: frames are printed to a socket that
    may take only part of what it is offered, and are parsed back into the camera's cell. */
module RelayPublisher {
  import opened Common
  import opened Decimal
  import opened Multipart

  // --- The camera's push task ---------------------------------------------------------------

  /** A connected socket. Each grant is what the network will take of the next write; a
      grant below one, or none left, is a failed write. */
  class Socket {
    var wire: string
    var grants: seq<int>

    constructor (grants: seq<int>)
      ensures wire == "" && this.grants == grants
    {
      this.wire, this.grants := "", grants;
    }

    method Send(buf: string) returns (w: int)
      modifies this
      ensures w <= |buf|
      ensures wire == if w > 0 then old(wire) + buf[..w] else old(wire)
      ensures |buf| > 0 && |old(grants)| > 0 && old(grants)[0] > 0 ==> w > 0
    {
      if |grants| == 0 || grants[0] <= 0 {
        return -1;
      }
      w := Min(grants[0], |buf|);
      grants := grants[1..];
      wire := wire + buf[..w];
    }
  }

  /** Sends everything, however it is split up, or stops after a proper prefix. */
  method SendAll(sock: Socket, buf: string) returns (ok: bool)
    modifies sock
    ensures old(sock.wire) <= sock.wire <= old(sock.wire) + buf
    ensures ok <==> sock.wire == old(sock.wire) + buf
  {
    var off := 0;
    while off < |buf|
      invariant 0 <= off <= |buf|
      invariant sock.wire == old(sock.wire) + buf[..off]
    {
      var w := sock.Send(buf[off..]);
      if w <= 0 {
        return false;
      }
      assert buf[..off] + buf[off..][..w] == buf[..off + w];
      off := off + w;
    }
    return true;
  }

  method SendPart(sock: Socket, frame: string) returns (ok: bool)
    modifies sock
    ensures old(sock.wire) <= sock.wire <= old(sock.wire) + Part(frame)
    ensures ok <==> sock.wire == old(sock.wire) + Part(frame)
  {
    ghost var before := sock.wire;
    var header := PartHeader(|frame|);
    ok := SendAll(sock, header);
    if ok {
      ok := SendAll(sock, frame);
      assert before + header + frame + CRLF == before + Part(frame);
      if ok {
        ok := SendAll(sock, CRLF);
      }
    }
  }

  /** What the camera delivers at each turn: a frame, or nothing. */
  function Captured(shots: seq<Option<string>>): seq<string> {
    if shots == [] then []
    else
      var last := shots[|shots| - 1];
      Captured(shots[..|shots| - 1]) + if last.Some? then [last.value] else []
  }

  /** What the push task has printed after each turn only grows. */
  lemma {:induction false} PrintedGrows(shots: seq<Option<string>>, i: nat)
    requires i <= |shots|
    ensures Print(Captured(shots[..i])) <= Print(Captured(shots))
  {
    if i == |shots| {
      assert shots[..i] == shots;
    } else {
      var n := |shots| - 1;
      PrintedGrows(shots[..n], i);
      assert shots[..n][..i] == shots[..i];
      assert shots[..n] + [shots[n]] == shots;
      PrintedMore(shots[..n], shots[n], Print(Captured(shots[..i])));
    }
  }

  lemma PrintedMore(before: seq<Option<string>>, shot: Option<string>, early: string)
    requires early <= Print(Captured(before))
    ensures early <= Print(Captured(before + [shot]))
  {
    PrintedNext(before, shot);
    if shot.Some? { Longer(early, Print(Captured(before)), Part(shot.value)); }
  }

  lemma Longer(a: string, b: string, c: string)
    requires a <= b
    ensures a <= b + c
  {}

  lemma PrintedNext(before: seq<Option<string>>, shot: Option<string>)
    ensures Print(Captured(before + [shot])) ==
            if shot.Some? then Print(Captured(before)) + Part(shot.value) else Print(Captured(before))
  {
    assert (before + [shot])[..|before|] == before;
    var c := Captured(before);
    if shot.Some? {
      assert (c + [shot.value])[..|c|] == c;
    } else {
      assert c + [] == c;
    }
  }

  /** The push task prints each captured frame until streaming is switched off, after
      `shots`. A prefix of the printed frames reaches the wire, and all of them exactly if
      no write failed. */
  method PushTask(sock: Socket, shots: seq<Option<string>>) returns (ok: bool)
    modifies sock
    ensures old(sock.wire) <= sock.wire <= old(sock.wire) + Print(Captured(shots))
    ensures ok <==> sock.wire == old(sock.wire) + Print(Captured(shots))
  {
    var i := 0;
    while i < |shots|
      invariant 0 <= i <= |shots|
      invariant sock.wire == old(sock.wire) + Print(Captured(shots[..i]))
    {
      ghost var done := Print(Captured(shots[..i]));
      PrintedNext(shots[..i], shots[i]);
      assert shots[..i] + [shots[i]] == shots[..i + 1];
      if shots[i].Some? {
        var sent := SendPart(sock, shots[i].value);
        Associative(old(sock.wire), done, Part(shots[i].value));
        if !sent {
          PrintedGrows(shots, i + 1);
          Within(old(sock.wire), done, Part(shots[i].value), sock.wire, Print(Captured(shots)));
          return false;
        }
      }
      i := i + 1;
    }
    assert shots[..|shots|] == shots;
    return true;
  }

  lemma Within(start: string, done: string, part: string, wire: string, all: string)
    requires start + done <= wire <= start + done + part
    requires wire != start + done + part && done + part <= all
    ensures start <= wire <= start + all && wire != start + all
  {}

  /** The header buffer of 128 bytes holds the header of any frame a 32-bit size describes. */
  lemma HeaderFitsBuffer(n: nat)
    requires n < 0x1_0000_0000
    ensures |PartHeader(n)| < 128
  {
    DecLength(n, 10);
  }

  lemma {:induction false} DecLength(n: nat, digits: nat)
    requires digits > 0 && n < Pow10(digits)
    ensures |Dec(n)| <= digits
  {
    if n >= 10 { DecLength(n / 10, digits - 1); }
  }

  function Pow10(k: nat): nat { if k == 0 then 1 else 10 * Pow10(k - 1) }

  // --- The relay's cell and intake -------------------------------------------------------------

  /** The latest frame of one camera. `published` records every frame the cell ever held. */
  class Cam {
    var frame: Option<string>
    var seqNo: nat
    ghost var published: seq<string>

    ghost predicate Valid()
      reads this
    {
      && seqNo == |published|
      && frame == if published == [] then None else Some(published[|published| - 1])
    }

    constructor ()
      ensures Valid() && published == []
    {
      frame, seqNo, published := None, 0, [];
    }

    method Publish(data: string)
      requires Valid()
      modifies this
      ensures Valid() && published == old(published) + [data]
    {
      frame := Some(data);
      seqNo := seqNo + 1;
      published := published + [data];
    }
  }

  /** A request body, read by lines or by length. */
  class Reader {
    var rest: string

    constructor (body: string)
      ensures rest == body
    {
      rest := body;
    }

    method ReadLine() returns (line: string)
      modifies this
      ensures line == old(rest)[..LineLen(old(rest))] && rest == old(rest)[LineLen(old(rest))..]
    {
      var n := LineLen(rest);
      line, rest := rest[..n], rest[n..];
    }

    method Read(n: nat) returns (data: string)
      modifies this
      ensures var k := Min(n, |old(rest)|); data == old(rest)[..k] && rest == old(rest)[k..]
    {
      var k := Min(n, |rest|);
      data, rest := rest[..k], rest[k..];
    }
  }

  method ReadHeaders(rf: Reader) returns (clen: Option<int>)
    modifies rf
    ensures (clen, rf.rest) == Headers(old(rf.rest), None)
  {
    clen := None;
    var h := rf.ReadLine();
    while !BlankLine(h)
      invariant h + rf.rest != "" || h == ""
      invariant Headers(old(rf.rest), None) == if BlankLine(h) then (clen, rf.rest) else Headers(rf.rest, HeaderLength(h, clen))
      decreases |rf.rest|, |h|
    {
      clen := HeaderLength(h, clen);
      h := rf.ReadLine();
    }
  }

  /** Reads a stream to its end, publishing the frames the specification finds in it. */
  method Ingest(cam: Cam, rf: Reader) returns (frames: nat)
    requires cam.Valid()
    modifies cam, rf
    ensures cam.Valid()
    ensures cam.published == old(cam.published) + Frames(old(rf.rest))
    ensures frames == |Frames(old(rf.rest))|
  {
    frames := 0;
    while true
      invariant cam.Valid()
      invariant cam.published + Frames(rf.rest) == old(cam.published) + Frames(old(rf.rest))
      invariant frames + |Frames(rf.rest)| == |Frames(old(rf.rest))|
      decreases |rf.rest|
    {
      ghost var s := rf.rest;
      var line := rf.ReadLine();
      if line == "" {
        break;
      }
      if !IsBoundary(line) {
        continue;
      }
      var clen := ReadHeaders(rf);
      ghost var body := rf.rest;
      assert Frames(s) == PartFrames(clen, body);
      if !Acceptable(clen) {
        continue;
      }
      var data := rf.Read(clen.value);
      if |data| < clen.value {
        break;
      }
      PublishedOne(cam.published, data, rf.rest, Frames(s));
      cam.Publish(data);
      frames := frames + 1;
    }
  }

  lemma PublishedOne(before: seq<string>, data: string, rest: string, all: seq<string>)
    requires all == [data] + Frames(rest)
    ensures (before + [data]) + Frames(rest) == before + all
  {}

  /** From camera to relay: whatever part of the printed stream arrives, the relay publishes
      a prefix of the captured non-empty frames, and all of them if all of it arrives. */
  lemma CameraToRelay(shots: seq<Option<string>>, wire: string)
    requires forall i :: 0 <= i < |Captured(shots)| ==> |Captured(shots)[i]| <= MAX_FRAME
    requires wire <= Print(Captured(shots))
    ensures Frames(wire) <= NonEmpty(Captured(shots))
    ensures wire == Print(Captured(shots)) ==> Frames(wire) == NonEmpty(Captured(shots))
  {
    var all := Print(Captured(shots));
    RoundTrip(Captured(shots));
    assert wire == all[..|wire|];
    CutLosesOnlyTheEnd(all, |wire|);
  }
}
