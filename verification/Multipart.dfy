/** The multipart stream between camera, relay and viewers: the printer, and what the relay's
    line- and length-based parser makes of any stream. A character stands for a byte. */
module Multipart {
  import opened Common
  import opened Decimal

  const MAX_FRAME := 8 * 1024 * 1024

  // --- Lines and headers -------------------------------------------------------------------

  /** The length of the first line, its newline included. */
  function LineLen(s: string): (n: nat)
    ensures n <= |s| && (s != "" ==> n > 0)
  {
    if s == "" then 0 else if s[0] == '\n' then 1 else 1 + LineLen(s[1..])
  }

  /** A line ends with the first newline, or with the stream. */
  lemma {:induction false} LineEnds(s: string)
    ensures var n := LineLen(s);
            (forall i :: 0 <= i < n - 1 ==> s[i] != '\n') && (n == |s| || (n > 0 && s[n - 1] == '\n'))
  {
    if s != "" && s[0] != '\n' { LineEnds(s[1..]); }
  }

  predicate IsSpace(c: char) { c in {' ', '\t', '\n', '\r', 11 as char, 12 as char} }

  function StripLeft(s: string): (r: string)
    ensures |r| <= |s|
  {
    if s != "" && IsSpace(s[0]) then StripLeft(s[1..]) else s
  }

  function StripRight(s: string): (r: string)
    ensures |r| <= |s|
  {
    if s != "" && IsSpace(s[|s| - 1]) then StripRight(s[..|s| - 1]) else s
  }

  function Strip(s: string): (r: string)
    ensures |r| <= |s|
  {
    StripRight(StripLeft(s))
  }

  function LowerChar(c: char): char { if 'A' <= c <= 'Z' then c + ('a' - 'A') else c }

  function Lower(s: string): (r: string)
    ensures |r| == |s|
  {
    seq(|s|, i requires 0 <= i < |s| => LowerChar(s[i]))
  }

  /** The position of the first colon, or the length of the line. */
  function Colon(s: string): (n: nat)
    ensures n <= |s| && (n < |s| ==> s[n] == ':') && forall i :: 0 <= i < n ==> s[i] != ':'
  {
    if s == "" || s[0] == ':' then 0 else 1 + Colon(s[1..])
  }

  predicate BlankLine(line: string) { line == "" || line == "\r\n" || line == "\n" }

  /** A Content-Length header replaces the length seen so far, by nothing if it is no number. */
  function HeaderLength(line: string, seen: Option<int>): Option<int> {
    var c := Colon(line);
    if Lower(Strip(line[..c])) == "content-length" then
      ParseInt(Strip(if c < |line| then line[c + 1..] else ""))
    else seen
  }

  function Headers(s: string, seen: Option<int>): (r: (Option<int>, string))
    ensures |r.1| <= |s|
    decreases |s|
  {
    var line, rest := s[..LineLen(s)], s[LineLen(s)..];
    if BlankLine(line) then (seen, rest) else Headers(rest, HeaderLength(line, seen))
  }

  predicate IsBoundary(line: string) { "--" <= line }

  predicate Acceptable(clen: Option<int>) { clen.Some? && 0 < clen.value <= MAX_FRAME }

  /** The frames the parser publishes from a stream. */
  function Frames(s: string): (r: seq<string>)
    ensures forall i :: 0 <= i < |r| ==> 0 < |r[i]| <= MAX_FRAME
    decreases |s|, 0
  {
    if s == "" then []
    else
      var line, rest := s[..LineLen(s)], s[LineLen(s)..];
      if !IsBoundary(line) then Frames(rest)
      else
        var (clen, body) := Headers(rest, None);
        PartFrames(clen, body)
  }

  /** The frames from `body` on, once a part's headers announced `clen`. */
  function PartFrames(clen: Option<int>, body: string): (r: seq<string>)
    ensures forall i :: 0 <= i < |r| ==> 0 < |r[i]| <= MAX_FRAME
    decreases |body|, 1
  {
    if !Acceptable(clen) then Frames(body)
    else if |body| < clen.value then []
    else [body[..clen.value]] + Frames(body[clen.value..])
  }

  // --- Printing ------------------------------------------------------------------------------

  const BOUNDARY_LINE := "--frame\r\n"
  const TYPE_LINE := "Content-Type: image/jpeg\r\n"
  const CRLF := "\r\n"

  function LengthLine(n: nat): string { "Content-Length" + (":" + (" " + Dec(n) + CRLF)) }

  function PartHeader(n: nat): string { BOUNDARY_LINE + TYPE_LINE + LengthLine(n) + CRLF }

  function Part(frame: string): string { PartHeader(|frame|) + frame + CRLF }

  function Print(frames: seq<string>): string {
    if frames == [] then "" else Print(frames[..|frames| - 1]) + Part(frames[|frames| - 1])
  }

  function NonEmpty(frames: seq<string>): seq<string> {
    if frames == [] then []
    else
      var last := frames[|frames| - 1];
      NonEmpty(frames[..|frames| - 1]) + if last == "" then [] else [last]
  }

  // --- Reading back what was printed ------------------------------------------------------------

  lemma {:induction false} FirstLine(line: string, rest: string)
    requires forall i :: 0 <= i < |line| ==> line[i] != '\n'
    ensures LineLen(line + "\n" + rest) == |line| + 1
  {
    var s := line + "\n" + rest;
    if line != "" {
      assert s[1..] == line[1..] + "\n" + rest;
      FirstLine(line[1..], rest);
    }
  }

  lemma TakesLine(line: string, rest: string)
    requires |line| > 0 && line[|line| - 1] == '\n'
    requires forall i :: 0 <= i < |line| - 1 ==> line[i] != '\n'
    ensures (line + rest)[..LineLen(line + rest)] == line && (line + rest)[LineLen(line + rest)..] == rest
  {
    var text := line[..|line| - 1];
    assert line == text + "\n";
    assert line + rest == text + "\n" + rest;
    FirstLine(text, rest);
  }

  lemma ColonAt(s: string, n: nat)
    requires n < |s| && s[n] == ':' && forall i :: 0 <= i < n ==> s[i] != ':'
    ensures Colon(s) == n
  {}

  lemma StripNumber(digits: string)
    requires |digits| > 0 && forall i :: 0 <= i < |digits| ==> IsDigit(digits[i])
    ensures Strip(" " + digits + CRLF) == digits
  {
    var s := " " + digits + CRLF;
    var t := digits + CRLF;
    assert s[1..] == t && !IsSpace(t[0]);
    assert StripLeft(s) == StripLeft(t) == t;
    var u := digits + "\r";
    assert t[..|t| - 1] == u;
    assert StripRight(t) == StripRight(u);
    assert u[..|u| - 1] == digits;
    assert StripRight(u) == StripRight(digits);
    assert !IsSpace(digits[|digits| - 1]);
  }

  lemma TypeLineIgnored(seen: Option<int>)
    ensures HeaderLength(TYPE_LINE, seen) == seen
  {
    ColonAt(TYPE_LINE, 12);
  }

  lemma TypeLineIsLine()
    ensures IsLine(TYPE_LINE) && !BlankLine(TYPE_LINE)
  {}

  lemma CrlfIsLine()
    ensures IsLine(CRLF) && BlankLine(CRLF) && !IsBoundary(CRLF)
  {}

  lemma BoundaryIsLine()
    ensures IsLine(BOUNDARY_LINE) && IsBoundary(BOUNDARY_LINE)
  {}

  lemma LengthName()
    ensures Lower("Content-Length") == "content-length"
  {}

  /** The header counts under any spelling of its name in upper and lower case. */
  lemma NamedLength(name: string, n: nat, seen: Option<int>)
    requires Lower(name) == "content-length"
    ensures HeaderLength(name + (":" + (" " + Dec(n) + CRLF)), seen) == Some(n)
  {
    var line := name + (":" + (" " + Dec(n) + CRLF));
    forall i | 0 <= i < |name| ensures name[i] != ':' && !IsSpace(name[i]) {
      assert Lower(name)[i] == LowerChar(name[i]);
    }
    ColonAt(line, |name|);
    assert line[..|name|] == name && line[|name| + 1..] == " " + Dec(n) + CRLF;
    assert Strip(name) == name;
    StripNumber(Dec(n));
    ParseDec(n);
  }

  lemma LengthLineRead(n: nat, seen: Option<int>)
    ensures HeaderLength(LengthLine(n), seen) == Some(n)
  {
    LengthName();
    NamedLength("Content-Length", n, seen);
  }

  /** A line of text: one newline, at its end. */
  predicate IsLine(line: string) {
    |line| > 0 && line[|line| - 1] == '\n' && forall i :: 0 <= i < |line| - 1 ==> line[i] != '\n'
  }

  lemma HeaderStep(line: string, rest: string, seen: Option<int>)
    requires IsLine(line)
    ensures Headers(line + rest, seen) ==
            if BlankLine(line) then (seen, rest) else Headers(rest, HeaderLength(line, seen))
  {
    TakesLine(line, rest);
  }

  lemma ThreeHeaders(first: string, second: string, end: string, rest: string, n: int)
    requires IsLine(first) && !BlankLine(first) && HeaderLength(first, None) == None
    requires IsLine(second) && !BlankLine(second) && HeaderLength(second, None) == Some(n)
    requires IsLine(end) && BlankLine(end)
    ensures Headers(first + (second + (end + rest)), None) == (Some(n), rest)
  {
    HeaderStep(first, second + (end + rest), None);
    HeaderStep(second, end + rest, None);
    HeaderStep(end, rest, Some(n));
  }

  lemma HeadersOfPart(n: nat, rest: string)
    ensures Headers(TYPE_LINE + (LengthLine(n) + (CRLF + rest)), None) == (Some(n), rest)
  {
    TypeLineIsLine();
    LengthLineIsLine(n);
    CrlfIsLine();
    TypeLineIgnored(None);
    LengthLineRead(n, None);
    ThreeHeaders(TYPE_LINE, LengthLine(n), CRLF, rest, n);
  }

  lemma LengthLineIsLine(n: nat)
    ensures IsLine(LengthLine(n)) && !BlankLine(LengthLine(n))
  {}

  lemma SkippedLine(line: string, rest: string)
    requires IsLine(line) && !IsBoundary(line)
    ensures Frames(line + rest) == Frames(rest)
  {
    TakesLine(line, rest);
  }

  lemma BoundaryLine(line: string, rest: string, clen: Option<int>, body: string)
    requires IsLine(line) && IsBoundary(line) && Headers(rest, None) == (clen, body)
    ensures Frames(line + rest) == PartFrames(clen, body)
  {
    TakesLine(line, rest);
  }

  lemma PartBody(frame: string, end: string, tail: string)
    requires |frame| <= MAX_FRAME && IsLine(end) && !IsBoundary(end)
    ensures PartFrames(Some(|frame|), frame + (end + tail)) == (if frame == "" then [] else [frame]) + Frames(tail)
  {
    SkippedLine(end, tail);
    var body := frame + (end + tail);
    assert body[..|frame|] == frame && body[|frame|..] == end + tail;
  }

  /** One printed frame is parsed as exactly that frame, whatever bytes it holds. */
  lemma PartIsRead(frame: string, tail: string)
    requires |frame| <= MAX_FRAME
    ensures Frames(Part(frame) + tail) == (if frame == "" then [] else [frame]) + Frames(tail)
  {
    var body := frame + (CRLF + tail);
    var headers := TYPE_LINE + (LengthLine(|frame|) + (CRLF + body));
    assert Part(frame) + tail == BOUNDARY_LINE + headers;
    HeadersOfPart(|frame|, body);
    BoundaryIsLine();
    CrlfIsLine();
    BoundaryLine(BOUNDARY_LINE, headers, Some(|frame|), body);
    PartBody(frame, CRLF, tail);
  }

  lemma Associative(a: string, b: string, c: string)
    ensures a + (b + c) == a + b + c
  {}

  lemma ReadInTurn(a: string, b: string, c: string, framesA: seq<string>, framesB: seq<string>, framesC: seq<string>)
    requires Frames(a + (b + c)) == framesA + Frames(b + c) && Frames(b + c) == framesB + framesC
    ensures Frames(a + b + c) == framesA + framesB + framesC
  {
    Associative(a, b, c);
  }

  lemma {:induction false} PrintThenParse(frames: seq<string>, tail: string)
    requires forall i :: 0 <= i < |frames| ==> |frames[i]| <= MAX_FRAME
    ensures Frames(Print(frames) + tail) == NonEmpty(frames) + Frames(tail)
  {
    if frames == [] {
      assert "" + tail == tail;
    } else {
      var n := |frames| - 1;
      PrintThenParse(frames[..n], Part(frames[n]) + tail);
      PartIsRead(frames[n], tail);
      var last := if frames[n] == "" then [] else [frames[n]];
      ReadInTurn(Print(frames[..n]), Part(frames[n]), tail, NonEmpty(frames[..n]), last, Frames(tail));
    }
  }

  lemma {:induction false} KeepsNonEmpty(frames: seq<string>, i: nat)
    requires i < |frames| && frames[i] != ""
    ensures frames[i] in NonEmpty(frames)
  {
    if i < |frames| - 1 { KeepsNonEmpty(frames[..|frames| - 1], i); }
  }

  /** Round trip: parsing what was printed gives the non-empty frames, in order, exactly
      when no frame is larger than the parser's limit. */
  lemma RoundTrip(frames: seq<string>)
    ensures Frames(Print(frames)) == NonEmpty(frames) <==>
            forall i :: 0 <= i < |frames| ==> |frames[i]| <= MAX_FRAME
  {
    if forall i :: 0 <= i < |frames| ==> |frames[i]| <= MAX_FRAME {
      PrintThenParse(frames, "");
      assert Print(frames) + "" == Print(frames);
    } else {
      var i :| 0 <= i < |frames| && |frames[i]| > MAX_FRAME;
      KeepsNonEmpty(frames, i);
      assert frames[i] !in Frames(Print(frames));
    }
  }

  // --- Cut streams ---------------------------------------------------------------------------------

  lemma {:induction false} LineLenOfPrefix(s: string, n: nat)
    requires n <= |s|
    ensures LineLen(s[..n]) == Min(n, LineLen(s))
  {
    if n > 0 && s[0] != '\n' {
      assert s[..n][1..] == s[1..][..n - 1];
      LineLenOfPrefix(s[1..], n - 1);
    }
  }

  /** On a cut stream the header block either reads the same, or swallows all there is. */
  lemma {:induction false} HeadersOfPrefix(s: string, n: nat, seen: Option<int>)
    requires n <= |s|
    ensures var (clen, body) := Headers(s, seen);
            var (clen', body') := Headers(s[..n], seen);
            body' == "" || (clen' == clen && body' <= body)
    decreases |s|
  {
    var l := LineLen(s);
    LineLenOfPrefix(s, n);
    if n < l || n == 0 {
      AllHeaders(s[..n], seen);
    } else {
      var line, rest := s[..l], s[l..];
      assert s[..n][..l] == line;
      assert s[..n][l..] == rest[..n - l];
      if !BlankLine(line) {
        var next := HeaderLength(line, seen);
        HeadersOfPrefix(rest, n - l, next);
      }
    }
  }

  lemma AllHeaders(t: string, seen: Option<int>)
    requires LineLen(t) == |t|
    ensures Headers(t, seen).1 == ""
  {}

  lemma LastLine(t: string)
    requires LineLen(t) == |t|
    ensures Frames(t) == []
  {}

  /** Any stream, well formed or not: cutting it anywhere only loses frames off the end. */
  lemma {:induction false} CutLosesOnlyTheEnd(s: string, n: nat)
    requires n <= |s|
    ensures Frames(s[..n]) <= Frames(s)
    decreases |s|, 0
  {
    var l := LineLen(s);
    LineLenOfPrefix(s, n);
    if n <= l {
      LastLine(s[..n]);
    } else {
      var line, rest := s[..l], s[l..];
      assert s[..n][..l] == line;
      assert s[..n][l..] == rest[..n - l];
      if IsBoundary(line) {
        CutHeaders(rest, n - l);
      } else {
        CutLosesOnlyTheEnd(rest, n - l);
      }
    }
  }

  lemma {:induction false} CutHeaders(s: string, k: nat)
    requires k <= |s|
    ensures var (clen, body) := Headers(s, None);
            var (clen', body') := Headers(s[..k], None);
            PartFrames(clen', body') <= PartFrames(clen, body)
    decreases |s|, 3
  {
    HeadersOfPrefix(s, k, None);
    var (clen, body) := Headers(s, None);
    var (clen', body') := Headers(s[..k], None);
    if body' == "" {
      assert PartFrames(clen', body') == [];
    } else {
      assert body' == body[..|body'|];
      CutPart(clen, body, |body'|);
    }
  }

  lemma {:induction false} CutPart(clen: Option<int>, body: string, k: nat)
    requires k <= |body|
    ensures PartFrames(clen, body[..k]) <= PartFrames(clen, body)
    decreases |body|, 2
  {
    if !Acceptable(clen) {
      CutLosesOnlyTheEnd(body, k);
    } else if clen.value <= k {
      var c := clen.value;
      assert body[..k][..c] == body[..c];
      assert body[..k][c..] == body[c..][..k - c];
      CutLosesOnlyTheEnd(body[c..], k - c);
    }
  }
}
