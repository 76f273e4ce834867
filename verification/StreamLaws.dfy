/** What the relay's parser makes of streams that no camera prints: noise between parts, any
    boundary, any headers, lengths it refuses, and a stream that ends too early. */
module StreamLaws {
  import opened Common
  import opened Decimal
  import opened Multipart

  /** A line that does not start with two dashes is skipped. */
  lemma NoiseIsSkipped(line: string, rest: string)
    requires IsLine(line) && !(|line| >= 2 && line[0] == '-' && line[1] == '-')
    ensures Frames(line + rest) == Frames(rest)
  {
    SkippedLine(line, rest);
  }

  /** A tab, newline, vertical tab, form feed, carriage return or space. */
  predicate IsBlank(c: char) { 9 <= c as int <= 13 || c == ' ' }

  /** Stripping takes off any such characters at both ends, and nothing else. */
  lemma {:induction false} StripTakesBlanks(left: string, s: string, right: string)
    requires (forall k :: 0 <= k < |left| ==> IsBlank(left[k])) && (forall k :: 0 <= k < |right| ==> IsBlank(right[k]))
    requires s != "" && !IsBlank(s[0]) && !IsBlank(s[|s| - 1])
    ensures Strip(left + s + right) == s
    decreases |left| + |right|
  {
    if left != "" {
      assert (left + s + right)[1..] == left[1..] + s + right;
      StripTakesBlanks(left[1..], s, right);
    } else {
      assert left + s + right == s + right;
      assert StripLeft(s + right) == s + right;
      if right == "" {
        assert s + right == s;
      } else {
        var init := right[..|right| - 1];
        assert (s + right)[..|s + right| - 1] == s + init;
        assert StripLeft(s + init) == s + init && left + s + init == s + init;
        StripTakesBlanks(left, s, init);
      }
    }
  }

  /** Header lines, each of some text. */
  predicate AreHeaders(headers: seq<string>) {
    forall k :: 0 <= k < |headers| ==> IsLine(headers[k]) && headers[k] != "\n" && headers[k] != "\r\n"
  }

  function Concat(lines: seq<string>): string { if lines == [] then "" else lines[0] + Concat(lines[1..]) }

  /** The header gives a length, under any spelling of its name and with space around. */
  predicate GivesLength(header: string) {
    exists n :: 0 <= n <= |header| && NameEnds(header, n) && Lower(Strip(header[..n])) == "content-length"
  }

  /** The name of a header ends at its first colon, or with it. */
  predicate NameEnds(header: string, n: nat) {
    n <= |header| && (n == |header| || header[n] == ':') && forall k :: 0 <= k < n ==> header[k] != ':'
  }

  /** What the last header that gives a length says, which is nothing if it is no number. */
  function Announced(headers: seq<string>): Option<int> {
    if headers == [] then None
    else
      var last := headers[|headers| - 1];
      if GivesLength(last) then ParseInt(Strip(if Colon(last) < |last| then last[Colon(last) + 1..] else ""))
      else Announced(headers[..|headers| - 1])
  }

  lemma NameEndsAtColon(header: string, n: nat)
    ensures NameEnds(header, n) <==> n == Colon(header)
  {}

  lemma {:induction false} LengthAnnounced(headers: seq<string>, blank: string, body: string, seen: Option<int>)
    requires AreHeaders(headers) && (blank == "\n" || blank == "\r\n")
    ensures Headers(Concat(headers) + (blank + body), seen) == (AnnouncedAfter(seen, headers), body)
    decreases |headers|
  {
    if headers == [] {
      assert Concat(headers) + (blank + body) == blank + body;
      HeaderStep(blank, body, seen);
    } else {
      var first, rest := headers[0], headers[1..];
      assert Concat(headers) + (blank + body) == first + (Concat(rest) + (blank + body));
      HeaderStep(first, Concat(rest) + (blank + body), seen);
      LengthAnnounced(rest, blank, body, HeaderLength(first, seen));
    }
  }

  function AnnouncedAfter(seen: Option<int>, headers: seq<string>): Option<int>
    decreases |headers|
  {
    if headers == [] then seen else AnnouncedAfter(HeaderLength(headers[0], seen), headers[1..])
  }

  lemma OneHeader(header: string, seen: Option<int>)
    ensures GivesLength(header) ==>
              HeaderLength(header, seen) == ParseInt(Strip(if Colon(header) < |header| then header[Colon(header) + 1..] else ""))
    ensures !GivesLength(header) ==> HeaderLength(header, seen) == seen
  {
    NameEndsAtColon(header, Colon(header));
    forall n: nat | NameEnds(header, n) ensures n == Colon(header) { NameEndsAtColon(header, n); }
  }

  lemma {:induction false} AnnouncedSnoc(seen: Option<int>, headers: seq<string>, last: string)
    ensures AnnouncedAfter(seen, headers + [last]) == HeaderLength(last, AnnouncedAfter(seen, headers))
    decreases |headers|
  {
    if headers == [] {
      assert [last][1..] == [];
    } else {
      assert (headers + [last])[1..] == headers[1..] + [last];
      AnnouncedSnoc(HeaderLength(headers[0], seen), headers[1..], last);
    }
  }

  lemma {:induction false} LastOneCounts(headers: seq<string>)
    ensures AnnouncedAfter(None, headers) == Announced(headers)
  {
    if headers != [] {
      var init, last := headers[..|headers| - 1], headers[|headers| - 1];
      LastOneCounts(init);
      assert headers == init + [last];
      AnnouncedSnoc(None, init, last);
      OneHeader(last, AnnouncedAfter(None, init));
    }
  }

  /** Any part at all: a boundary is any line that starts with two dashes, and among any
      headers the last length counts. A length that is missing, no number, not positive or
      above 8 MiB is refused, and the search goes on behind the headers; a body cut short
      ends the stream; otherwise the body is published and the search goes on behind it. */
  lemma AnyPartIsRead(boundary: string, headers: seq<string>, blank: string, body: string)
    requires IsLine(boundary) && |boundary| >= 2 && boundary[0] == '-' && boundary[1] == '-'
    requires AreHeaders(headers) && (blank == "\n" || blank == "\r\n")
    ensures var n := Announced(headers);
            Frames(boundary + (Concat(headers) + (blank + body))) ==
              if n.None? || n.value <= 0 || n.value > 8 * 1024 * 1024 then Frames(body)
              else if |body| < n.value then []
              else [body[..n.value]] + Frames(body[n.value..])
  {
    LengthAnnounced(headers, blank, body, None);
    LastOneCounts(headers);
    assert IsBoundary(boundary);
    BoundaryLine(boundary, Concat(headers) + (blank + body), Announced(headers), body);
  }
}
