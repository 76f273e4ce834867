/** Decimal numerals, as printed into headers and ids and as read back. */
module Decimal {
  import opened Common

  predicate IsDigit(c: char) { '0' <= c <= '9' }

  function Digit(d: nat): char
    requires d < 10
  {
    '0' + d as char
  }

  function Dec(n: nat): (s: string)
    ensures |s| > 0 && forall i :: 0 <= i < |s| ==> IsDigit(s[i])
  {
    if n < 10 then [Digit(n)] else Dec(n / 10) + [Digit(n % 10)]
  }

  /** The value of digits, ignoring underscores between them. */
  function Value(s: string): nat
    requires forall i :: 0 <= i < |s| ==> IsDigit(s[i]) || s[i] == '_'
  {
    if s == "" then 0
    else
      var c := s[|s| - 1];
      var before := Value(s[..|s| - 1]);
      if c == '_' then before else
        assert IsDigit(c);
        10 * before + (c as int - '0' as int)
  }

  /** Digits, with single underscores allowed between two of them. */
  predicate Numeral(s: string) {
    && |s| > 0 && IsDigit(s[0]) && IsDigit(s[|s| - 1])
    && (forall i :: 0 <= i < |s| ==> IsDigit(s[i]) || s[i] == '_')
    && (forall i :: 0 < i < |s| && s[i] == '_' ==> s[i - 1] != '_')
  }

  /** The integer syntax of Python's `int` on already stripped bytes. */
  function ParseInt(s: string): Option<int> {
    if s != "" && (s[0] == '+' || s[0] == '-') then
      if Numeral(s[1..]) then
        var v: int := Value(s[1..]);
        Some(if s[0] == '-' then -v else v)
      else None
    else if Numeral(s) then Some(Value(s))
    else None
  }

  lemma {:induction false} ParseDec(n: nat)
    ensures ParseInt(Dec(n)) == Some(n)
  {
    if n >= 10 {
      ParseDec(n / 10);
      assert Dec(n)[..|Dec(n)| - 1] == Dec(n / 10);
      assert Value(Dec(n)) == 10 * Value(Dec(n / 10)) + n % 10;
    } else {
      var s := Dec(n);
      assert s == [Digit(n)] && s[..0] == "";
      assert Value(s) == n;
    }
  }

  /** A sign may go before the digits, and underscores between them do not count; with any
      other character a text is no number. */
  lemma {:induction false} ParseSyntax(n: nat, s: string)
    ensures ParseInt("+" + Dec(n)) == Some(n) && ParseInt("-" + Dec(n)) == Some(0 - n)
    ensures (exists i :: 0 <= i < |s| && !IsDigit(s[i]) && s[i] !in {'_', '+', '-'}) ==> ParseInt(s) == None
    ensures Numeral(s) ==> ParseInt(s) == Some(Value(s)) && Value(s) == Value(Digits(s))
  {
    ParseDec(n);
    assert ("+" + Dec(n))[1..] == Dec(n) == ("-" + Dec(n))[1..];
    if Numeral(s) { DigitsCount(s); }
  }

  /** Exactly which texts are numbers: digits, after a sign or none, with single underscores
      between them. */
  lemma NumbersAreExact(s: string)
    ensures var t := if s != "" && s[0] in {'+', '-'} then s[1..] else s;
            ParseInt(s).Some? <==>
              t != "" && t[0] != '_' && t[|t| - 1] != '_' && (forall i :: 0 <= i < |t| ==> '0' <= t[i] <= '9' || t[i] == '_')
              && !exists i :: 1 <= i < |t| && t[i - 1] == '_' && t[i] == '_'
  {}

  function Digits(s: string): (r: string)
    ensures forall i :: 0 <= i < |r| ==> r[i] in s && r[i] != '_'
  {
    if s == "" then ""
    else Digits(s[..|s| - 1]) + if s[|s| - 1] == '_' then "" else [s[|s| - 1]]
  }

  lemma {:induction false} DigitsCount(s: string)
    requires forall i :: 0 <= i < |s| ==> IsDigit(s[i]) || s[i] == '_'
    ensures forall i :: 0 <= i < |Digits(s)| ==> IsDigit(Digits(s)[i])
    ensures Value(s) == Value(Digits(s))
  {
    if s != "" {
      var init, c := s[..|s| - 1], s[|s| - 1];
      DigitsCount(init);
      assert Digits(s) == if c == '_' then Digits(init) else Digits(init) + [c];
    }
  }

  /** Different numbers print differently. */
  lemma DecInjective(m: nat, n: nat)
    requires Dec(m) == Dec(n)
    ensures m == n
  {
    ParseDec(m);
    ParseDec(n);
  }
}
