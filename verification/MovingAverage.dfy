/** The frame-time filter: a ring of the last samples with a running sum. */
module MovingAverage {
  import opened Common

  const INT_MAX := 0x7FFF_FFFF
  const INT_MIN := -0x8000_0000
  const U32 := 0x1_0000_0000

  predicate IsInt(x: int) { INT_MIN <= x <= INT_MAX }

  function Total(s: seq<int>): int {
    if s == [] then 0 else Total(s[..|s| - 1]) + s[|s| - 1]
  }

  lemma {:induction false} TotalUpdate(s: seq<int>, i: nat, x: int)
    requires i < |s|
    ensures Total(s[i := x]) == Total(s) - s[i] + x
  {
    var n := |s| - 1;
    if i == n {
      assert s[i := x][..n] == s[..n];
    } else {
      assert s[i := x][..n] == s[..n][i := x];
      TotalUpdate(s[..n], i, x);
    }
  }

  lemma {:induction false} TotalOfZeros(s: seq<int>)
    requires forall i :: 0 <= i < |s| ==> s[i] == 0
    ensures Total(s) == 0
  {
    if s != [] { TotalOfZeros(s[..|s| - 1]); }
  }

  lemma {:induction false} TotalSplit(a: seq<int>, b: seq<int>)
    ensures Total(a + b) == Total(a) + Total(b)
  {
    if b == [] {
      assert a + b == a;
    } else {
      TotalSplit(a, b[..|b| - 1]);
      assert (a + b)[..|a + b| - 1] == a + b[..|b| - 1];
    }
  }

  /** The last `n` samples of a history. */
  function Window(history: seq<int>, n: nat): seq<int> {
    if |history| <= n then history else history[|history| - n..]
  }

  /** Sum divided by an unsigned count: the sum is taken modulo 2^32 before the division and
      the quotient is converted back to a signed int. */
  function Quotient(sum: int, count: nat): (r: int)
    requires count > 0 && IsInt(sum)
  {
    var q := (sum % U32) / count;
    if q > INT_MAX then q - U32 else q
  }

  /** Division rounding towards zero, as a signed division would be. */
  function Truncated(sum: int, count: nat): int
    requires count > 0
  {
    if sum >= 0 then sum / count else -((-sum) / count)
  }

  /** The filter's division is the true average exactly for non-negative sums and for a
      single sample: a negative sum over several samples comes out positive. */
  lemma QuotientIsAverage(sum: int, count: nat)
    requires count > 0 && IsInt(sum)
    ensures Quotient(sum, count) == Truncated(sum, count) <==> sum >= 0 || count == 1 || count > U32 + sum
  {
    if sum < 0 && count > 1 {
      var u := sum + U32;
      assert sum % U32 == u;
      Bounds(u, count);
      AtMostHalf(u / count, count, u);
      Bounds(-sum, count);
    }
  }

  lemma Bounds(u: nat, count: nat)
    requires count > 0
    ensures u / count >= 0 && (u / count) * count <= u
    ensures u < count <==> u / count == 0
  {}

  lemma AtMostHalf(q: nat, count: nat, u: nat)
    requires count >= 2 && q * count <= u
    ensures 2 * q <= u
  {}

  lemma Wrap(i: nat, size: nat)
    requires i < size
    ensures (i + 1) % size == if i + 1 == size then 0 else i + 1
  {}

  class Filter {
    const values: array<int>
    var index: nat
    var count: nat
    var sum: int
    /** Every sample so far, oldest first. */
    ghost var history: seq<int>

    /** Until the ring is full it holds the history and zeros; from then on it holds the
        last `Length` samples, the oldest of them at `index`. */
    ghost predicate Valid()
      reads this, values
    {
      && index < values.Length
      && count == Min(|history|, values.Length)
      && sum == Total(values[..])
      && (if |history| < values.Length then
            index == |history| && values[..index] == history && forall i :: index <= i < values.Length ==> values[i] == 0
          else
            Window(history, values.Length) == values[index..] + values[..index])
    }

    constructor (size: nat)
      requires size > 0
      ensures Valid() && history == [] && values.Length == size && fresh(values)
    {
      values := new int[size](_ => 0);
      index, count, sum, history := 0, 0, 0, [];
      new;
      TotalOfZeros(values[..]);
    }

    /** Replaces the oldest cell and moves on. */
    method Put(value: int)
      requires Valid()
      modifies this, values
      ensures Valid() && history == old(history) + [value]
      ensures sum == old(sum) - old(values[index]) + value
    {
      ghost var before := values[..];
      sum := sum - values[index];
      values[index] := value;
      sum := sum + values[index];
      TotalUpdate(before, index, value);
      assert values[..] == before[index := value];
      Wrap(index, values.Length);
      if |history| < values.Length {
        assert values[..index + 1] == history + [value];
      } else {
        Turned(before, history, index, value);
      }
      history := history + [value];
      index := index + 1;
      index := index % values.Length;
      if count < values.Length {
        count := count + 1;
      }
      if |history| == values.Length {
        assert Window(history, values.Length) == values[0..] + values[..0];
      }
    }

    /** Adds a sample and returns the average. The running sum must stay in range, with the
        oldest sample taken out and with the new one put in. */
    method Run(value: int) returns (average: int)
      requires Valid() && IsInt(sum - values[index]) && IsInt(sum - values[index] + value)
      modifies this, values
      ensures Valid() && history == old(history) + [value]
      ensures IsInt(sum) && sum == Total(Window(history, values.Length))
      ensures average == Quotient(sum, Min(|history|, values.Length))
    {
      Put(value);
      WindowTotal();
      average := Quotient(sum, count);
    }

    lemma WindowTotal()
      requires Valid()
      ensures Total(values[..]) == Total(Window(history, values.Length))
    {
      if |history| < values.Length {
        assert values[..] == history + values[index..];
        TotalSplit(history, values[index..]);
        TotalOfZeros(values[index..]);
      } else {
        assert values[..] == values[..index] + values[index..];
        TotalSplit(values[..index], values[index..]);
        TotalSplit(values[index..], values[..index]);
      }
    }
  }

  /** Overwriting the oldest cell and turning the ring by one moves the window by one. */
  lemma Turned(ring: seq<int>, history: seq<int>, i: nat, value: int)
    requires i < |ring| <= |history| && Window(history, |ring|) == ring[i..] + ring[..i]
    ensures var next := (i + 1) % |ring|; var ring' := ring[i := value];
            Window(history + [value], |ring|) == ring'[next..] + ring'[..next]
  {
    var w := Window(history, |ring|);
    var ring' := ring[i := value];
    assert Window(history + [value], |ring|) == w[1..] + [value];
    Wrap(i, |ring|);
    if i + 1 == |ring| {
      assert ring'[0..] + ring'[..0] == ring' == ring[..i] + [value];
      assert w[1..] == ring[..i];
    } else {
      assert ring'[i + 1..] == ring[i + 1..] && ring'[..i + 1] == ring[..i] + [value];
      assert w[1..] == ring[i + 1..] + ring[..i];
    }
  }
}
