/** The LED strip encoder: colour bytes, then one reset symbol, written into channel memory
    that may fill up in the middle, so that every call resumes where the last one stopped. */
module LedStripEncoder {
  import opened Common

  datatype Symbol = Bit0 | Bit1 | ResetCode

  /** The bits of a byte, most significant first. */
  function BitsOf(n: nat, width: nat): (r: seq<Symbol>)
    ensures |r| == width
  {
    if width == 0 then [] else BitsOf(n / 2, width - 1) + [if n % 2 == 1 then Bit1 else Bit0]
  }

  function DataSymbols(data: seq<byte>): (r: seq<Symbol>)
    ensures |r| == 8 * |data|
  {
    if data == [] then [] else BitsOf(data[0], 8) + DataSymbols(data[1..])
  }

  /** What one transmission has to emit. */
  function Target(data: seq<byte>): seq<Symbol> { DataSymbols(data) + [ResetCode] }

  // --- What the strip receives ---------------------------------------------------------------

  function BitsValue(bits: seq<Symbol>): nat {
    if bits == [] then 0
    else 2 * BitsValue(bits[..|bits| - 1]) + if bits[|bits| - 1] == Bit1 then 1 else 0
  }

  /** A strip cuts the bits before the reset symbol into bytes. */
  function Received(symbols: seq<Symbol>): seq<nat> {
    if |symbols| < 8 || ResetCode in symbols[..8] then []
    else [BitsValue(symbols[..8])] + Received(symbols[8..])
  }

  lemma {:induction false} BitsKeepValue(n: nat, width: nat)
    requires n < Pow2(width)
    ensures BitsValue(BitsOf(n, width)) == n && ResetCode !in BitsOf(n, width)
  {
    if width > 0 {
      BitsKeepValue(n / 2, width - 1);
      assert BitsOf(n, width)[..width - 1] == BitsOf(n / 2, width - 1);
    }
  }

  function Pow2(k: nat): nat { if k == 0 then 1 else 2 * Pow2(k - 1) }

  /** The strip reads back the bytes that were encoded, and no more. */
  lemma {:induction false} StripReceivesData(data: seq<byte>)
    ensures Received(Target(data)) == data
  {
    if data == [] {
      assert Target(data) == [ResetCode];
    } else {
      assert Pow2(8) == 256;
      BitsKeepValue(data[0], 8);
      StripReceivesData(data[1..]);
      assert Target(data)[..8] == BitsOf(data[0], 8);
      assert Target(data)[8..] == Target(data[1..]);
    }
  }

  // --- The channel and the sub-encoders --------------------------------------------------------

  /** Channel memory: what was written, and how many symbols still fit. */
  class Channel {
    var out: seq<Symbol>
    var free: nat

    constructor ()
      ensures out == [] && free == 0
    {
      out, free := [], 0;
    }
  }

  /** A resumable sub-encoder. It writes on from its position while there is room, reports
      completion and starts over when all is written, and reports full memory whenever it
      stops short. Whether it also reports memory that its last symbol filled is `eager`. */
  class SubEncoder {
    var pos: nat

    constructor ()
      ensures pos == 0
    {
      pos := 0;
    }

    method Encode(ch: Channel, symbols: seq<Symbol>, eager: bool) returns (n: nat, complete: bool, memFull: bool)
      requires pos <= |symbols|
      modifies this, ch
      ensures n == Min(old(ch.free), |symbols| - old(pos))
      ensures ch.out == old(ch.out) + symbols[old(pos)..old(pos) + n] && ch.free == old(ch.free) - n
      ensures complete <==> old(pos) + n == |symbols|
      ensures pos == if complete then 0 else old(pos) + n
      ensures memFull <==> ch.free == 0 && (!complete || eager)
    {
      n := Min(ch.free, |symbols| - pos);
      ch.out := ch.out + symbols[pos..pos + n];
      ch.free := ch.free - n;
      pos := pos + n;
      complete := pos == |symbols|;
      if complete {
        pos := 0;
      }
      memFull := ch.free == 0 && (!complete || eager);
    }
  }

  // --- The strip encoder --------------------------------------------------------------------------

  class StripEncoder {
    const bytesEncoder: SubEncoder
    const copyEncoder: SubEncoder
    var state: nat

    ghost predicate Valid(data: seq<byte>)
      reads this, bytesEncoder, copyEncoder
    {
      && bytesEncoder != copyEncoder
      && state <= 1 && copyEncoder.pos == 0
      && bytesEncoder.pos <= (if state == 0 then 8 * |data| else 0)
    }

    /** Ready for a new transmission. */
    ghost predicate Ready()
      reads this, bytesEncoder, copyEncoder
    {
      bytesEncoder != copyEncoder && state == 0 && bytesEncoder.pos == 0 && copyEncoder.pos == 0
    }

    /** What the transmission of `data` still has to emit. */
    ghost function Remaining(data: seq<byte>): seq<Symbol>
      requires Valid(data)
      reads this, bytesEncoder, copyEncoder
    {
      if state == 0 then DataSymbols(data)[bytesEncoder.pos..] + [ResetCode] else [ResetCode]
    }

    constructor ()
      ensures Ready() && fresh(bytesEncoder) && fresh(copyEncoder)
    {
      bytesEncoder := new SubEncoder();
      copyEncoder := new SubEncoder();
      state := 0;
    }

    method Reset()
      requires bytesEncoder != copyEncoder
      modifies this, bytesEncoder, copyEncoder
      ensures Ready()
    {
      bytesEncoder.pos := 0;
      copyEncoder.pos := 0;
      state := 0;
    }

    /** One call of the driver: emits as much of what remains as the memory takes, reports
        completion exactly when nothing remains, and is then ready for reuse. */
    method Encode(ch: Channel, data: seq<byte>, eager: bool) returns (n: nat, complete: bool, memFull: bool)
      requires Valid(data)
      modifies this`state, bytesEncoder, copyEncoder, ch
      ensures Valid(data)
      ensures n == Min(old(ch.free), |old(Remaining(data))|)
      ensures ch.out == old(ch.out) + old(Remaining(data))[..n] && ch.free == old(ch.free) - n
      ensures complete <==> n == |old(Remaining(data))|
      ensures if complete then Ready() else Remaining(data) == old(Remaining(data))[n..]
      ensures memFull <==> ch.free == 0 && (!complete || eager)
    {
      ghost var all := Remaining(data);
      n, complete, memFull := 0, false, false;
      if state == 0 {
        var k, done, full := bytesEncoder.Encode(ch, DataSymbols(data), eager);
        n := n + k;
        if done {
          state := 1;
        }
        if full {
          memFull := true;
          return;
        }
      }
      var k, done, full := copyEncoder.Encode(ch, [ResetCode], eager);
      n := n + k;
      if done {
        state := 0;
        complete := true;
      }
      if full {
        memFull := true;
      }
    }
  }

  function Sum(budgets: seq<nat>): nat {
    if budgets == [] then 0 else Sum(budgets[..|budgets| - 1]) + budgets[|budgets| - 1]
  }

  lemma {:induction false} SumGrows(budgets: seq<nat>, i: nat)
    requires i <= |budgets|
    ensures Sum(budgets[..i]) <= Sum(budgets)
  {
    if i < |budgets| {
      var n := |budgets| - 1;
      SumGrows(budgets[..n], i);
      assert budgets[..n][..i] == budgets[..i];
    } else {
      assert budgets[..i] == budgets;
    }
  }

  lemma SumNext(budgets: seq<nat>, i: nat)
    requires i < |budgets|
    ensures Sum(budgets[..i + 1]) == Sum(budgets[..i]) + budgets[i]
  {
    assert budgets[..i + 1][..i] == budgets[..i];
  }

  lemma Slices(before: seq<Symbol>, all: seq<Symbol>, sent: nat, n: nat)
    requires sent + n <= |all|
    ensures (before + all[..sent]) + all[sent..][..n] == before + all[..sent + n]
    ensures all[sent..][n..] == all[sent + n..] && |all[sent..]| == |all| - sent
    ensures sent + n == |all| ==> before + all[..sent + n] == before + all
    ensures all[0..] == all && before + all[..0] == before
  {}

  /** In the middle of a transmission, `sent` symbols of the target are out. */
  ghost predicate Underway(enc: StripEncoder, ch: Channel, data: seq<byte>, before: seq<Symbol>, sent: nat)
    reads enc, enc.bytesEncoder, enc.copyEncoder, ch
  {
    && sent < |Target(data)|
    && enc.Valid(data) && enc.Remaining(data) == Target(data)[sent..]
    && ch.out == before + Target(data)[..sent]
  }

  /** The driver's turn: it offers memory and calls the encoder. */
  method Offer(enc: StripEncoder, ch: Channel, data: seq<byte>, budget: nat, eager: bool,
               ghost before: seq<Symbol>, ghost sent: nat) returns (done: bool)
    requires Underway(enc, ch, data, before, sent)
    modifies enc`state, enc.bytesEncoder, enc.copyEncoder, ch
    ensures done <==> sent + budget >= |Target(data)|
    ensures if done then enc.Ready() && ch.out == before + Target(data)
            else Underway(enc, ch, data, before, sent + budget)
  {
    ch.free := budget;
    ghost var rest := enc.Remaining(data);
    Slices(before, Target(data), sent, Min(budget, |rest|));
    var n, complete, _ := enc.Encode(ch, data, eager);
    done := complete;
  }

  /** A driver that offers one budget of memory per call until completion is reported. For
      every sequence of budgets the emitted symbols are the first `Sum(budgets)` of the
      target; completion is reported on the call that emits the reset symbol and never
      before, and then the encoder is ready for the next transmission. */
  method Transmit(enc: StripEncoder, ch: Channel, data: seq<byte>, budgets: seq<nat>, eager: seq<bool>)
    returns (complete: bool, calls: nat)
    requires enc.Ready() && |eager| == |budgets|
    modifies enc`state, enc.bytesEncoder, enc.copyEncoder, ch
    ensures calls <= |budgets|
    ensures complete <==> Sum(budgets) >= |Target(data)|
    ensures complete ==> enc.Ready() && ch.out == old(ch.out) + Target(data)
    ensures complete ==> calls > 0 && Sum(budgets[..calls - 1]) < |Target(data)| <= Sum(budgets[..calls])
    ensures !complete ==> Underway(enc, ch, data, old(ch.out), Sum(budgets))
  {
    complete, calls := false, 0;
    Slices(ch.out, Target(data), 0, 0);
    assert DataSymbols(data)[0..] == DataSymbols(data);
    while calls < |budgets|
      invariant 0 <= calls <= |budgets|
      invariant Underway(enc, ch, data, old(ch.out), Sum(budgets[..calls]))
    {
      SumNext(budgets, calls);
      complete := Offer(enc, ch, data, budgets[calls], eager[calls], old(ch.out), Sum(budgets[..calls]));
      calls := calls + 1;
      if complete {
        SumGrows(budgets, calls);
        return;
      }
    }
    assert budgets[..calls] == budgets;
  }
}
