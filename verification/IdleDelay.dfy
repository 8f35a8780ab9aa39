/**
 * Waiting a number of memory clocks: the loop counters computed for it, and the two jnz instructions of
 * the microprogram that run on them.
 */
module IdleDelay {
  import opened Bytes
  import opened Division
  import opened Words

  datatype Pc = Loop2 | Loop1 | Return

  /** Instructions executed at the two addresses. */
  datatype Executed = Executed(loop2: nat, loop1: nat)

  /**
   * The microprogram: Loop2 is "jnz counter 0, Loop2", Loop1 behind it is "jnz counter 1, target", and then
   * it returns. Each instruction tests its counter before it decrements it; a counter found at zero is loaded
   * again with its start value.
   */
  function Run(pc: Pc, c0: nat, c1: nat, load0: nat, target: Pc): Executed
    requires target != Return
    decreases c1, if pc == Loop2 then 1 else 0, c0
  {
    match pc
    case Return => Executed(0, 0)
    case Loop2 =>
      var rest := if c0 != 0 then Run(Loop2, c0 - 1, c1, load0, target) else Run(Loop1, load0, c1, load0, target);
      Executed(rest.loop2 + 1, rest.loop1)
    case Loop1 =>
      var rest := if c1 != 0 then Run(target, c0, c1 - 1, load0, target) else Executed(0, 0);
      Executed(rest.loop2, rest.loop1 + 1)
  }

  lemma {:induction false} SingleLoop(c0: nat, c1: nat, load0: nat)
    ensures Run(Loop1, c0, c1, load0, Loop1) == Executed(0, c1 + 1)
  {
    if c1 != 0 {
      SingleLoop(c0, c1 - 1, load0);
    }
  }

  lemma {:induction false} NestedLoops(c0: nat, c1: nat, load0: nat)
    ensures Run(Loop2, c0, c1, load0, Loop2) == Executed(c0 + 1 + (load0 + 1) * c1, c1 + 1)
    decreases c1, c0
  {
    if c0 != 0 {
      NestedLoops(c0 - 1, c1, load0);
    } else if c1 != 0 {
      NestedLoops(load0, c1 - 1, load0);
      assert (load0 + 1) * c1 == (load0 + 1) * (c1 - 1) + load0 + 1;
      var inner := Run(Loop1, load0, c1, load0, Loop2);
      assert inner == Executed(Run(Loop2, load0, c1 - 1, load0, Loop2).loop2, c1 + 1);
    } else {
      assert Run(Loop1, load0, c1, load0, Loop2) == Executed(0, 1);
    }
  }

  /** The counters: of eight, eight and sixteen bits. */
  datatype Counters = Counters(inner: nat, outer: nat, again: nat)
  {
    predicate Fit() { inner < 0x100 && outer < 0x100 && again < 0x1_0000 }
  }

  function CountersFor(afi: U32): (c: Counters)
    ensures c.Fit()
  {
    if afi == 0 then Counters(0, 0, 0)
    else if afi <= 0x100 then Counters(afi - 1, 0, 0)
    else if afi <= 0x1_0000 then Counters(0xff, (afi - 1) / 0x100, 0)
    else Counters(0xff, 0xff, (afi - 1) / 0x1_0000)
  }

  /** By how much a wait may be too long: whole inner loops, or whole nests of loops. */
  function Quantum(afi: U32): nat {
    if afi == 0 then 2 else if afi <= 0x100 then 1 else if afi <= 0x1_0000 then 0x100 else 0x1_0000
  }

  /** Memory clocks to clocks of the manager, rounding up in 32-bit arithmetic. */
  function AfiClocks(clocks: U32, ratio: nat): (n: U32)
    requires 1 <= ratio < 0x1_0000_0000
  {
    QuotientSmaller(Wrap(clocks + ratio - 1), ratio);
    Wrap(clocks + ratio - 1) / ratio
  }

  lemma QuotientSmaller(x: nat, d: nat)
    requires d >= 1
    ensures 0 <= x / d <= x
  {
    var q := x / d;
    assert x == d * q + x % d;
    MultipleGrows(q, d);
  }

  /** The manager's clocks are enough exactly when the rounding does not overflow; then less than one is too much. */
  lemma AfiClocksExact(clocks: U32, ratio: nat)
    requires 1 <= ratio < 0x1_0000_0000
    ensures var n := AfiClocks(clocks, ratio);
      && (n * ratio >= clocks <==> clocks + ratio - 1 < 0x1_0000_0000)
      && (clocks + ratio - 1 < 0x1_0000_0000 ==> n * ratio < clocks + ratio)
  {
    var x := Wrap(clocks + ratio - 1);
    assert x == ratio * (x / ratio) + x % ratio;
    assert (x / ratio) * ratio == ratio * (x / ratio);
    if clocks + ratio - 1 >= 0x1_0000_0000 {
      assert x < ratio;
      Quotient(x, ratio, 0, x);
    }
  }

  /**
   * delay_for_n_mem_clocks: runs the microprogram; idle is the number of times its waiting instruction is
   * executed, over all runs.
   */
  method Delay(clocks: U32, ratio: nat) returns (idle: nat, c: Counters)
    requires 1 <= ratio < 0x1_0000_0000
    ensures c.Fit()
    ensures var afi := AfiClocks(clocks, ratio); afi <= idle < afi + Quantum(afi)
  {
    var afi := AfiClocks(clocks, ratio);
    c := CountersFor(afi);
    if afi <= 0x100 {
      SingleLoop(0, c.inner, 0);
      var run := Run(Loop1, 0, c.inner, 0, Loop1);
      idle := run.loop1;
    } else {
      NestedLoops(c.inner, c.outer, c.inner);
      var run := Run(Loop2, c.inner, c.outer, c.inner, Loop2);
      assert run.loop2 == 0x100 * (c.outer + 1);
      idle := run.loop2;
      if afi > 0x1_0000 {
        var again := c.again;
        while again != 0
          invariant 0 <= again <= c.again && idle == 0x1_0000 * (c.again - again + 1)
        {
          again := again - 1;
          idle := idle + run.loop2;
        }
      }
    }
  }
}
