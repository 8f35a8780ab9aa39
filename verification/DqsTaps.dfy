/**
 * The taps that delay the DQS enable: VFIFO cycles, phase taps and delay taps, what a setting of them
 * stands for in time, and the setting nearest to a given time.
 */
module DqsTaps {
  /** d * k by repeated addition, as delays are added up. */
  function Times(d: nat, k: int): int
    decreases if k < 0 then -k else k
  {
    if k == 0 then 0 else if k > 0 then Times(d, k - 1) + d else Times(d, k + 1) - d
  }

  lemma {:induction false} TimesIsProduct(d: nat, k: int)
    ensures Times(d, k) == d * k
    decreases if k < 0 then -k else k
  {
    if k > 0 {
      TimesIsProduct(d, k - 1);
    } else if k < 0 {
      TimesIsProduct(d, k + 1);
    }
  }

  lemma TimesAdds(d: nat, a: int, b: int)
    ensures Times(d, a + b) == Times(d, a) + Times(d, b)
  {
    TimesIsProduct(d, a);
    TimesIsProduct(d, b);
    TimesIsProduct(d, a + b);
  }

  lemma {:induction false} TimesSign(d: nat, k: int)
    ensures k >= 1 ==> Times(d, k) >= d
    ensures k <= 0 ==> Times(d, k) <= 0
    decreases if k < 0 then -k else k
  {
    if k > 1 {
      TimesSign(d, k - 1);
    } else if k < 0 {
      TimesSign(d, k + 1);
    }
  }

  lemma TimesGrows(d: nat, a: int, b: int)
    ensures a <= b ==> Times(d, a) <= Times(d, b)
    ensures a < b ==> Times(d, a) + d <= Times(d, b)
  {
    TimesAdds(d, a, b - a);
    TimesSign(d, a - b);
    TimesSign(d, b - a);
    TimesAdds(d, b, a - b);
  }

  /** VFIFO pushes, phase taps and delay taps. */
  datatype Setting = Setting(v: int, phase: int, delay: int)

  const VFIFO_SIZE := 16

  /** opa and dchain are the delays of a phase tap and of a delay tap; the limits are the largest tap numbers. */
  datatype Taps = Taps(opa: nat, dchain: nat, phaseMax: nat, delayMax: nat)
  {
    /**
     * There is a phase besides phase 0, which is never used, the delay chain spans a phase tap, and the sum of
     * two times does not overflow a word.
     */
    predicate Sound() {
      0 < opa && 0 < dchain && 1 <= phaseMax && opa <= Delays(delayMax) && Reach() < 0x8000_0000
    }

    function Phases(n: int): int { Times(opa, n) }

    function Delays(n: int): int { Times(dchain, n) }

    function Cycle(): (c: nat)
      ensures c == Phases(phaseMax + 1)
    {
      TimesSign(opa, phaseMax + 1);
      Phases(phaseMax + 1)
    }

    /** No time a search works with is later. */
    function Reach(): int { 40 * Cycle() + 2 * Delays(delayMax + 1) }

    /** What a phase and a delay stand for within a cycle. */
    function Position(phase: int, delay: int): int { Phases(phase) + Delays(delay) }

    /** What a setting stands for. */
    function At(s: Setting): int { Times(Cycle(), s.v) + Phases(s.phase) + Delays(s.delay) }

    /** The VFIFO goes round after so long. */
    function Round(): (r: nat)
      ensures 0 < opa ==> r > 0
    {
      TimesSign(opa, phaseMax + 1);
      VFIFO_SIZE * Cycle()
    }

    /**
     * A window of length w is long enough to be found by phase taps, and short enough to leave three cycles
     * out of it; the delay chain spans two phase taps, as it must behind phase 0.
     */
    predicate Clear(w: int) {
      && Sound() && phaseMax >= 2 && dchain <= opa && 2 * opa <= Delays(delayMax)
      && 4 * opa <= w && w + 3 * Cycle() <= Round()
    }
  }

  /** This board's taps. */
  const BOARD := Taps(312, 25, 7, 31)

  /** The most steps that do not go beyond x. */
  lemma StepsTo(d: nat, x: int) returns (k: int)
    requires d > 0
    ensures Times(d, k) <= x < Times(d, k + 1) == Times(d, k) + d
  {
    k := x / d;
    TimesIsProduct(d, k);
    assert x == d * k + x % d;
  }

  lemma SameStep(d: nat, a: int, b: int, x: int)
    requires Times(d, a) < x <= Times(d, a) + d && Times(d, b) < x <= Times(d, b) + d
    ensures a == b
  {
    TimesGrows(d, a, b);
    TimesGrows(d, b, a);
  }

  /** This board's taps are sound, and what windows they can be expected to find: half a cycle to 13 cycles. */
  lemma BoardClear(w: int)
    ensures BOARD.Sound()
    ensures BOARD.Clear(w) <==> 1248 <= w <= 32448
  {
    TimesIsProduct(312, 8);
    TimesIsProduct(25, 31);
    TimesIsProduct(25, 32);
  }

  /** dtaps_per_ptap: the most delay taps that are shorter than a phase tap. */
  method DelayTapsPerPhase(taps: Taps) returns (n: nat)
    requires taps.Sound()
    ensures taps.Delays(n) < taps.opa <= taps.Delays(n + 1)
    ensures n < taps.delayMax
  {
    var count, delay := 0, 0;
    while delay < taps.opa
      invariant delay == taps.Delays(count) && (count > 0 ==> taps.Delays(count - 1) < taps.opa)
      decreases taps.opa - delay
    {
      count := count + 1;
      delay := delay + taps.dchain;
    }
    n := count - 1;
    if n >= taps.delayMax {
      TimesGrows(taps.dchain, taps.delayMax, n);
    }
  }

  // Step 6: the middle of the window.

  /** The taps for a time within one cycle: the least position not before it, but never phase 0. */
  predicate Nearest(taps: Taps, mid: int, phase: int, delay: int) {
    && 1 <= phase <= taps.phaseMax && 0 <= delay <= taps.delayMax
    && (if mid <= taps.Phases(1) then phase == 1 && delay == 0
        else
          && taps.Phases(phase) < mid <= taps.Phases(phase + 1)
          && mid <= taps.Position(phase, delay) < mid + taps.dchain)
  }

  /** Takes whole cycles off a time. */
  method WithinCycle(taps: Taps, work: int) returns (mid: int, ghost cycles: nat)
    requires taps.Sound() && work > 0
    ensures 0 < mid <= taps.Cycle() && work == mid + Times(taps.Cycle(), cycles)
  {
    var cycle := 0;
    for p := 0 to taps.phaseMax + 1
      invariant cycle == taps.Phases(p)
    {
      cycle := cycle + taps.opa;
    }
    TimesSign(taps.opa, taps.phaseMax + 1);
    mid, cycles := work, 0;
    while mid > cycle
      invariant mid > 0 && work == mid + Times(cycle, cycles)
      decreases mid
    {
      mid, cycles := mid - cycle, cycles + 1;
    }
  }

  /** The phase loop of step 6: the number of phase taps that reaches the time. */
  method PhaseTaps(taps: Taps, mid: int) returns (p: int)
    requires taps.Sound() && 0 < mid <= taps.Cycle()
    ensures 1 <= p <= taps.phaseMax + 1 && taps.Phases(p - 1) < mid <= taps.Phases(p)
  {
    var tmp := 0;
    p := 0;
    while p <= taps.phaseMax && tmp < mid
      invariant 0 <= p <= taps.phaseMax + 1 && tmp == taps.Phases(p) && (p > 0 ==> taps.Phases(p - 1) < mid)
      decreases taps.phaseMax + 1 - p
    {
      p, tmp := p + 1, tmp + taps.opa;
    }
  }

  /** Its delay loop: delay taps from a phase tap below. */
  method DelayTaps(taps: Taps, mid: int, p: int) returns (d: int)
    requires taps.Sound() && taps.Phases(p - 1) < mid <= taps.Phases(p)
    ensures 0 <= d <= taps.delayMax && mid <= taps.Position(p - 1, d) < mid + taps.dchain
  {
    var tmp := taps.Phases(p) - taps.opa;
    d := 0;
    while d <= taps.delayMax && tmp < mid
      invariant 0 <= d <= taps.delayMax && tmp == taps.Position(p - 1, d) && tmp < mid + taps.dchain
      decreases taps.delayMax + 1 - d
    {
      d, tmp := d + 1, tmp + taps.dchain;
    }
  }

  /** The taps for a time within one cycle. */
  method NearestTaps(taps: Taps, mid: int) returns (phase: int, delay: int)
    requires taps.Sound() && 0 < mid <= taps.Cycle()
    ensures Nearest(taps, mid, phase, delay)
  {
    var p := PhaseTaps(taps, mid);
    var d := DelayTaps(taps, mid, p);
    if p == 1 {
      p, d := 2, 0;
    } else {
      TimesGrows(taps.opa, 1, p - 1);
    }
    phase, delay := p - 1, d;
  }

  /** Every time within a cycle has its nearest taps, and only one pair of them. */
  lemma NearestIsUnique(taps: Taps, mid: int, phase: int, delay: int, phase': int, delay': int)
    requires taps.Sound() && 0 < mid <= taps.Cycle()
    requires Nearest(taps, mid, phase, delay) && Nearest(taps, mid, phase', delay')
    ensures phase == phase' && delay == delay'
  {
    if mid > taps.Phases(1) {
      SameStep(taps.opa, phase, phase', mid);
      SameStep(taps.dchain, delay - 1, delay' - 1, mid - taps.Phases(phase));
    }
  }

  /** How far the programmed taps may lie behind the time: a delay tap, or in phase 0 a phase tap. */
  function Slack(taps: Taps, mid: int): int { if mid <= taps.Phases(1) then taps.opa else taps.dchain }

  /** The error of the programmed taps is below a delay tap, except in phase 0, where it is below a phase tap. */
  lemma NearestError(taps: Taps, mid: int, phase: int, delay: int)
    requires taps.Sound() && 0 < mid && Nearest(taps, mid, phase, delay)
    ensures 0 <= taps.Position(phase, delay) - mid < Slack(taps, mid)
    ensures taps.Position(phase, delay) - mid >= taps.dchain ==> phase == 1 && delay == 0
  {
  }

  // The order of settings.

  /** Setting phase p of cycle v comes after phase q of cycle c. */
  predicate After(v: int, p: int, c: int, q: int) { v > c || (v == c && p > q) }

  lemma AfterAt(taps: Taps, v: int, p: int, c: int, q: int)
    requires taps.Sound() && 0 <= p <= taps.phaseMax && 0 <= q <= taps.phaseMax && After(v, p, c, q)
    ensures taps.At(Setting(c, q, 0)) + taps.opa <= taps.At(Setting(v, p, 0))
  {
    TimesGrows(taps.Cycle(), c, v);
    TimesGrows(taps.opa, q, p);
    TimesGrows(taps.opa, q, taps.phaseMax + 1);
    TimesSign(taps.opa, p);
    TimesGrows(taps.opa, 0, p);
  }

  lemma WithinCycles(taps: Taps, v: int, p: int, c: int, q: int)
    requires taps.Sound() && 0 <= p <= taps.phaseMax && 0 <= q <= taps.phaseMax && c <= v + VFIFO_SIZE
    ensures taps.At(Setting(c, q, 0)) - taps.At(Setting(v, p, 0)) <= 17 * taps.Cycle()
  {
    TimesGrows(taps.Cycle(), c, v + VFIFO_SIZE);
    TimesAdds(taps.Cycle(), v, VFIFO_SIZE);
    TimesIsProduct(taps.Cycle(), VFIFO_SIZE);
    TimesGrows(taps.opa, q, taps.phaseMax + 1);
    TimesGrows(taps.opa, 0, p);
  }

  /** The first phase at or after a time that may be used lies less than two phase taps behind it. */
  lemma UsableAfter(taps: Taps, x: int) returns (c: int, q: int)
    requires taps.Sound()
    ensures 1 <= q <= taps.phaseMax && x <= taps.At(Setting(c, q, 0)) < x + 2 * taps.opa
  {
    var cycle := taps.Cycle();
    TimesSign(taps.opa, taps.phaseMax + 1);
    c := StepsTo(cycle, x);
    q := 1;
    while Times(cycle, c) + taps.Phases(q) < x
      invariant 1 <= q <= taps.phaseMax + 1
      invariant Times(cycle, c) + taps.Phases(q) < x + if q == 1 then 2 * taps.opa else taps.opa
      decreases taps.phaseMax + 1 - q
    {
      q := q + 1;
    }
    if q == taps.phaseMax + 1 {
      c, q := c + 1, 1;
    }
  }
}
