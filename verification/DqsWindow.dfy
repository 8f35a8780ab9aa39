/**
 * What the settings that passed and failed during a DQS enable search say about the window of the memory.
 */
module DqsWindow {
  import opened Division
  import opened DqsTaps

  /** From phase 1 of cycle v on, all phases that may be used before phase p1 of cycle c1 failed. */
  ghost predicate FailedBefore(failed: set<Setting>, taps: Taps, v: int, delay: int, c1: int, p1: int) {
    forall c, q | v <= c && 1 <= q <= taps.phaseMax && After(c1, p1, c, q) :: Setting(c, q, delay) in failed
  }

  /** fail is the first usable phase behind phase p of cycle v that failed. */
  ghost predicate Edge(taps: Taps, passed: set<Setting>, failed: set<Setting>, v: int, p: int, fail: Setting) {
    && fail in failed && fail.delay == 0 && 1 <= fail.phase <= taps.phaseMax && After(fail.v, fail.phase, v, p)
    && PassedBetween(passed, taps, v, p, fail.v, fail.phase)
  }

  /** The first m delay taps of a phase failed. */
  ghost predicate DelaysFailed(failed: set<Setting>, v: int, p: int, m: int) {
    forall k | 0 <= k < m :: Setting(v, p, k) in failed
  }

  /**
   * Going up by delay taps from phase p, which lies a phase tap before time x: the first to pass is number m and
   * lies at begin, or begin is x because all of them failed.
   */
  ghost predicate BackedOff(taps: Taps, passed: set<Setting>, failed: set<Setting>, v: int, p: int, x: int,
                            m: int, begin: int)
  {
    && m >= 0 && DelaysFailed(failed, v, p, m) && (m > 0 ==> taps.Delays(m - 1) < taps.opa)
    && begin == Least(x - taps.opa + taps.Delays(m), x)
    && (begin < x ==> Setting(v, p, m) in passed)
  }

  function Least(a: int, b: int): int { if a < b then a else b }

  /** The usable phase before. */
  function LastUsable(taps: Taps, s: Setting): Setting {
    if s.phase == 1 then Setting(s.v - 1, taps.phaseMax, 0) else Setting(s.v, s.phase - 1, 0)
  }

  /** Between phase p of cycle v and phase p1 of cycle c1, apart from these, all phases that may be used passed. */
  ghost predicate PassedBetween(passed: set<Setting>, taps: Taps, v: int, p: int, c1: int, p1: int) {
    forall c, q | 1 <= q <= taps.phaseMax && After(c, q, v, p) && After(c1, p1, c, q) :: Setting(c, q, 0) in passed
  }

  // A memory with one window.

  /** Every read test comes out by whether the setting lies in the window that begins at a, or a repetition of it. */
  ghost predicate OneWindow(taps: Taps, passes: (nat, Setting) -> bool, a: int, w: int)
    requires taps.Sound()
  {
    forall n: nat, s :: passes(n, s) <==> Inside(taps.At(s), a, w, taps.Round())
  }

  /** The time x lies in the window of length w from a on, or in a repetition of it n later or earlier. */
  predicate Inside(x: int, a: int, w: int, n: int)
    requires n > 0
  {
    (x - a) % n <= w
  }

  lemma ModIs(x: int, n: nat, q: int, r: int)
    requires 0 <= r < n && x == n * q + r
    ensures x % n == r
  {
    var q0, r0 := x / n, x % n;
    assert x == n * q0 + r0;
    assert n * (q0 - q) == n * q0 - n * q;
    SmallMultiple(n, q0 - q);
  }

  lemma InsideIs(x: int, a: int, w: int, n: nat, k: int)
    requires 0 <= w < n && a + Times(n, k) <= x < a + Times(n, k) + n
    ensures Inside(x, a, w, n) <==> x <= a + Times(n, k) + w
  {
    TimesIsProduct(n, k);
    ModIs(x - a, n, k, x - a - Times(n, k));
  }

  lemma InsideRepeats(x: int, a: int, w: int, n: nat, k: int)
    requires 0 <= w < n
    ensures Inside(x + Times(n, k), a, w, n) <==> Inside(x, a, w, n)
  {
    var q := StepsTo(n, x - a);
    InsideIs(x, a, w, n, q);
    TimesAdds(n, q, k);
    InsideIs(x + Times(n, k), a, w, n, q + k);
  }

  ghost predicate Repeats(b: int, a: int, n: nat) { exists k :: b == a + Times(n, k) }

  /** From lo up to one round behind it, b begins the only window. */
  ghost predicate OnlyWindow(lo: int, a: int, w: int, n: nat, b: int)
    requires n > 0
  {
    && Repeats(b, a, n) && lo < b < lo + n - w
    && forall x | lo <= x < b + n :: Inside(x, a, w, n) <==> b <= x <= b + w
  }

  /** From a time outside the window to the next one. */
  lemma NextWindow(lo: int, a: int, w: int, n: nat) returns (b: int)
    requires 0 <= w < n && !Inside(lo, a, w, n)
    ensures OnlyWindow(lo, a, w, n, b)
  {
    var k := StepsTo(n, lo - a);
    InsideIs(lo, a, w, n, k);
    b := a + Times(n, k + 1);
    forall x | lo <= x < b + n
      ensures Inside(x, a, w, n) <==> b <= x <= b + w
    {
      InsideIs(x, a, w, n, if x < b then k else k + 1);
    }
  }

  function AtCycle(s: Setting, v: int): Setting { s.(v := v) }

  /** Of the n settings from s on, a VFIFO push apart, at most one has not passed. */
  ghost predicate OneFailure(passed: set<Setting>, s: Setting, n: int) {
    forall x, y | s.v <= x < y < s.v + n :: AtCycle(s, x) in passed || AtCycle(s, y) in passed
  }

  lemma Rounds(cycle: nat, k: int)
    ensures Times(cycle, VFIFO_SIZE * k) == Times(VFIFO_SIZE * cycle, k)
  {
    TimesIsProduct(cycle, VFIFO_SIZE * k);
    TimesIsProduct(VFIFO_SIZE * cycle, k);
  }

  /** Any cycle is a whole number of rounds away from one of those the VFIFO is pushed to from v on. */
  lemma SameCycle(taps: Taps, s: Setting, v: int, a: int, w: int) returns (c: int)
    requires taps.Sound() && 0 <= w < taps.Round()
    ensures c == v + (s.v - v) % 16
    ensures Inside(taps.At(AtCycle(s, c)), a, w, taps.Round()) <==> Inside(taps.At(s), a, w, taps.Round())
  {
    c := v + (s.v - v) % 16;
    var k := (s.v - v) / 16;
    assert s.v == c + VFIFO_SIZE * k;
    TimesAdds(taps.Cycle(), c, VFIFO_SIZE * k);
    Rounds(taps.Cycle(), k);
    InsideRepeats(taps.At(AtCycle(s, c)), a, w, taps.Round(), k);
  }

  /** Outside the window there are at least two cycles. */
  lemma TwoOutside(taps: Taps, s: Setting, a: int, w: int) returns (c: int)
    requires taps.Sound() && 0 <= w && w + 3 * taps.Cycle() <= taps.Round()
    ensures !Inside(taps.At(AtCycle(s, c)), a, w, taps.Round())
    ensures !Inside(taps.At(AtCycle(s, c + 1)), a, w, taps.Round())
  {
    var cycle := taps.Cycle();
    var x := taps.At(AtCycle(s, 0));
    TimesSign(taps.opa, taps.phaseMax + 1);
    c := StepsTo(cycle, a + w - x);
    c := c + 1;
    InsideIs(x + Times(cycle, c), a, w, taps.Round(), 0);
    InsideIs(x + Times(cycle, c + 1), a, w, taps.Round(), 0);
  }

  lemma TwoFail(taps: Taps, passed: set<Setting>, s: Setting, a: int, w: int)
    requires taps.Clear(w) && forall t | t in passed :: Inside(taps.At(t), a, w, taps.Round())
    ensures !OneFailure(passed, s, VFIFO_SIZE)
  {
    ClearSizes(taps, w);
    var c := TwoOutside(taps, s, a, w);
    var x := SameCycle(taps, AtCycle(s, c), s.v, a, w);
    var y := SameCycle(taps, AtCycle(s, c + 1), s.v, a, w);
    assert AtCycle(s, x) !in passed && AtCycle(s, y) !in passed;
  }

  /** b..e is the only window between lo and hi that those settings show which passed and failed. */
  ghost predicate Shows(taps: Taps, passed: set<Setting>, failed: set<Setting>, lo: int, hi: int, b: int, e: int) {
    && (forall s | s in passed && lo <= taps.At(s) < hi :: b <= taps.At(s) <= e)
    && (forall s | s in failed && lo <= taps.At(s) < hi :: !(b <= taps.At(s) <= e))
  }

  /** The window begins behind the last phase of a cycle and not behind phase 1 of the next. */
  ghost predicate BeginsAtPhaseOne(taps: Taps, b: int) {
    exists c :: taps.At(Setting(c, 1, 0)) - 2 * taps.opa < b <= taps.At(Setting(c, 1, 0))
  }

  /** What was measured of window b..e: its edges to within a delay tap, or with the errors phase 0 causes. */
  ghost predicate Located(taps: Taps, begin: int, end: int, b: int, e: int) {
    if BeginsAtPhaseOne(taps, b) then
      b <= begin < b + 2 * taps.opa && e - taps.dchain < end + taps.opa <= e
    else
      b <= begin < b + taps.dchain && e - taps.dchain < end <= e
  }

  /** A whole round of phases finds the window. */
  lemma RoundFinds(taps: Taps, passed: set<Setting>, failed: set<Setting>, v: int, hi: int, b: int, e: int)
    requires taps.Sound() && Shows(taps, passed, failed, taps.At(Setting(v, 1, 0)), hi, b, e)
    requires taps.At(Setting(v, 1, 0)) < b && b + 2 * taps.opa <= e < hi
    requires b + taps.opa <= taps.At(Setting(v + VFIFO_SIZE, 0, 0))
    ensures !FailedBefore(failed, taps, v, 0, v + VFIFO_SIZE, 0)
  {
    var c, q := UsableAfter(taps, b);
    if c < v {
      AfterAt(taps, v, 1, c, q);
    } else if c >= v + VFIFO_SIZE {
      AfterAt(taps, c, q, v + VFIFO_SIZE, 0);
    }
    assert After(v + VFIFO_SIZE, 0, c, q);
    assert Setting(c, q, 0) !in failed;
  }

  /** The first usable phase that passes is the first in the window. */
  lemma FirstInWindow(taps: Taps, passed: set<Setting>, failed: set<Setting>, v: int, c: int, p: int,
                      hi: int, b: int, e: int)
    requires taps.Sound() && Shows(taps, passed, failed, taps.At(Setting(v, 1, 0)), hi, b, e)
    requires taps.At(Setting(v, 1, 0)) < b && v <= c && 1 <= p <= taps.phaseMax && taps.At(Setting(c, p, 0)) < hi
    requires FailedBefore(failed, taps, v, 0, c, p) && Setting(c, p, 0) in passed
    ensures var x := taps.At(Setting(c, p, 0)); b <= x <= e && x < b + if p == 1 then 2 * taps.opa else taps.opa
  {
    if After(c, p, v, 1) {
      AfterAt(taps, c, p, v, 1);
    }
    assert taps.At(Setting(v, 1, 0)) <= taps.At(Setting(c, p, 0));
    var s := LastUsable(taps, Setting(c, p, 0));
    assert p == 1 ==> c > v;
    if After(s.v, s.phase, v, 1) {
      AfterAt(taps, s.v, s.phase, v, 1);
    }
    assert s in failed;
  }

  /** That phase is phase 1 exactly when the window begins there. */
  lemma PhaseOneExactly(taps: Taps, c: int, p: int, b: int)
    requires taps.Sound() && 1 <= p <= taps.phaseMax
    requires var x := taps.At(Setting(c, p, 0)); b <= x < b + if p == 1 then 2 * taps.opa else taps.opa
    ensures BeginsAtPhaseOne(taps, b) <==> p == 1
  {
    if p == 1 {
      assert taps.At(Setting(c, 1, 0)) - 2 * taps.opa < b <= taps.At(Setting(c, 1, 0));
    } else if BeginsAtPhaseOne(taps, b) {
      var c' :| taps.At(Setting(c', 1, 0)) - 2 * taps.opa < b <= taps.At(Setting(c', 1, 0));
      if After(c, p, c', 1) {
        AfterAt(taps, c, p, c', 1);
      } else {
        AfterAt(taps, c', 0, c, p);
      }
      assert false;
    }
  }

  /** Going up by delay taps from the phase before finds the beginning to within a delay tap. */
  lemma BeginRefined(taps: Taps, passed: set<Setting>, failed: set<Setting>, v: int, p: int, m: int, begin: int,
                     lo: int, hi: int, b: int, e: int)
    requires taps.Sound() && Shows(taps, passed, failed, lo, hi, b, e)
    requires var x := taps.At(Setting(v, p, 0)) + taps.opa;
      lo <= x - taps.opa < b <= x <= e && x < hi && BackedOff(taps, passed, failed, v, p, x, m, begin)
    ensures b <= begin < b + taps.dchain
  {
    TimesSign(taps.dchain, m);
    if m > 0 {
      TimesSign(taps.dchain, m - 1);
      assert Setting(v, p, m - 1) in failed;
      assert taps.At(Setting(v, p, m - 1)) == taps.At(Setting(v, p, 0)) + taps.Delays(m - 1);
    }
  }

  /** The phase behind the window is among those looked at. */
  lemma EdgeInReach(taps: Taps, v: int, p: int, e: int) returns (c: int, q: int)
    requires taps.Sound() && 0 <= p <= taps.phaseMax && taps.At(Setting(v, p, 0)) <= e
    ensures 1 <= q <= taps.phaseMax && e < taps.At(Setting(c, q, 0)) <= e + 2 * taps.opa && After(c, q, v, p)
  {
    c, q := UsableAfter(taps, e + 1);
    if After(v, p, c, q) {
      AfterAt(taps, v, p, c, q);
    }
  }

  lemma EdgeExists(taps: Taps, passed: set<Setting>, failed: set<Setting>, v: int, p: int, c1: int,
                   lo: int, hi: int, b: int, e: int)
    requires taps.Sound() && Shows(taps, passed, failed, lo, hi, b, e) && 0 <= p <= taps.phaseMax
    requires lo <= b <= taps.At(Setting(v, p, 0)) <= e && e + 2 * taps.opa < hi
    requires e + taps.opa < taps.At(Setting(c1, 0, 0))
    ensures !PassedBetween(passed, taps, v, p, c1, 0)
  {
    var c, q := EdgeInReach(taps, v, p, e);
    if c >= c1 {
      AfterAt(taps, c, q, c1, 0);
    }
    assert Setting(c, q, 0) !in passed;
  }

  /** The last usable phase before the first failing one lies at most two phase taps before the window's end. */
  lemma EdgeAtEnd(taps: Taps, passed: set<Setting>, failed: set<Setting>, v: int, p: int, fail: Setting,
                  lo: int, hi: int, b: int, e: int)
    requires taps.Sound() && Shows(taps, passed, failed, lo, hi, b, e) && 0 <= p <= taps.phaseMax
    requires lo <= b <= taps.At(Setting(v, p, 0)) <= e && e + 2 * taps.opa < hi
    requires Edge(taps, passed, failed, v, p, fail)
    ensures var x := taps.At(LastUsable(taps, fail));
      x <= e < x + 2 * taps.opa && taps.At(Setting(v, p, 0)) - taps.opa <= x
  {
    FailsBehind(taps, passed, failed, v, p, fail, lo, hi, b, e);
    LastUsableAt(taps, fail);
    var u := LastUsable(taps, fail);
    if After(u.v, u.phase, v, p) {
      assert After(fail.v, fail.phase, u.v, u.phase);
      AfterAt(taps, u.v, u.phase, v, p);
      assert u in passed;
    } else if After(v, p, u.v, u.phase) {
      AfterAt(taps, v, p, u.v, u.phase);
    }
  }

  lemma LastUsableAt(taps: Taps, s: Setting)
    requires taps.Sound() && s.delay == 0
    ensures taps.At(LastUsable(taps, s)) == taps.At(s) - if s.phase == 1 then 2 * taps.opa else taps.opa
  {
  }

  /** The first failing phase lies behind the window, by at most two phase taps. */
  lemma FailsBehind(taps: Taps, passed: set<Setting>, failed: set<Setting>, v: int, p: int, fail: Setting,
                    lo: int, hi: int, b: int, e: int)
    requires taps.Sound() && Shows(taps, passed, failed, lo, hi, b, e) && 0 <= p <= taps.phaseMax
    requires lo <= b <= taps.At(Setting(v, p, 0)) <= e && e + 2 * taps.opa < hi
    requires Edge(taps, passed, failed, v, p, fail)
    ensures e < taps.At(fail) <= e + 2 * taps.opa && taps.At(Setting(v, p, 0)) + taps.opa <= taps.At(fail)
  {
    var c, q := EdgeInReach(taps, v, p, e);
    assert Setting(c, q, 0) !in passed;
    if After(c, q, fail.v, fail.phase) {
      AfterAt(taps, c, q, fail.v, fail.phase);
    }
    AfterAt(taps, fail.v, fail.phase, v, p);
  }

  /** Going on by delay taps from there finds the end to within a delay tap. */
  lemma EndRefined(taps: Taps, passed: set<Setting>, failed: set<Setting>, v: int, p: int, d: int,
                   lo: int, hi: int, b: int, e: int)
    requires taps.Sound() && Shows(taps, passed, failed, lo, hi, b, e)
    requires var x := taps.At(Setting(v, p, 0)); lo <= b <= x <= e < x + 2 * taps.opa
    requires 2 * taps.opa <= taps.Delays(taps.delayMax) && e + taps.dchain < hi
    requires 0 <= d <= taps.delayMax + 1 && forall k | 0 <= k < d :: Setting(v, p, k) in passed
    requires d <= taps.delayMax ==> Setting(v, p, d) in failed
    ensures d > 0 && taps.At(Setting(v, p, 0)) + taps.Delays(d - 1) <= e < taps.At(Setting(v, p, 0)) + taps.Delays(d)
  {
    var x := taps.At(Setting(v, p, 0));
    var k := StepsTo(taps.dchain, e - x);
    k := k + 1;
    TimesGrows(taps.dchain, k, 0);
    assert taps.At(Setting(v, p, k)) == x + taps.Delays(k);
    if k > taps.delayMax {
      TimesGrows(taps.dchain, taps.delayMax, k - 1);
    }
    assert d <= k;
    assert taps.At(Setting(v, p, d)) == x + taps.Delays(d);
    TimesGrows(taps.dchain, d, k);
    TimesSign(taps.dchain, d);
    if d > 0 {
      assert Setting(v, p, d - 1) in passed;
      assert taps.At(Setting(v, p, d - 1)) == x + taps.Delays(d - 1);
      TimesSign(taps.dchain, d - 1);
    }
  }

  /** The search along the phases, from the first setting to pass: where it began, and where the edge was looked for. */
  ghost predicate Traced(taps: Taps, passed: set<Setting>, failed: set<Setting>, first: Setting, x: int,
                         m: int, begin: int, start: Setting)
  {
    && start.delay == 0 && 0 <= start.phase <= taps.phaseMax && start.v >= first.v
    && taps.At(start) == taps.At(first) + (if first.phase == 1 then 2 * taps.opa else taps.opa)
    && (if first.phase == 1 then begin == x
        else BackedOff(taps, passed, failed, first.v, first.phase - 1, x, m, begin))
  }

  /** The only window, as it is seen from phase 1 of cycle v on. */
  ghost predicate Seen(taps: Taps, passed: set<Setting>, failed: set<Setting>, v: int, b: int, w: int)
    requires taps.Sound()
  {
    var lo := taps.At(Setting(v, 1, 0));
    && taps.Clear(w) && lo < b < lo + taps.Round() - w
    && Shows(taps, passed, failed, lo, b + taps.Round(), b, b + w)
  }

  lemma ClearSizes(taps: Taps, w: int)
    requires taps.Clear(w)
    ensures taps.Cycle() >= 3 * taps.opa > 0
  {
    TimesGrows(taps.opa, 3, taps.phaseMax + 1);
    TimesIsProduct(taps.opa, 3);
  }

  lemma RoundOn(taps: Taps, v: int, p: int)
    ensures taps.At(Setting(v + VFIFO_SIZE, p, 0)) == taps.At(Setting(v, p, 0)) + taps.Round()
  {
    TimesAdds(taps.Cycle(), v, VFIFO_SIZE);
    TimesIsProduct(taps.Cycle(), VFIFO_SIZE);
  }

  lemma FoundAtOnce(taps: Taps, passed: set<Setting>, failed: set<Setting>, v: int, b: int, w: int)
    requires taps.Sound() && Seen(taps, passed, failed, v, b, w)
    ensures !FailedBefore(failed, taps, v, 0, v + VFIFO_SIZE, 0)
  {
    ClearSizes(taps, w);
    RoundOn(taps, v, 0);
    RoundFinds(taps, passed, failed, v, b + taps.Round(), b, b + w);
  }

  /** The first setting to pass is the first usable phase of the window. */
  lemma FirstLocated(taps: Taps, passed: set<Setting>, failed: set<Setting>, v: int, b: int, w: int, first: Setting)
    requires taps.Sound() && Seen(taps, passed, failed, v, b, w)
    requires first in passed && first.delay == 0 && v <= first.v < v + VFIFO_SIZE && 1 <= first.phase <= taps.phaseMax
    requires FailedBefore(failed, taps, v, 0, first.v, first.phase)
    ensures BeginsAtPhaseOne(taps, b) <==> first.phase == 1
    ensures b <= taps.At(first) <= b + w && taps.At(first) < b + taps.Round()
    ensures taps.At(first) < b + if first.phase == 1 then 2 * taps.opa else taps.opa
  {
    ClearSizes(taps, w);
    RoundOn(taps, v, 0);
    AfterAt(taps, v + VFIFO_SIZE, 0, first.v, first.phase);
    FirstInWindow(taps, passed, failed, v, first.v, first.phase, b + taps.Round(), b, b + w);
    PhaseOneExactly(taps, first.v, first.phase, b);
  }

  lemma PhaseBefore(taps: Taps, v: int, first: Setting)
    requires taps.Sound() && first.delay == 0 && v <= first.v && 1 < first.phase <= taps.phaseMax
    ensures taps.At(Setting(v, 1, 0)) <= taps.At(Setting(first.v, first.phase - 1, 0)) == taps.At(first) - taps.opa
  {
    if After(first.v, first.phase - 1, v, 1) {
      AfterAt(taps, first.v, first.phase - 1, v, 1);
    }
  }

  /** The beginning is located, and the search for the end starts inside the window. */
  lemma BeginLocated(taps: Taps, passed: set<Setting>, failed: set<Setting>, v: int, b: int, w: int,
                     first: Setting, m: int, begin: int, start: Setting)
    requires taps.Sound() && Seen(taps, passed, failed, v, b, w)
    requires first in passed && first.delay == 0 && v <= first.v < v + VFIFO_SIZE && 1 <= first.phase <= taps.phaseMax
    requires FailedBefore(failed, taps, v, 0, first.v, first.phase)
    requires Traced(taps, passed, failed, first, taps.At(first), m, begin, start)
    ensures BeginsAtPhaseOne(taps, b) <==> first.phase == 1
    ensures b <= begin < b + if first.phase == 1 then 2 * taps.opa else taps.dchain
    ensures b + taps.opa <= taps.At(start) <= b + w
  {
    FirstLocated(taps, passed, failed, v, b, w, first);
    ClearSizes(taps, w);
    if first.phase > 1 {
      PhaseBefore(taps, v, first);
      BeginRefined(taps, passed, failed, first.v, first.phase - 1, m, begin,
                   taps.At(Setting(v, 1, 0)), b + taps.Round(), b, b + w);
    }
  }

  /** Times may be counted from any point. */
  lemma TracedFrom(taps: Taps, passed: set<Setting>, failed: set<Setting>, first: Setting, x: int, m: int, begin: int,
                   start: Setting, off: int)
    requires Traced(taps, passed, failed, first, x, m, begin, start)
    ensures Traced(taps, passed, failed, first, x + off, m, begin + off, start)
  {
  }

  /** The edge behind the window is found, and nothing moves the beginning. */
  lemma EdgeFound(taps: Taps, passed: set<Setting>, failed: set<Setting>, v: int, b: int, w: int,
                  start: Setting, c1: int)
    requires taps.Sound() && Seen(taps, passed, failed, v, b, w)
    requires start.delay == 0 && 0 <= start.phase <= taps.phaseMax && b <= taps.At(start) <= b + w
    requires c1 >= v + VFIFO_SIZE + 1
    ensures start !in failed && !PassedBetween(passed, taps, start.v, start.phase, c1, 0)
  {
    ClearSizes(taps, w);
    RoundOn(taps, v, 0);
    TimesGrows(taps.Cycle(), v + VFIFO_SIZE + 1, c1);
    EdgeExists(taps, passed, failed, start.v, start.phase, c1,
               taps.At(Setting(v, 1, 0)), b + taps.Round(), b, b + w);
  }

  /** The end is located. */
  lemma EndLocated(taps: Taps, passed: set<Setting>, failed: set<Setting>, v: int, b: int, w: int,
                   start: Setting, fail: Setting, u: Setting, d: int)
    requires taps.Sound() && Seen(taps, passed, failed, v, b, w)
    requires start.delay == 0 && 0 <= start.phase <= taps.phaseMax && b + taps.opa <= taps.At(start) <= b + w
    requires Edge(taps, passed, failed, start.v, start.phase, fail) && u == LastUsable(taps, fail)
    requires 0 <= d <= taps.delayMax + 1 && forall k | 0 <= k < d :: Setting(u.v, u.phase, k) in passed
    requires d <= taps.delayMax ==> Setting(u.v, u.phase, d) in failed
    ensures d > 0 && taps.At(u) + taps.Delays(d) - taps.dchain <= b + w < taps.At(u) + taps.Delays(d)
  {
    ClearSizes(taps, w);
    var lo, hi, e := taps.At(Setting(v, 1, 0)), b + taps.Round(), b + w;
    EdgeAtEnd(taps, passed, failed, start.v, start.phase, fail, lo, hi, b, e);
    EndRefined(taps, passed, failed, u.v, u.phase, d, lo, hi, b, e);
  }

  /** From the measured times to the edges of the window; end may be said to lie a phase tap early. */
  lemma BothLocated(taps: Taps, b: int, w: int, phaseOne: bool, begin: int, x: int, d: int, end: int)
    requires taps.Clear(w) && (BeginsAtPhaseOne(taps, b) <==> phaseOne)
    requires b <= begin < b + if phaseOne then 2 * taps.opa else taps.dchain
    requires x + taps.Delays(d) - taps.dchain <= b + w < x + taps.Delays(d)
    requires end == x + taps.Delays(d) - taps.dchain - if phaseOne then taps.opa else 0
    ensures Located(taps, begin, end, b, b + w) && begin <= end
  {
    ClearSizes(taps, w);
  }

  /**
   * Time x is within a delay tap of the middle of the window of length w from b on, plus what the taps can not
   * resolve; where phase 0 hid the beginning, a phase tap more. Both sides are doubled.
   */
  ghost predicate NearMiddle(taps: Taps, x: int, b: int, w: int, slack: int) {
    var spread := if BeginsAtPhaseOne(taps, b) then taps.opa + taps.dchain else taps.dchain;
    0 - spread - 1 <= 2 * x - (2 * b + w) <= spread + 2 * slack
  }

  /** The taps nearest to the measured middle, in the cycle it lies in: near the middle of the window, and in it. */
  lemma MiddleOf(taps: Taps, begin: int, end: int, v: int, b: int, w: int, mid: int, cycles: nat,
                 phase: int, delay: int)
    requires taps.Clear(w) && begin <= end && mid > 0 && Nearest(taps, mid, phase, delay)
    requires Located(taps, Times(taps.Cycle(), v) + begin, Times(taps.Cycle(), v) + end, b, b + w)
    requires (begin + end) / 2 == mid + Times(taps.Cycle(), cycles)
    ensures var x := taps.At(Setting(v + cycles, phase, delay));
      NearMiddle(taps, x, b, w, Slack(taps, mid)) && b <= x <= b + w
  {
    ClearSizes(taps, w);
    NearestError(taps, mid, phase, delay);
    var x := InCycle(taps, v, cycles, phase, delay);
    MiddleTime(taps, begin, end, Times(taps.Cycle(), v), b, w, x, Slack(taps, mid));
  }

  lemma InCycle(taps: Taps, v: int, cycles: int, phase: int, delay: int) returns (x: int)
    ensures x == taps.At(Setting(v + cycles, phase, delay))
    ensures x == Times(taps.Cycle(), v) + Times(taps.Cycle(), cycles) + taps.Position(phase, delay)
  {
    TimesAdds(taps.Cycle(), v, cycles);
    x := taps.At(Setting(v + cycles, phase, delay));
  }

  lemma MiddleTime(taps: Taps, begin: int, end: int, off: int, b: int, w: int, x: int, slack: int)
    requires begin <= end && taps.dchain <= taps.opa && 4 * taps.opa <= w && slack <= taps.opa
    requires Located(taps, off + begin, off + end, b, b + w)
    requires 0 <= x - off - (begin + end) / 2 < slack
    ensures NearMiddle(taps, x, b, w, slack) && b <= x <= b + w
  {
  }
}
