/**
 * One DQS group of the DDR3 sequencer: its delay taps, the pass/fail test of the
 * memory behind them, and the per-bit deskew and DM centring that search and program the taps.
 */
module DelayGroup {
  import opened CInt
  import opened TapWindow

  /** Which side of the bus is calibrated; the sequencer compiles a separate routine for each. */
  datatype Side = ReadSide | WriteSide

  /** Does DQ pin i sample correctly when DQS lags it by this many taps? */
  type PinOracle = (nat, int) -> bool

  function Or(a: seq<bool>, b: seq<bool>): (c: seq<bool>)
    requires |a| == |b|
    ensures |c| == |a| && forall i | 0 <= i < |c| :: c[i] == (a[i] || b[i])
  {
    seq(|a|, i requires 0 <= i < |a| => a[i] || b[i])
  }

  ghost predicate AllFail(good: PinOracle, bits: int, x: int) {
    forall i | 0 <= i < bits :: !good(i, x)
  }

  predicate All(a: seq<bool>) {
    forall i | 0 <= i < |a| :: a[i]
  }

  /** left_edge and right_edge of one bit after testing DQ delay d. */
  function LeftStep(passed: bool, d: int, left: int, right: int, illegal: int): (int, int) {
    if passed then (d, right)
    else if left == illegal then (left, -(d + 1))
    else (left, right)
  }

  /** left_edge and right_edge of one bit after testing extra DQS delay d. */
  function RightStep(passed: bool, d: int, left: int, right: int, illegal: int): (int, int) {
    if passed then (left, d)
    else if d != 0 then
      if right == illegal then (-(d + 1), right) else (left, right)
    else if right == illegal && left != illegal then (left, -1)
    else if right == illegal then (-(d + 1), right)
    else (left, right)
  }

  /** Edges of one bit once DQ delays 0..d-1 have been tested in order. */
  function LeftEdges(good: PinOracle, i: nat, start: int, illegal: int, d: nat): (int, int) {
    if d == 0 then (illegal, illegal)
    else
      var (l, r) := LeftEdges(good, i, start, illegal, d - 1);
      LeftStep(good(i, start - (d - 1)), d - 1, l, r, illegal)
  }

  /** Edges of one bit, starting from (left, right), once extra DQS delays 0..d-1 have been tested in order. */
  function RightEdges(good: PinOracle, i: nat, start: int, illegal: int, left: int, right: int, d: nat): (int, int) {
    if d == 0 then (left, right)
    else
      var (l, r) := RightEdges(good, i, start, illegal, left, right, d - 1);
      RightStep(good(i, start + (d - 1)), d - 1, l, r, illegal)
  }

  /** The right edge of a bit that never passed in the DQ sweep means nothing and is reset. */
  function ResetRight(left: int, right: int, illegal: int): int {
    if left == illegal && right != illegal then illegal else right
  }

  /** Pass/fail of pin i by position: how many taps beyond start DQS lags it. */
  ghost function Axis(good: PinOracle, i: nat, start: int): int -> bool {
    x => good(i, start + x)
  }

  /** What is known of one pin after the DQ sweep tested positions lo..0. */
  ghost predicate LeftSeen(pass: int -> bool, lo: int, left: int, right: int, illegal: int) {
    || (NonePass(pass, lo, 0) && left == illegal && right == (if lo == 1 then illegal else lo - 1))
    || LeftFound(pass, lo, left, right, illegal)
  }

  ghost predicate LeftFound(pass: int -> bool, lo: int, left: int, right: int, illegal: int) {
    && left != illegal
    && (right == illegal || right < 0)
    && Hull(pass, lo, 0, -left, if right == illegal then 0 else right)
  }

  /** The measured edges of one pin after both sweeps together tested positions lo..hi. */
  ghost predicate EdgesSeen(pass: int -> bool, lo: int, hi: int, left: int, right: int, illegal: int) {
    || (NonePass(pass, lo, hi) && right == illegal)
    || (left != illegal && right != illegal && Hull(pass, lo, hi, -left, right))
  }

  lemma {:induction false} LeftEdgesSeen(good: PinOracle, i: nat, start: int, illegal: int, d: nat)
    requires d <= illegal
    ensures var (l, r) := LeftEdges(good, i, start, illegal, d);
      LeftSeen(Axis(good, i, start), 1 - d, l, r, illegal)
  {
    if d > 0 {
      LeftEdgesSeen(good, i, start, illegal, d - 1);
      assert Axis(good, i, start)(1 - d) == good(i, start - (d - 1));
    }
  }

  lemma {:induction false} RightEdgesSeen(good: PinOracle, i: nat, start: int, illegal: int, lo: int,
                                          left: int, right: int, d: nat)
    requires lo <= 0 < d <= illegal
    requires LeftSeen(Axis(good, i, start), lo, left, right, illegal)
    ensures var (l, r) := RightEdges(good, i, start, illegal, left, ResetRight(left, right, illegal), d);
      EdgesSeen(Axis(good, i, start), lo, d - 1, l, r, illegal) && (r == illegal ==> l + d == 0)
  {
    assert Axis(good, i, start)(d - 1) == good(i, start + (d - 1));
    if d > 1 {
      RightEdgesSeen(good, i, start, illegal, lo, left, right, d - 1);
    } else {
      assert RightEdges(good, i, start, illegal, left, ResetRight(left, right, illegal), 0)
        == (left, ResetRight(left, right, illegal));
    }
  }

  /**
   * The sweeps stop early only at a setting where every pin fails after every pin has passed:
   * if every pin has at most one window, nothing beyond the swept range lo..hi can pass.
   */
  lemma StoppingIsSafe(pass: int -> bool, least: int, most: int, lo: int, hi: int,
                       left: int, right: int, illegal: int)
    requires least <= lo <= 0 <= most && -1 <= hi <= most
    requires EdgesSeen(pass, lo, hi, left, right, illegal)
    requires lo > least ==> !pass(lo - 1) && !NonePass(pass, lo, 0)
    requires hi < most ==> !pass(hi + 1) && !NonePass(pass, lo, hi)
    requires OneWindow(pass, least, most)
    ensures (NonePass(pass, least, most) && right == illegal)
      || (left != illegal && right != illegal && Window(pass, least, most, -left, right))
  {
    if lo > least {
      var y :| lo <= y <= 0 && pass(y);
      assert NonePass(pass, least, lo - 1);
    }
    if hi < most {
      var y :| lo <= y <= hi && pass(y);
      assert NonePass(pass, hi + 1, most);
    }
  }

  /** The edges one pin ends up with, given where the two sweeps stopped. */
  lemma SweepsMeasureHull(good: PinOracle, i: nat, start: int, illegal: int, side: Side,
                          stopL: nat, stopR: nat, left0: int, right0: int, left: int, right: int)
    requires 0 < stopL <= illegal && stopR <= illegal
    requires (left0, right0) == LeftEdges(good, i, start, illegal, stopL)
    requires var (l, r) := RightEdges(good, i, start, illegal, left0, ResetRight(left0, right0, illegal), stopR);
      left == l && right == if stopR == 0 && side == WriteSide && r == illegal && l != illegal then -1 else r
    requires stopR == 0 ==> !good(i, start) && left0 != illegal
    requires stopR == 0 && side == ReadSide ==> right0 != illegal
    ensures EdgesSeen(Axis(good, i, start), 1 - stopL, stopR - 1, left, right, illegal)
    ensures left0 != illegal ==> !NonePass(Axis(good, i, start), 1 - stopL, 0)
    ensures right != illegal ==> !NonePass(Axis(good, i, start), 1 - stopL, stopR - 1)
  {
    LeftEdgesSeen(good, i, start, illegal, stopL);
    assert Axis(good, i, start)(0) == good(i, start);
    if stopR > 0 {
      RightEdgesSeen(good, i, start, illegal, 1 - stopL, left0, right0, stopR);
    }
  }

  /** Twice the distance of a window's centre from position 0, to the left. */
  function Skew(left: int, right: int): int { left - right }

  /** Half of a skew, rounded up: mid_min after its bias. */
  function HalfUp(m: int): (h: int)
    ensures 2 * h - 1 <= m <= 2 * h
  {
    Quot(if m > 0 then m + 1 else m, 2)
  }

  /** How far DQ must be delayed to align one pin with the least skewed one, DQS having moved left by moved. */
  function Shift(skew: int, least: int, moved: int): int {
    Quot(skew - least, 2) + (HalfUp(least) - moved)
  }

  function Clamp(x: int, lo: int, hi: int): int {
    if x > hi then hi else if x < lo then lo else x
  }

  /** The shift that keeps a tap in range. */
  function Saturate(shift: int, tap: int, most: int): (s: int)
    ensures tap + s == Clamp(tap + shift, 0, most)
  {
    if shift + tap > most then most - tap
    else if shift + tap < 0 then -tap
    else shift
  }

  ghost predicate IsLeastSkew(least: int, left: seq<int>, right: seq<int>)
    requires |left| == |right|
  {
    && (exists i | 0 <= i < |left| :: Skew(left[i], right[i]) == least)
    && (forall i | 0 <= i < |left| :: least <= Skew(left[i], right[i]))
  }

  /** How far left of its starting tap DQS ends up; the write side leaves DQS alone. */
  function DqsMove(side: Side, start: int, least: int): int {
    if side == ReadSide then Min(HalfUp(least), start) else 0
  }

  /** A pin whose strobe sits at position pos has left and right margins that differ by at most one tap. */
  ghost predicate Balanced(left: int, right: int, pos: int) {
    -1 <= (left + pos) - (right - pos) <= 1
  }

  /**
   * Read side: the lower DQ clamp never fires, and a pin ends up balanced, hence inside its
   * window, exactly when its centre is within reach of the DQ delay chain.
   */
  lemma ReadCentring(left: int, right: int, least: int, start: int, dqMax: int)
    requires 0 <= start <= dqMax && -dqMax <= -left <= right && least <= Skew(left, right)
    ensures var moved := DqsMove(ReadSide, start, least);
      var shift := Shift(Skew(left, right), least, moved);
      var pos := -moved - Clamp(shift, 0, dqMax);
      && shift >= 0
      && -dqMax <= pos
      && (start < HalfUp(least) ==> shift <= dqMax)
      && (Balanced(left, right, pos) <==> Skew(left, right) <= 2 * (dqMax + moved) + 1)
      && (Balanced(left, right, pos) ==> -left <= pos <= right)
  {
  }

  /**
   * Write side: DQS stays put, the upper DQ clamp never fires, and a pin ends up balanced exactly
   * when its centre is not right of the strobe.
   */
  lemma WriteCentring(left: int, right: int, least: int, dqMax: int)
    requires 0 <= dqMax && -dqMax <= -left <= right && least <= Skew(left, right)
    ensures var shift := Shift(Skew(left, right), least, 0);
      var pos := -Clamp(shift, 0, dqMax);
      && shift <= dqMax
      && (Balanced(left, right, pos) <==> Skew(left, right) >= -1)
      && (Balanced(left, right, pos) ==> -left <= pos <= right)
  {
  }

  /** The two ways a deskew ends: a pin without a window, or all pins centred with the margins left over. */
  datatype Outcome = NoWindow(bit: int) | Centred(dqMargin: int, dqsMargin: int)
  {
    predicate Success() { Centred? && dqMargin >= 0 && dqsMargin >= 0 }
  }

  /** Every pin has at most one window between positions least and most. */
  ghost predicate OneWindowEach(good: PinOracle, bits: int, start: int, least: int, most: int) {
    forall i | 0 <= i < bits :: OneWindow(Axis(good, i, start), least, most)
  }

  /** Why a sweep of lo..hi stopped short of least..most: all pins fail at the next setting and all have passed. */
  ghost predicate StoppedWell(good: PinOracle, bits: int, start: int, least: int, most: int, lo: int, hi: int) {
    && least <= lo <= 0 && -1 <= hi <= most
    && (lo > least ==>
      && AllFail(good, bits, start + lo - 1)
      && forall i | 0 <= i < bits :: !NonePass(Axis(good, i, start), lo, 0))
    && (hi < most ==>
      && AllFail(good, bits, start + hi + 1)
      && forall i | 0 <= i < bits :: !NonePass(Axis(good, i, start), lo, hi))
  }

  /** With one window each, what a stopped sweep measured holds over the whole range of the delay chains. */
  lemma EdgesAreExact(good: PinOracle, bits: int, start: int, least: int, most: int, lo: int, hi: int,
                      i: int, left: int, right: int, illegal: int)
    requires StoppedWell(good, bits, start, least, most, lo, hi) && 0 <= i < bits && most >= 0
    requires OneWindowEach(good, bits, start, least, most)
    requires EdgesSeen(Axis(good, i, start), lo, hi, left, right, illegal)
    ensures (NonePass(Axis(good, i, start), least, most) && right == illegal)
      || (left != illegal && right != illegal && Window(Axis(good, i, start), least, most, -left, right))
  {
    StoppingIsSafe(Axis(good, i, start), least, most, lo, hi, left, right, illegal);
  }

  /** No two measured centres are more than reach taps apart. */
  ghost predicate CentresWithin(left: seq<int>, right: seq<int>, reach: int)
    requires |left| == |right|
  {
    forall i, j | 0 <= i < |left| && 0 <= j < |left| :: Skew(left[i], right[i]) - Skew(left[j], right[j]) <= 2 * reach
  }

  /** Where pin i's strobe sits at the given taps passes the test. */
  ghost predicate PinPasses(good: PinOracle, i: nat, dqs: int, dq: int) { good(i, dqs - dq) }

  /** The DQ taps programmed by a deskew that moved DQS left by moved. */
  ghost predicate DqTapsFor(dqMax: int, least: int, left: seq<int>, right: seq<int>, moved: int, dq: seq<int>)
    requires |left| == |right| == |dq|
  {
    forall i | 0 <= i < |dq| :: dq[i] == Clamp(Shift(Skew(left[i], right[i]), least, moved), 0, dqMax)
  }

  /** All the taps programmed by a deskew. */
  ghost predicate TapsFor(side: Side, start: int, dqMax: int, least: int, left: seq<int>, right: seq<int>,
                          dqs: int, dq: seq<int>)
  {
    && |left| == |right| == |dq|
    && IsLeastSkew(least, left, right)
    && dqs == start - DqsMove(side, start, least)
    && DqTapsFor(dqMax, least, left, right, start - dqs, dq)
  }

  /** A deskewed pin's strobe stays within the positions the sweeps explored. */
  lemma FinalPosition(side: Side, start: int, dqMax: int, dqsMax: int, least: int, left: int, right: int,
                      dqs: int, dq: int)
    requires 0 <= start <= dqsMax <= dqMax && 0 <= dqs <= dqsMax && -dqMax <= -left <= right
    requires dqs == start - DqsMove(side, start, least) && least <= Skew(left, right)
    requires dq == Clamp(Shift(Skew(left, right), least, start - dqs), 0, dqMax)
    ensures -dqMax <= dqs - start - dq <= dqsMax - start
  {
    if side == ReadSide {
      ReadCentring(left, right, least, start, dqMax);
    } else {
      WriteCentring(left, right, least, dqMax);
    }
  }

  /** So its window decides whether it passes. */
  lemma DeskewedPinPasses(side: Side, good: PinOracle, i: nat, start: int, dqMax: int, dqsMax: int, least: int,
                          left: seq<int>, right: seq<int>, dqs: int, dq: seq<int>)
    requires 0 <= start <= dqsMax <= dqMax && 0 <= dqs <= dqsMax
    requires TapsFor(side, start, dqMax, least, left, right, dqs, dq) && i < |dq|
    requires Window(Axis(good, i, start), -dqMax, dqsMax - start, -left[i], right[i])
    ensures PinPasses(good, i, dqs, dq[i]) <==> -left[i] <= dqs - start - dq[i] <= right[i]
  {
    FinalPosition(side, start, dqMax, dqsMax, least, left[i], right[i], dqs, dq[i]);
    assert Axis(good, i, start)(dqs - start - dq[i]) == good(i, dqs - dq[i]);
  }

  /** Every pin's strobe lies inside its measured window. */
  ghost predicate Inside(start: int, left: seq<int>, right: seq<int>, dqs: int, dq: seq<int>)
    requires |left| == |right| == |dq|
  {
    forall i | 0 <= i < |dq| :: -left[i] <= dqs - start - dq[i] <= right[i]
  }

  /** The smallest left and right margins over all pins once DQS has moved left by moved, at most cap. */
  ghost predicate WorstMargins(dqMargin: int, dqsMargin: int, cap: int, left: seq<int>, right: seq<int>,
                               moved: int, dq: seq<int>)
    requires |left| == |right| == |dq|
  {
    && dqMargin <= cap && dqsMargin <= cap
    && (forall i | 0 <= i < |dq| :: dqMargin <= left[i] - dq[i] - moved && dqsMargin <= right[i] + dq[i] + moved)
    && (dqMargin == cap || exists i | 0 <= i < |dq| :: dqMargin == left[i] - dq[i] - moved)
    && (dqsMargin == cap || exists i | 0 <= i < |dq| :: dqsMargin == right[i] + dq[i] + moved)
  }

  lemma WorstMarginsDecide(dqMargin: int, dqsMargin: int, cap: int, start: int, left: seq<int>, right: seq<int>,
                           dqs: int, dq: seq<int>)
    requires |left| == |right| == |dq| && cap >= 0
    requires WorstMargins(dqMargin, dqsMargin, cap, left, right, start - dqs, dq)
    ensures dqMargin >= 0 && dqsMargin >= 0 <==> Inside(start, left, right, dqs, dq)
  {
  }

  /** Everything a deskew establishes about its measured edges and the taps it leaves behind. */
  ghost predicate DeskewDone(side: Side, good: PinOracle, start: int, dqMax: int, dqsMax: int,
                             lo: int, hi: int, least: int,
                             outcome: Outcome, left: seq<int>, right: seq<int>, dqs: int, dq: seq<int>)
  {
    && |left| == |right| == |dq|
    && StoppedWell(good, |dq|, start, -dqMax, dqsMax - start, lo, hi)
    && (forall i | 0 <= i < |dq| :: EdgesSeen(Axis(good, i, start), lo, hi, left[i], right[i], dqMax + 1))
    && (outcome.NoWindow? ==>
      && FirstWithout(outcome.bit, right, dqMax + 1)
      && (forall i | 0 <= i < |dq| :: dq[i] == 0)
      && dqs == if side == ReadSide then start else Min(start + hi + 1, dqsMax))
    && (outcome.Centred? ==>
      && (forall i | 0 <= i < |dq| :: right[i] != dqMax + 1 && -dqMax <= -left[i] <= right[i])
      && TapsFor(side, start, dqMax, least, left, right, dqs, dq)
      && (outcome.Success() <==> Inside(start, left, right, dqs, dq)))
  }

  /** bit is the first pin whose right edge still is the sentinel. */
  ghost predicate FirstWithout(bit: int, right: seq<int>, illegal: int) {
    && 0 <= bit < |right| && right[bit] == illegal
    && forall k | 0 <= k < bit :: right[k] != illegal
  }

  /**
   * The result of a deskew from DQS tap start of pins with one window each: the edges are the windows,
   * the sentinel marks exactly the pins that pass nowhere, the first of these is reported, and success
   * means that every pin passes at the taps left behind.
   */
  ghost predicate DeskewExact(good: PinOracle, start: int, dqMax: int, dqsMax: int,
                              outcome: Outcome, left: seq<int>, right: seq<int>, dqs: int, dq: seq<int>)
  {
    && |left| == |right| == |dq|
    && (forall i | 0 <= i < |dq| :: PinExact(good, i, start, dqMax, dqsMax, left[i], right[i]))
    && (outcome.NoWindow? ==> FirstWithout(outcome.bit, right, dqMax + 1))
    && (outcome.Centred? ==> forall i | 0 <= i < |dq| :: right[i] != dqMax + 1)
    && (outcome.Success() <==> forall i | 0 <= i < |dq| :: PinPasses(good, i, dqs, dq[i]))
  }

  /** What the measured edges of pin i say, once it is known to have at most one window. */
  ghost predicate PinExact(good: PinOracle, i: nat, start: int, dqMax: int, dqsMax: int, left: int, right: int) {
    if right == dqMax + 1 then NonePass(Axis(good, i, start), -dqMax, dqsMax - start)
    else Window(Axis(good, i, start), -dqMax, dqsMax - start, -left, right)
  }

  lemma PinVerdict(side: Side, good: PinOracle, start: int, dqMax: int, dqsMax: int, lo: int, hi: int, least: int,
                   outcome: Outcome, left: seq<int>, right: seq<int>, dqs: int, dq: seq<int>, i: nat)
    requires 0 <= start <= dqsMax <= dqMax && 0 <= dqs <= dqsMax && i < |dq|
    requires OneWindowEach(good, |dq|, start, -dqMax, dqsMax - start)
    requires DeskewDone(side, good, start, dqMax, dqsMax, lo, hi, least, outcome, left, right, dqs, dq)
    ensures PinExact(good, i, start, dqMax, dqsMax, left[i], right[i])
    ensures outcome.Centred? ==> (PinPasses(good, i, dqs, dq[i]) <==> -left[i] <= dqs - start - dq[i] <= right[i])
    ensures outcome.NoWindow? && i == outcome.bit ==> !PinPasses(good, i, dqs, dq[i])
  {
    EdgesAreExact(good, |dq|, start, -dqMax, dqsMax - start, lo, hi, i, left[i], right[i], dqMax + 1);
    if outcome.Centred? {
      DeskewedPinPasses(side, good, i, start, dqMax, dqsMax, least, left, right, dqs, dq);
    } else if i == outcome.bit {
      assert !Axis(good, i, start)(dqs - start);
    }
  }

  lemma DeskewVerdict(side: Side, good: PinOracle, start: int, dqMax: int, dqsMax: int, lo: int, hi: int, least: int,
                      outcome: Outcome, left: seq<int>, right: seq<int>, dqs: int, dq: seq<int>)
    requires 0 <= start <= dqsMax <= dqMax && 0 <= dqs <= dqsMax
    requires OneWindowEach(good, |dq|, start, -dqMax, dqsMax - start)
    requires DeskewDone(side, good, start, dqMax, dqsMax, lo, hi, least, outcome, left, right, dqs, dq)
    ensures DeskewExact(good, start, dqMax, dqsMax, outcome, left, right, dqs, dq)
  {
    forall i | 0 <= i < |dq|
      ensures PinExact(good, i, start, dqMax, dqsMax, left[i], right[i])
      ensures outcome.Centred? ==> (PinPasses(good, i, dqs, dq[i]) <==> -left[i] <= dqs - start - dq[i] <= right[i])
      ensures outcome.NoWindow? && i == outcome.bit ==> !PinPasses(good, i, dqs, dq[i])
    {
      PinVerdict(side, good, start, dqMax, dqsMax, lo, hi, least, outcome, left, right, dqs, dq, i);
    }
  }

  /** Every pin is centred in its window to within a tap. */
  ghost predicate AllBalanced(start: int, left: seq<int>, right: seq<int>, dqs: int, dq: seq<int>)
    requires |left| == |right| == |dq|
  {
    forall i | 0 <= i < |dq| :: Balanced(left[i], right[i], dqs - start - dq[i])
  }

  /** Read side: exactly the pins whose centre the DQ delay chain can still reach are balanced. */
  ghost predicate ReadBalance(start: int, dqMax: int, left: seq<int>, right: seq<int>, dqs: int, dq: seq<int>) {
    && |left| == |right| == |dq|
    && forall i | 0 <= i < |dq| ::
      Balanced(left[i], right[i], dqs - start - dq[i]) <==> Skew(left[i], right[i]) <= 2 * (dqMax + start - dqs) + 1
  }

  /** Write side: exactly the pins whose centre is not right of the strobe are balanced. */
  ghost predicate WriteBalance(start: int, left: seq<int>, right: seq<int>, dqs: int, dq: seq<int>) {
    && |left| == |right| == |dq|
    && forall i | 0 <= i < |dq| ::
      Balanced(left[i], right[i], dqs - start - dq[i]) <==> Skew(left[i], right[i]) >= -1
  }

  ghost predicate NoneRightOfStrobe(left: seq<int>, right: seq<int>)
    requires |left| == |right|
  {
    forall i | 0 <= i < |left| :: Skew(left[i], right[i]) >= -1
  }

  /** Read side: windows whose centres are at most one DQ delay chain apart are all centred to within a tap. */
  lemma CloseCentresBalance(start: int, dqMax: int, least: int, left: seq<int>, right: seq<int>, dqs: int, dq: seq<int>)
    requires 0 <= start <= dqMax
    requires TapsFor(ReadSide, start, dqMax, least, left, right, dqs, dq)
    requires forall i | 0 <= i < |dq| :: -dqMax <= -left[i] <= right[i]
    ensures ReadBalance(start, dqMax, left, right, dqs, dq)
    ensures CentresWithin(left, right, dqMax) ==> Inside(start, left, right, dqs, dq)
    ensures CentresWithin(left, right, dqMax) ==> AllBalanced(start, left, right, dqs, dq)
  {
    var at :| 0 <= at < |left| && Skew(left[at], right[at]) == least;
    forall i | 0 <= i < |dq|
      ensures Balanced(left[i], right[i], dqs - start - dq[i])
        <==> Skew(left[i], right[i]) <= 2 * (dqMax + start - dqs) + 1
      ensures Balanced(left[i], right[i], dqs - start - dq[i]) ==> -left[i] <= dqs - start - dq[i] <= right[i]
      ensures Skew(left[i], right[i]) - Skew(left[at], right[at]) <= 2 * dqMax ==>
        Skew(left[i], right[i]) <= 2 * (dqMax + start - dqs) + 1
    {
      ReadCentring(left[i], right[i], least, start, dqMax);
    }
  }

  /** Write side: with DQS left alone, windows centred at or left of the strobe are all centred to within a tap. */
  lemma LeftWindowsBalance(start: int, dqMax: int, least: int, left: seq<int>, right: seq<int>, dqs: int, dq: seq<int>)
    requires 0 <= dqMax
    requires TapsFor(WriteSide, start, dqMax, least, left, right, dqs, dq)
    requires forall i | 0 <= i < |dq| :: -dqMax <= -left[i] <= right[i]
    ensures dqs == start && WriteBalance(start, left, right, dqs, dq)
    ensures NoneRightOfStrobe(left, right) ==>
      Inside(start, left, right, dqs, dq) && AllBalanced(start, left, right, dqs, dq)
  {
    forall i | 0 <= i < |dq|
      ensures Balanced(left[i], right[i], dqs - start - dq[i]) <==> Skew(left[i], right[i]) >= -1
      ensures Balanced(left[i], right[i], dqs - start - dq[i]) ==> -left[i] <= dqs - start - dq[i] <= right[i]
    {
      WriteCentring(left[i], right[i], least, dqMax);
    }
  }

  /** The data-mask search: the run now being followed and the best run so far, with its length. */
  datatype Search = Search(bgnCurr: int, endCurr: int, bgnBest: int, endBest: int, winBest: int)
  {
    /** The next position x passed. */
    function Extend(x: int, illegal: int): Search {
      var bgn := if bgnCurr == illegal then x else bgnCurr;
      if x - bgn + 1 > winBest then Search(bgn, x, bgn, x, x - bgn + 1)
      else Search(bgn, x, bgnBest, endBest, winBest)
    }

    /** The next position failed. */
    function Break(illegal: int): Search {
      this.(bgnCurr := illegal, endCurr := illegal)
    }
  }

  /** Masked-write pass/fail by position: DM delay to the left of 0, extra DQS delay to the right. */
  ghost function DmAxis(dmGood: (int, int) -> bool, newDqs: int): int -> bool {
    x => if x <= 0 then dmGood(-x, newDqs) else dmGood(0, newDqs + x)
  }

  /** The run being followed is the longest one ending at hi. */
  ghost predicate CurrRun(pass: int -> bool, s: Search, lo: int, hi: int, illegal: int) {
    || (s.bgnCurr == illegal && s.endCurr == illegal && (lo <= hi ==> !pass(hi)))
    || (lo <= s.bgnCurr <= s.endCurr == hi && AllPass(pass, s.bgnCurr, hi) && (s.bgnCurr == lo || !pass(s.bgnCurr - 1)))
  }

  /** The best run is the leftmost longest one within lo..hi, or there is none. */
  ghost predicate BestRun(pass: int -> bool, s: Search, lo: int, hi: int, illegal: int) {
    && ((s.winBest == 0 && s.bgnBest == illegal && s.endBest == illegal)
      || (s.winBest == s.endBest - s.bgnBest + 1 && lo <= s.bgnBest <= s.endBest <= hi
          && AllPass(pass, s.bgnBest, s.endBest)))
    && forall b, e | lo <= b <= e <= hi && AllPass(pass, b, e) ::
      e - b + 1 <= s.winBest && (e - b + 1 == s.winBest ==> s.bgnBest <= b)
  }

  lemma SearchStep(pass: int -> bool, s: Search, lo: int, x: int, illegal: int)
    requires lo <= x < illegal
    requires CurrRun(pass, s, lo, x - 1, illegal) && BestRun(pass, s, lo, x - 1, illegal)
    ensures var t := if pass(x) then s.Extend(x, illegal) else s.Break(illegal);
      CurrRun(pass, t, lo, x, illegal) && BestRun(pass, t, lo, x, illegal)
  {
    var t := if pass(x) then s.Extend(x, illegal) else s.Break(illegal);
    forall b, e | lo <= b <= e <= x && AllPass(pass, b, e)
      ensures e - b + 1 <= t.winBest && (e - b + 1 == t.winBest ==> t.bgnBest <= b)
    {
      if e == x {
        assert pass(x) && (t.bgnCurr > lo ==> !pass(t.bgnCurr - 1));
      }
    }
  }

  /** What the best run means once lo..hi has been searched. */
  lemma SearchResult(pass: int -> bool, s: Search, lo: int, hi: int, illegal: int)
    requires BestRun(pass, s, lo, hi, illegal)
    ensures s.winBest == 0 <==> NonePass(pass, lo, hi)
    ensures s.winBest != 0 ==>
      s.winBest == s.endBest - s.bgnBest + 1 && LeftmostLongest(pass, lo, hi, s.bgnBest, s.endBest)
  {
    forall x | lo <= x <= hi && pass(x)
      ensures AllPass(pass, x, x)
    {
    }
    assert s.winBest != 0 ==> pass(s.bgnBest);
  }

  /** The search after positions x..next-1 have been tested in order. */
  ghost function Scan(pass: int -> bool, s: Search, x: int, next: int, illegal: int): Search
    decreases next - x
  {
    if next <= x then s
    else
      var t := Scan(pass, s, x, next - 1, illegal);
      if pass(next - 1) then t.Extend(next - 1, illegal) else t.Break(illegal)
  }

  lemma {:induction false} ScanDmDelays(pass: int -> bool, lo: int, next: int, illegal: int)
    requires lo <= next <= 1 <= illegal
    ensures var s := Scan(pass, Search(illegal, illegal, illegal, illegal, 0), lo, next, illegal);
      CurrRun(pass, s, lo, next - 1, illegal) && BestRun(pass, s, lo, next - 1, illegal)
    decreases next - lo
  {
    if lo < next {
      ScanDmDelays(pass, lo, next - 1, illegal);
      var before := Scan(pass, Search(illegal, illegal, illegal, illegal, 0), lo, next - 1, illegal);
      SearchStep(pass, before, lo, next - 1, illegal);
    }
  }

  /** The DQS sweep carries on the search; testing position 0 a second time, at its start, changes nothing. */
  lemma {:induction false} ScanDqsDelays(pass: int -> bool, s: Search, lo: int, next: nat, illegal: int)
    requires lo <= 0 && next <= illegal
    requires CurrRun(pass, s, lo, 0, illegal) && BestRun(pass, s, lo, 0, illegal)
    ensures CurrRun(pass, Scan(pass, s, 0, next, illegal), lo, Max(next - 1, 0), illegal)
    ensures BestRun(pass, Scan(pass, s, 0, next, illegal), lo, Max(next - 1, 0), illegal)
  {
    if next > 0 {
      ScanDqsDelays(pass, s, lo, next - 1, illegal);
      if next > 1 {
        SearchStep(pass, Scan(pass, s, 0, next - 1, illegal), lo, next - 1, illegal);
      }
    }
  }

  /** The two sweeps joined: the best run, whether the second sweep ran to its end or stopped early. */
  lemma SearchIsExhaustive(pass: int -> bool, s0: Search, lo: int, next: int, hi: int, illegal: int)
    requires lo <= 0 <= hi < illegal && 0 < next <= hi + 1
    requires s0 == Scan(pass, Search(illegal, illegal, illegal, illegal, 0), lo, 1, illegal)
    requires var s := Scan(pass, if s0.endCurr != 0 then s0.Break(illegal) else s0, 0, next, illegal);
      next <= hi ==> !pass(next - 1) && s.winBest - 1 > hi - (next - 1)
    ensures var s1 := if s0.endCurr != 0 then s0.Break(illegal) else s0;
      BestRun(pass, Scan(pass, s1, 0, next, illegal), lo, hi, illegal)
  {
    ScanDmDelays(pass, lo, 1, illegal);
    var s1 := if s0.endCurr != 0 then s0.Break(illegal) else s0;
    ScanDqsDelays(pass, s1, lo, next, illegal);
    if next <= hi {
      SearchMayStop(pass, Scan(pass, s1, 0, next, illegal), lo, next - 1, hi, illegal);
    }
  }

  lemma OnlyWindowIsBest(pass: int -> bool, lo: int, hi: int, first: int, last: int)
    requires LeftmostLongest(pass, lo, hi, first, last) && OneWindow(pass, lo, hi)
    ensures Window(pass, lo, hi, first, last)
  {
    forall x | lo <= x <= hi && pass(x)
      ensures first <= x <= last
    {
      assert pass(first) && pass(last);
      assert x < first ==> AllPass(pass, x, last);
      assert last < x ==> AllPass(pass, first, x);
    }
  }

  /** The early exit: once fewer positions remain than the best run is long, no later run can win. */
  lemma SearchMayStop(pass: int -> bool, s: Search, lo: int, x: int, hi: int, illegal: int)
    requires BestRun(pass, s, lo, x, illegal) && lo <= x <= hi && !pass(x) && s.winBest > hi - x
    ensures BestRun(pass, s, lo, hi, illegal)
  {
    forall b, e | lo <= b <= e <= hi && AllPass(pass, b, e)
      ensures e - b + 1 <= s.winBest && (e - b + 1 == s.winBest ==> s.bgnBest <= b)
    {
      assert e < x || x < b;
    }
  }

  /** What moving DQS and delaying every DQ pin amounts to. */
  lemma CentreDone(side: Side, start: int, dqMax: int, least: int, left: seq<int>, right: seq<int>,
                   dqs: int, dq: seq<int>, dqMargin: int, dqsMargin: int)
    requires |left| == |right| == |dq| && dqMax >= 0 && IsLeastSkew(least, left, right)
    requires dqs == start - DqsMove(side, start, least) && DqTapsFor(dqMax, least, left, right, start - dqs, dq)
    requires WorstMargins(dqMargin, dqsMargin, dqMax + 1, left, right, start - dqs, dq)
    ensures TapsFor(side, start, dqMax, least, left, right, dqs, dq)
    ensures dqMargin >= 0 && dqsMargin >= 0 <==> Inside(start, left, right, dqs, dq)
  {
    WorstMarginsDecide(dqMargin, dqsMargin, dqMax + 1, start, left, right, dqs, dq);
  }

  class Group {
    const bits: int                       // DQ pins per DQS
    const dqMax: int                      // largest DQ and DM delay tap
    const dqsMax: int                     // largest DQS delay tap
    const good: PinOracle        // DQ pin i is sampled correctly when DQS lags it by this many taps
    const dmGood: (int, int) -> bool      // the masked write test passes at this DM tap and DQS tap
    var dqs: int
    var dm: int
    const dq: array<int>

    ghost predicate Valid()
      reads this, dq
    {
      && bits == dq.Length && bits > 0
      && 0 <= dqs <= dqsMax <= dqMax
      && 0 <= dm <= dqMax
      && forall i | 0 <= i < bits :: 0 <= dq[i] <= dqMax
    }

    constructor (bits: nat, dqMax: nat, dqsMax: nat, dqs: nat,
                 good: PinOracle, dmGood: (int, int) -> bool)
      requires bits > 0 && dqs <= dqsMax <= dqMax
      ensures Valid() && fresh(dq)
      ensures this.bits == bits && this.dqMax == dqMax && this.dqsMax == dqsMax && this.dqs == dqs
      ensures this.good == good && this.dmGood == dmGood
    {
      this.bits, this.dqMax, this.dqsMax := bits, dqMax, dqsMax;
      this.good, this.dmGood := good, dmGood;
      this.dqs, this.dm := dqs, 0;
      this.dq := new int[bits](_ => 0);
    }

    method ApplyDqDelay(d: int)
      modifies dq
      ensures forall i | 0 <= i < dq.Length :: dq[i] == d
    {
      for i := 0 to dq.Length
        invariant forall k | 0 <= k < i :: dq[k] == d
      {
        dq[i] := d;
      }
    }

    /**
     * The PASS_ONE_BIT test, run while DQS lags every pin by x taps:
     * ok when at least one bit passes, chk says which.
     */
    method Test(ghost x: int) returns (ok: bool, chk: seq<bool>)
      requires bits == dq.Length && forall i | 0 <= i < bits :: dqs - dq[i] == x
      ensures |chk| == bits && forall i | 0 <= i < bits :: chk[i] == good(i, x)
      ensures !ok ==> AllFail(good, bits, x) && forall i | 0 <= i < bits :: !chk[i]
      ensures ok ==> exists i | 0 <= i < bits :: chk[i]
    {
      chk := [];
      for i := 0 to bits
        invariant |chk| == i && forall k | 0 <= k < i :: chk[k] == good(k, x)
      {
        chk := chk + [good(i, dqs - dq[i])];
      }
      ok := exists i | 0 <= i < bits :: chk[i];
    }

    /** Updates the edges of every bit after DQ delay d was tested. */
    method RecordLeft(chk: seq<bool>, d: int, left: array<int>, right: array<int>)
      requires left != right && left.Length == right.Length == |chk|
      modifies left, right
      ensures forall i | 0 <= i < |chk| ::
        (left[i], right[i]) == LeftStep(chk[i], d, old(left[i]), old(right[i]), dqMax + 1)
    {
      for i := 0 to |chk|
        invariant forall k | 0 <= k < i ::
          (left[k], right[k]) == LeftStep(chk[k], d, old(left[k]), old(right[k]), dqMax + 1)
        invariant forall k | i <= k < |chk| :: left[k] == old(left[k]) && right[k] == old(right[k])
      {
        var (l, r) := LeftStep(chk[i], d, left[i], right[i], dqMax + 1);
        left[i], right[i] := l, r;
      }
    }

    /** No edge is known yet. */
    method ClearEdges(left: array<int>, right: array<int>)
      requires left != right && left.Length == right.Length
      modifies left, right
      ensures forall i | 0 <= i < left.Length :: left[i] == dqMax + 1 && right[i] == dqMax + 1
    {
      for i := 0 to left.Length
        invariant forall k | 0 <= k < i :: left[k] == dqMax + 1 && right[k] == dqMax + 1
      {
        left[i], right[i] := dqMax + 1, dqMax + 1;
      }
    }

    /** The DQ sweep: delays every DQ pin further and further until all bits have passed and then all fail. */
    method LeftSweep(left: array<int>, right: array<int>) returns (ghost stop: int)
      requires Valid() && left.Length == bits && right.Length == bits
      requires left != right && left != dq && right != dq
      modifies left, right, dq
      ensures Valid()
      ensures forall i | 0 <= i < bits :: dq[i] == 0
      ensures 0 < stop <= dqMax + 1
      ensures forall i | 0 <= i < bits :: (left[i], right[i]) == LeftEdges(good, i, dqs, dqMax + 1, stop)
      ensures stop <= dqMax ==>
        && AllFail(good, bits, dqs - stop)
        && forall i | 0 <= i < bits :: left[i] != dqMax + 1
    {
      var illegal := dqMax + 1;
      ClearEdges(left, right);
      var sticky := seq(bits, _ => false);
      var d := 0;
      while d <= dqMax
        invariant 0 <= d <= illegal
        invariant |sticky| == bits
        invariant forall i | 0 <= i < bits :: (left[i], right[i]) == LeftEdges(good, i, dqs, illegal, d)
        invariant forall i | 0 <= i < bits :: sticky[i] ==> left[i] != illegal
      {
        ApplyDqDelay(d);
        var ok, chk := Test(dqs - d);
        sticky := Or(sticky, chk);
        if !ok && All(sticky) {
          assert sticky[0] && left[0] != illegal;
          break;
        }
        RecordLeft(chk, d, left, right);
        d := d + 1;
      }
      stop := d;
      ApplyDqDelay(0);
    }

    /**
     * Resets the edges of bits the DQ sweep never saw pass, and seeds the mask of bits the
     * DQS sweep need not wait for: on the read side those with both edges, on the write side
     * those with a left edge.
     */
    method ResetEdges(side: Side, left: array<int>, right: array<int>) returns (sticky: seq<bool>)
      requires left != right && left.Length == right.Length
      modifies right
      ensures |sticky| == left.Length
      ensures forall i | 0 <= i < left.Length :: right[i] == ResetRight(left[i], old(right[i]), dqMax + 1)
      ensures forall i | 0 <= i < left.Length ::
        sticky[i] <==> left[i] != dqMax + 1 && (side == ReadSide ==> right[i] != dqMax + 1)
    {
      var illegal := dqMax + 1;
      sticky := [];
      for i := left.Length downto 0
        invariant |sticky| == left.Length - i
        invariant forall k | i <= k < left.Length :: right[k] == ResetRight(left[k], old(right[k]), illegal)
        invariant forall k | 0 <= k < i :: right[k] == old(right[k])
        invariant forall k | i <= k < left.Length ::
          sticky[k - i] <==> left[k] != illegal && (side == ReadSide ==> right[k] != illegal)
      {
        if left[i] == illegal && right[i] != illegal {
          right[i] := illegal;
        }
        sticky := [left[i] != illegal && (side == WriteSide || right[i] != illegal)] + sticky;
      }
    }

    /** Updates the edges of every bit after extra DQS delay d was tested. */
    method RecordRight(chk: seq<bool>, d: int, left: array<int>, right: array<int>)
      requires left != right && left.Length == right.Length == |chk|
      modifies left, right
      ensures forall i | 0 <= i < |chk| ::
        (left[i], right[i]) == RightStep(chk[i], d, old(left[i]), old(right[i]), dqMax + 1)
    {
      for i := 0 to |chk|
        invariant forall k | 0 <= k < i ::
          (left[k], right[k]) == RightStep(chk[k], d, old(left[k]), old(right[k]), dqMax + 1)
        invariant forall k | i <= k < |chk| :: left[k] == old(left[k]) && right[k] == old(right[k])
      {
        var (l, r) := RightStep(chk[i], d, left[i], right[i], dqMax + 1);
        left[i], right[i] := l, r;
      }
    }

    /** The write side's extra pass when the DQS sweep stops at once: a bit left marginal gets right edge -1. */
    method MarkMarginal(left: array<int>, right: array<int>)
      requires left != right && left.Length == right.Length
      modifies right
      ensures forall i | 0 <= i < right.Length ::
        right[i] == if old(right[i]) == dqMax + 1 && left[i] != dqMax + 1 then -1 else old(right[i])
    {
      for i := 0 to right.Length
        invariant forall k | 0 <= k < i ::
          right[k] == if old(right[k]) == dqMax + 1 && left[k] != dqMax + 1 then -1 else old(right[k])
        invariant forall k | i <= k < right.Length :: right[k] == old(right[k])
      {
        if right[i] == dqMax + 1 && left[i] != dqMax + 1 {
          right[i] := -1;
        }
      }
    }

    /** The DQS sweep: delays the strobe further and further until all bits have passed and then all fail. */
    method RightSweep(side: Side, left: array<int>, right: array<int>, sticky0: seq<bool>) returns (ghost stop: int)
      requires Valid() && left.Length == bits && right.Length == bits && |sticky0| == bits
      requires left != right && left != dq && right != dq
      requires forall i | 0 <= i < bits :: dq[i] == 0 && (sticky0[i] ==> left[i] != dqMax + 1)
      modifies left, right, this`dqs
      ensures Valid()
      ensures 0 <= stop <= dqsMax - old(dqs) + 1
      ensures dqs == Min(old(dqs) + stop, dqsMax)
      ensures forall i | 0 <= i < bits ::
        var (l, r) := RightEdges(good, i, old(dqs), dqMax + 1, old(left[i]), old(right[i]), stop);
        left[i] == l && right[i] == if stop == 0 && side == WriteSide && r == dqMax + 1 && l != dqMax + 1 then -1 else r
      ensures stop <= dqsMax - old(dqs) ==>
        && AllFail(good, bits, old(dqs) + stop)
        && forall i | 0 <= i < bits :: right[i] != dqMax + 1 || (stop == 0 && sticky0[i])
    {
      var start := dqs;
      var illegal := dqMax + 1;
      var sticky := sticky0;
      var d := 0;
      while d <= dqsMax - start
        invariant 0 <= d <= dqsMax - start + 1
        invariant dqs == if d == 0 then start else start + d - 1
        invariant |sticky| == bits
        invariant forall i | 0 <= i < bits ::
          (left[i], right[i]) == RightEdges(good, i, start, illegal, old(left[i]), old(right[i]), d)
        invariant forall i | 0 <= i < bits :: sticky[i] ==> right[i] != illegal || (d == 0 && sticky0[i])
      {
        dqs := start + d;
        var ok, chk := Test(start + d);
        sticky := Or(sticky, chk);
        if !ok && All(sticky) {
          if d == 0 && side == WriteSide {
            MarkMarginal(left, right);
          }
          break;
        }
        RecordRight(chk, d, left, right);
        d := d + 1;
      }
      stop := d;
    }

    /** Both sweeps: measures the passing window of every pin relative to the starting DQS tap. */
    method FindEdges(side: Side, left: array<int>, right: array<int>) returns (ghost lo: int, ghost hi: int)
      requires Valid() && left.Length == bits && right.Length == bits
      requires left != right && left != dq && right != dq
      modifies left, right, dq, this`dqs
      ensures Valid()
      ensures forall i | 0 <= i < bits :: dq[i] == 0
      ensures dqs == Min(old(dqs) + hi + 1, dqsMax)
      ensures StoppedWell(good, bits, old(dqs), -dqMax, dqsMax - old(dqs), lo, hi)
      ensures forall i | 0 <= i < bits ::
        EdgesSeen(Axis(good, i, old(dqs)), lo, hi, left[i], right[i], dqMax + 1)
    {
      ghost var start := dqs;
      ghost var stopL := LeftSweep(left, right);
      ghost var left0, right0 := left[..], right[..];
      var sticky := ResetEdges(side, left, right);
      ghost var stopR := RightSweep(side, left, right, sticky);
      lo, hi := 1 - stopL, stopR - 1;
      forall i | 0 <= i < bits
        ensures EdgesSeen(Axis(good, i, start), lo, hi, left[i], right[i], dqMax + 1)
        ensures left0[i] != dqMax + 1 ==> !NonePass(Axis(good, i, start), lo, 0)
        ensures right[i] != dqMax + 1 ==> !NonePass(Axis(good, i, start), lo, hi)
      {
        SweepsMeasureHull(good, i, start, dqMax + 1, side, stopL, stopR, left0[i], right0[i], left[i], right[i]);
      }
    }

    /** Index of the pin whose window lies furthest right, and its skew. */
    method FindLeastSkew(left: seq<int>, right: seq<int>) returns (least: int, at: nat)
      requires |left| == |right| == bits > 0
      ensures at < bits && Skew(left[at], right[at]) == least
      ensures IsLeastSkew(least, left, right)
    {
      least, at := Skew(left[0], right[0]), 0;
      for i := 1 to bits
        invariant 0 <= at < bits && Skew(left[at], right[at]) == least
        invariant forall k | 0 <= k < i :: least <= Skew(left[k], right[k])
      {
        var mid := Skew(left[i], right[i]);
        if mid < least {
          least, at := mid, i;
        }
      }
      assert Skew(left[..][at], right[..][at]) == least;
    }

    /** The DQS tap to program: moved onto the furthest right window's centre as far as the delay chain allows. */
    method AimDqs(side: Side, start: int, left: seq<int>, right: seq<int>)
      returns (minIndex: nat, origMidMin: int, newDqs: int)
      requires |left| == |right| == bits > 0 && 0 <= start <= dqsMax
      requires forall i | 0 <= i < bits :: -left[i] <= right[i] <= dqsMax - start
      ensures minIndex < bits && IsLeastSkew(Skew(left[minIndex], right[minIndex]), left, right)
      ensures origMidMin == HalfUp(Skew(left[minIndex], right[minIndex]))
      ensures newDqs == start - DqsMove(side, start, Skew(left[minIndex], right[minIndex]))
      ensures 0 <= newDqs <= dqsMax
    {
      var midMin;
      midMin, minIndex := FindLeastSkew(left, right);
      origMidMin := HalfUp(midMin);
      if side == ReadSide {
        newDqs := start - origMidMin;
        if newDqs > dqsMax {
          newDqs := dqsMax;
        } else if newDqs < 0 {
          newDqs := 0;
        }
      } else {
        newDqs := start;
      }
    }

    /** Delays every DQ pin so that all windows are centred on a strobe moved left by midMin. */
    method DelayDq(left: seq<int>, right: seq<int>, minIndex: nat, origMidMin: int, midMin: int)
      returns (dqMargin: int, dqsMargin: int)
      requires |left| == |right| == dq.Length && minIndex < dq.Length && dqMax >= 0
      requires forall i | 0 <= i < dq.Length :: dq[i] == 0
      requires origMidMin == HalfUp(Skew(left[minIndex], right[minIndex]))
      modifies dq
      ensures forall i | 0 <= i < dq.Length :: 0 <= dq[i] <= dqMax
      ensures DqTapsFor(dqMax, Skew(left[minIndex], right[minIndex]), left, right, midMin, dq[..])
      ensures WorstMargins(dqMargin, dqsMargin, dqMax + 1, left, right, midMin, dq[..])
    {
      dqMargin, dqsMargin := dqMax + 1, dqMax + 1;
      for i := 0 to dq.Length
        invariant forall k | i <= k < dq.Length :: dq[k] == 0
        invariant forall k | 0 <= k < i ::
          dq[k] == Clamp(Shift(Skew(left[k], right[k]), Skew(left[minIndex], right[minIndex]), midMin), 0, dqMax)
        invariant dqMargin <= dqMax + 1 && dqsMargin <= dqMax + 1
        invariant forall k | 0 <= k < i ::
          dqMargin <= left[k] - dq[k] - midMin && dqsMargin <= right[k] + dq[k] + midMin
        invariant dqMargin == dqMax + 1 || exists k | 0 <= k < i :: dqMargin == left[k] - dq[k] - midMin
        invariant dqsMargin == dqMax + 1 || exists k | 0 <= k < i :: dqsMargin == right[k] + dq[k] + midMin
      {
        var shiftDq := Quot(Skew(left[i], right[i]) - Skew(left[minIndex], right[minIndex]), 2) + (origMidMin - midMin);
        shiftDq := Saturate(shiftDq, dq[i], dqMax);
        dq[i] := dq[i] + shiftDq;
        dqMargin := Min(dqMargin, left[i] - shiftDq - midMin);
        dqsMargin := Min(dqsMargin, right[i] + shiftDq + midMin);
      }
    }

    /** Moves DQS, then delays every DQ pin so that all windows are centred on the same strobe. */
    method Centre(side: Side, start: int, left: seq<int>, right: seq<int>)
      returns (dqMargin: int, dqsMargin: int, ghost least: int)
      requires Valid() && |left| == |right| == bits && 0 <= start <= dqsMax
      requires forall i | 0 <= i < bits :: dq[i] == 0
      requires forall i | 0 <= i < bits :: -dqMax <= -left[i] <= right[i] <= dqsMax - start
      modifies dq, this`dqs
      ensures Valid()
      ensures TapsFor(side, start, dqMax, least, left, right, dqs, dq[..])
      ensures dqMargin >= 0 && dqsMargin >= 0 <==> Inside(start, left, right, dqs, dq[..])
    {
      var minIndex, origMidMin, newDqs := AimDqs(side, start, left, right);
      least := Skew(left[minIndex], right[minIndex]);
      dqMargin, dqsMargin := DelayDq(left, right, minIndex, origMidMin, start - newDqs);
      ghost var taps := dq[..];
      CentreDone(side, start, dqMax, least, left, right, newDqs, taps, dqMargin, dqsMargin);
      dqs := newDqs;
      assert dq[..] == taps;
    }

    /** The first pin without a window, if any. */
    method FindMissingWindow(left: seq<int>, right: seq<int>) returns (bit: int)
      requires |left| == |right|
      ensures 0 <= bit <= |left|
      ensures forall k | 0 <= k < bit :: left[k] != dqMax + 1 && right[k] != dqMax + 1
      ensures bit < |left| ==> left[bit] == dqMax + 1 || right[bit] == dqMax + 1
    {
      bit := 0;
      while bit < |left| && left[bit] != dqMax + 1 && right[bit] != dqMax + 1
        invariant 0 <= bit <= |left|
        invariant forall k | 0 <= k < bit :: left[k] != dqMax + 1 && right[k] != dqMax + 1
      {
        bit := bit + 1;
      }
    }

    /**
     * Per-bit deskew: measures every pin's window and, if each has one, programs the taps that
     * centre them. The read routine undoes its DQS sweep when a pin has no window; the write routine does not.
     */
    method Deskew(side: Side)
      returns (outcome: Outcome, left: seq<int>, right: seq<int>, ghost lo: int, ghost hi: int, ghost least: int)
      requires Valid()
      modifies dq, this`dqs
      ensures Valid()
      ensures DeskewDone(side, good, old(dqs), dqMax, dqsMax, lo, hi, least, outcome, left, right, dqs, dq[..])
    {
      var start := dqs;
      var leftEdge, rightEdge := new int[bits], new int[bits];
      lo, hi := FindEdges(side, leftEdge, rightEdge);
      left, right := leftEdge[..], rightEdge[..];
      least := 0;
      var bit := FindMissingWindow(left, right);
      if bit < bits {
        if side == ReadSide {
          dqs := start;
        }
        outcome := NoWindow(bit);
      } else {
        var dqMargin, dqsMargin, m := Centre(side, start, left, right);
        least := m;
        outcome := Centred(dqMargin, dqsMargin);
      }
    }

    /**
     * Read deskew. With one window per pin its result is exact, a pin ends up centred to within a tap
     * exactly when its centre is in reach of the DQ delay chain, and if all centres are at most one
     * DQ delay chain apart it succeeds with every pin so centred.
     */
    method ReadDeskew() returns (outcome: Outcome, left: seq<int>, right: seq<int>)
      requires Valid()
      modifies dq, this`dqs
      ensures Valid()
      ensures OneWindowEach(good, bits, old(dqs), -dqMax, dqsMax - old(dqs)) ==>
        DeskewExact(good, old(dqs), dqMax, dqsMax, outcome, left, right, dqs, dq[..])
      ensures outcome.NoWindow? ==> dqs == old(dqs) && forall t | t in dq[..] :: t == 0
      ensures outcome.Centred? ==> ReadBalance(old(dqs), dqMax, left, right, dqs, dq[..])
      ensures outcome.Centred? && CentresWithin(left, right, dqMax) ==>
        outcome.Success() && AllBalanced(old(dqs), left, right, dqs, dq[..])
    {
      ghost var start := dqs;
      ghost var lo, hi, least;
      outcome, left, right, lo, hi, least := Deskew(ReadSide);
      ghost var taps := dq[..];
      if OneWindowEach(good, bits, start, -dqMax, dqsMax - start) {
        DeskewVerdict(ReadSide, good, start, dqMax, dqsMax, lo, hi, least, outcome, left, right, dqs, taps);
      }
      if outcome.Centred? {
        CloseCentresBalance(start, dqMax, least, left, right, dqs, taps);
      }
    }

    /** The masked write test at the taps now programmed. */
    method TestDm() returns (ok: bool)
      ensures ok == dmGood(dm, dqs)
    {
      ok := dmGood(dm, dqs);
    }

    /** Sweeps DM from its largest delay down to none: positions -dqMax..0. */
    method SearchDmDelays(newDqs: int) returns (s: Search)
      requires Valid() && dqs == newDqs
      modifies this`dm
      ensures Valid() && dm == 0
      ensures var ill := dqMax + 1;
        s == Scan(DmAxis(dmGood, newDqs), Search(ill, ill, ill, ill, 0), -dqMax, 1, ill)
    {
      var illegal := dqMax + 1;
      s := Search(illegal, illegal, illegal, illegal, 0);
      ghost var pass, s0 := DmAxis(dmGood, newDqs), s;
      var d := dqMax;
      while d >= 0
        invariant -1 <= d <= dqMax
        invariant s == Scan(pass, s0, -dqMax, -d, illegal)
      {
        dm := d;
        var ok := TestDm();
        assert ok == pass(-d);
        s := if ok then s.Extend(-d, illegal) else s.Break(illegal);
        d := d - 1;
      }
      dm := 0;
    }

    /** Sweeps DQS outward from newDqs: positions 0 again, then 1.., joining a run that reached 0. */
    method SearchDqsDelays(newDqs: int, s0: Search) returns (s: Search)
      requires Valid() && dqs == newDqs && dm == 0
      requires var ill := dqMax + 1;
        s0 == Scan(DmAxis(dmGood, newDqs), Search(ill, ill, ill, ill, 0), -dqMax, 1, ill)
      modifies this`dqs
      ensures Valid()
      ensures BestRun(DmAxis(dmGood, newDqs), s, -dqMax, dqsMax - newDqs, dqMax + 1)
    {
      var illegal := dqMax + 1;
      ghost var pass := DmAxis(dmGood, newDqs);
      s := if s0.endCurr != 0 then s0.Break(illegal) else s0;
      ghost var s1 := s;
      var d := 0;
      while d <= dqsMax - newDqs
        invariant 0 <= d <= dqsMax - newDqs + 1 && 0 <= dqs <= dqsMax
        invariant s == Scan(pass, s1, 0, d, illegal)
      {
        dqs := newDqs + d;
        var ok := TestDm();
        assert ok == pass(d);
        s := if ok then s.Extend(d, illegal) else s.Break(illegal);
        d := d + 1;
        if !ok && s.winBest - 1 > dqsMax - newDqs - (d - 1) {
          break;
        }
      }
      SearchIsExhaustive(pass, s0, -dqMax, d, dqsMax - newDqs, illegal);
    }

    /** Centres DM in the best window found; it can only be delayed, so a window right of the strobe is not followed. */
    method CentreDm() returns (dmMargin: int, s: Search)
      requires Valid()
      modifies this`dm, this`dqs
      ensures Valid() && dqs == old(dqs)
      ensures BestRun(DmAxis(dmGood, dqs), s, -dqMax, dqsMax - dqs, dqMax + 1)
      ensures s.winBest == 0 <==> NonePass(DmAxis(dmGood, dqs), -dqMax, dqsMax - dqs)
      ensures s.winBest != 0 ==>
        LeftmostLongest(DmAxis(dmGood, dqs), -dqMax, dqsMax - dqs, s.bgnBest, s.endBest)
      ensures dmMargin >= 0 <==> s.winBest != 0 && s.bgnBest <= -dm <= s.endBest
      ensures dmMargin >= 0 <==> s.winBest != 0 && s.bgnBest <= 0
      ensures dmMargin >= 0 ==> dmGood(dm, dqs)
      ensures s.winBest != 0 && s.bgnBest + s.endBest < 2 ==> -1 <= (-dm - s.bgnBest) - (s.endBest + dm) <= 1
      ensures OneWindow(DmAxis(dmGood, dqs), -dqMax, dqsMax - dqs) ==> (dmMargin >= 0 <==> dmGood(dm, dqs))
    {
      var newDqs := dqs;
      ghost var pass := DmAxis(dmGood, newDqs);
      var s0 := SearchDmDelays(newDqs);
      s := SearchDqsDelays(newDqs, s0);
      SearchResult(pass, s, -dqMax, dqsMax - newDqs, dqMax + 1);
      dqs := newDqs;
      var left, right := -1 * s.bgnBest, s.endBest;
      var mid := Quot(left - right, 2);
      if mid < 0 {
        mid := 0;
      }
      dmMargin := if s.winBest == 0 then -1 else left - mid;
      dm := mid;
      assert pass(-dm) == dmGood(dm, dqs);
      if s.winBest != 0 && OneWindow(pass, -dqMax, dqsMax - newDqs) {
        OnlyWindowIsBest(pass, -dqMax, dqsMax - newDqs, s.bgnBest, s.endBest);
      }
    }

    /**
     * Write centring: deskews the DQ pins with DQS left alone, then centres DM. With one window per
     * pin the deskew is exact; a pin ends up centred to within a tap exactly when its centre is not
     * right of the strobe; overall success means DQ and DM all pass at the taps left behind.
     */
    method WriteCentre() returns (ok: bool, outcome: Outcome, left: seq<int>, right: seq<int>, dmMargin: int)
      requires Valid()
      modifies dq, this`dqs, this`dm
      ensures Valid()
      ensures OneWindowEach(good, bits, old(dqs), -dqMax, dqsMax - old(dqs)) ==>
        DeskewExact(good, old(dqs), dqMax, dqsMax, outcome, left, right, dqs, dq[..])
      ensures outcome.NoWindow? ==> !ok && dm == old(dm)
      ensures outcome.Centred? ==> dqs == old(dqs) && (ok <==> outcome.Success() && dmMargin >= 0)
      ensures outcome.Centred? ==> WriteBalance(old(dqs), left, right, dqs, dq[..])
      ensures outcome.Centred? && NoneRightOfStrobe(left, right) ==>
        outcome.Success() && AllBalanced(old(dqs), left, right, dqs, dq[..])
      ensures outcome.Centred? && dmMargin >= 0 ==> dmGood(dm, dqs)
      ensures outcome.Centred? && OneWindow(DmAxis(dmGood, dqs), -dqMax, dqsMax - dqs) ==>
        (dmMargin >= 0 <==> dmGood(dm, dqs))
    {
      ghost var start := dqs;
      ghost var lo, hi, least;
      dmMargin := 0;
      ok := false;
      outcome, left, right, lo, hi, least := Deskew(WriteSide);
      ghost var taps := dq[..];
      if OneWindowEach(good, bits, start, -dqMax, dqsMax - start) {
        DeskewVerdict(WriteSide, good, start, dqMax, dqsMax, lo, hi, least, outcome, left, right, dqs, taps);
      }
      if outcome.Centred? {
        LeftWindowsBalance(start, dqMax, least, left, right, dqs, taps);
        ghost var search;
        dmMargin, search := CentreDm();
        ok := outcome.Success() && dmMargin >= 0;
      }
      assert dq[..] == taps;
    }
  }
}
