/**
 * Calibrating the DQS enable: searching the window in which reads pass, by phase taps and delay taps,
 * and programming the taps nearest to its middle.
 */
module DqsEnable {
  import opened DqsTaps
  import opened DqsWindow

  /** The memory, known only by how each read test in turn comes out; the same setting may pass and fail. */
  class Memory {
    const taps: Taps
    const passes: (nat, Setting) -> bool
    var tests: nat
    var now: Setting                     // the taps programmed; VFIFO pushes counted from the start
    ghost var passed: set<Setting>       // the settings that have passed a test, and
    ghost var failed: set<Setting>       // those that have failed one

    ghost predicate Valid()
      reads this
    {
      && taps.Sound()
      && (forall s | s in passed :: Answered(passes, s, true))
      && (forall s | s in failed :: Answered(passes, s, false))
    }

    constructor (taps: Taps, passes: (nat, Setting) -> bool, now: Setting)
      requires taps.Sound()
      ensures Valid() && this.taps == taps && this.passes == passes && this.now == now
      ensures tests == 0 && passed == {} && failed == {}
    {
      this.taps, this.passes, this.now, tests := taps, passes, now, 0;
      passed, failed := {}, {};
    }

    /** Nothing is forgotten. */
    twostate predicate Grew()
      reads this
    {
      Valid() && tests >= old(tests) && old(passed) <= passed && old(failed) <= failed
    }

    method Test() returns (pass: bool)
      requires Valid()
      modifies this`tests, this`passed, this`failed
      ensures Grew() && tests == old(tests) + 1 && pass == passes(old(tests), now)
      ensures now in if pass then passed else failed
    {
      pass := passes(tests, now);
      assert Answered(passes, now, pass);
      if pass {
        passed := passed + {now};
      } else {
        failed := failed + {now};
      }
      tests := tests + 1;
    }

    method SetPhase(p: int)
      modifies this`now
      ensures now == old(now).(phase := p)
    {
      now := now.(phase := p);
    }

    method SetDelay(d: int)
      modifies this`now
      ensures now == old(now).(delay := d)
    {
      now := now.(delay := d);
    }

    method PushVfifo(n: int)
      modifies this`now
      ensures now == old(now).(v := old(now.v) + n)
    {
      now := now.(v := now.v + n);
    }

    /** Step 1: pushes the VFIFO until two reads have failed. */
    method TwoFailures() returns (ok: bool)
      requires Valid()
      modifies this
      ensures Grew() && now == old(now).(v := now.v)
      ensures ok ==> now in failed
      ensures !ok ==> OneFailure(passed, old(now), VFIFO_SIZE)
    {
      var n, failures := 0, 0;
      while n < VFIFO_SIZE
        invariant Grew() && n <= VFIFO_SIZE && now == AtCycle(old(now), old(now.v) + n) && failures <= 1
        invariant OneFailure(passed, old(now), n)
        invariant failures == 0 ==> forall x | old(now.v) <= x < now.v :: AtCycle(old(now), x) in passed
        decreases VFIFO_SIZE - n
      {
        var pass := Test();
        if !pass {
          failures := failures + 1;
          if failures == 2 {
            break;
          }
        }
        PushVfifo(1);
        n := n + 1;
      }
      ok := n < VFIFO_SIZE;
    }

    /** The innermost loop of step 2: the phases that may be used. */
    method FindPhase(begin0: int) returns (found: bool, p: int, begin: int)
      requires Valid()
      modifies this
      ensures Grew() && now.v == old(now.v) && now.delay == old(now.delay)
      ensures FailedBefore(failed, taps, now.v, now.delay, now.v, p)
      ensures found ==> 1 <= p <= taps.phaseMax && now.phase == p && now in passed
      ensures !found ==> p == taps.phaseMax + 1
      ensures begin == begin0 + taps.Phases(p)
    {
      found, p, begin := false, 0, begin0;
      while p <= taps.phaseMax
        invariant Grew() && now.v == old(now.v) && now.delay == old(now.delay)
        invariant 0 <= p <= taps.phaseMax + 1 && begin == begin0 + taps.Phases(p) && !found
        invariant FailedBefore(failed, taps, now.v, now.delay, now.v, p)
        decreases taps.phaseMax + 1 - p
      {
        if p != 0 {
          SetPhase(p);
          var pass := Test();
          if pass {
            found := true;
            return;
          }
        }
        p, begin := p + 1, begin + taps.opa;
      }
    }

    /** The loop around it: cycles. */
    method FindCycle(begin0: int) returns (found: bool, i: int, p: int, begin: int)
      requires Valid()
      modifies this
      ensures Grew() && now.v == old(now.v) + i && now.delay == old(now.delay) && 0 <= i <= VFIFO_SIZE
      ensures FailedBefore(failed, taps, old(now.v), now.delay, now.v, p)
      ensures found ==> i < VFIFO_SIZE && 1 <= p <= taps.phaseMax && now.phase == p && now in passed
      ensures !found ==> i == VFIFO_SIZE && p == 0
      ensures begin == begin0 + taps.At(Setting(i, p, 0))
    {
      found, i, p, begin := false, 0, 0, begin0;
      while i < VFIFO_SIZE
        invariant Grew() && now.v == old(now.v) + i && now.delay == old(now.delay) && !found
        invariant 0 <= i <= VFIFO_SIZE && begin == begin0 + taps.At(Setting(i, 0, 0)) && p == 0
        invariant FailedBefore(failed, taps, old(now.v), now.delay, now.v, 0)
        decreases VFIFO_SIZE - i
      {
        found, p, begin := FindPhase(begin);
        if found {
          return;
        }
        PushVfifo(1);
        i, p := i + 1, 0;
      }
    }

    /** Step 2: the first setting that passes, going through phases, then cycles, then delays. */
    method FindBegin(dtaps: nat) returns (found: bool, d: int, i: int, p: int, begin: int)
      requires Valid() && dtaps < taps.delayMax
      modifies this
      ensures Grew()
      ensures found ==>
        && 0 <= d <= dtaps && 0 <= i < VFIFO_SIZE && 1 <= p <= taps.phaseMax
        && now in passed && now.phase == p && now.delay == d
        && begin == taps.At(Setting(i, p, d)) && taps.Phases(1) <= taps.Phases(p) <= begin
        && begin <= 17 * taps.Cycle() + taps.Delays(taps.delayMax)
      ensures found && d == 0 ==> now.v == old(now.v) + i && FailedBefore(failed, taps, old(now.v), 0, now.v, p)
      ensures !found || d > 0 ==> FailedBefore(failed, taps, old(now.v), 0, old(now.v) + VFIFO_SIZE, 0)
    {
      found, d, i, p, begin := false, 0, 0, 0, 0;
      var delay := 0;
      while d <= dtaps
        invariant Grew() && 0 <= d <= dtaps + 1 && delay == taps.Delays(d) && !found
        invariant d == 0 ==> now.v == old(now.v)
        invariant d > 0 ==> FailedBefore(failed, taps, old(now.v), 0, old(now.v) + VFIFO_SIZE, 0)
        decreases dtaps + 1 - d
      {
        SetDelay(d);
        found, i, p, begin := FindCycle(delay);
        if found {
          TimesGrows(taps.opa, 1, p);
          TimesGrows(taps.Cycle(), 0, i);
          TimesGrows(taps.dchain, 0, d);
          TimesGrows(taps.dchain, d, taps.delayMax);
          WithinCycles(taps, 0, 0, i, p);
          return;
        }
        d, delay := d + 1, delay + taps.dchain;
      }
    }

    /**
     * Step 3a: goes a phase back and up from there by delay taps: the beginning is where the first of them
     * passes, if one does before the phase found; m is its number.
     */
    method BackOff(p0: int, begin0: int) returns (p: int, begin: int, ghost m: int)
      requires Valid() && 1 <= p0 <= taps.phaseMax && now.phase == p0 && now.delay == 0
      requires taps.Phases(p0) <= begin0
      modifies this
      ensures Grew() && now.v == old(now.v) && now.phase == p && p == if p0 == 1 then 1 else p0 - 1
      ensures p0 == 1 ==> begin == begin0
      ensures taps.Phases(1) <= begin <= begin0
      ensures p0 > 1 ==> BackedOff(taps, passed, failed, now.v, p, begin0, m, begin)
    {
      p, begin, m := p0 - 1, begin0, 0;
      var delay := begin0 - taps.opa;
      if p == 0 {
        p, delay := 1, begin0;
      }
      SetPhase(p);
      TimesGrows(taps.opa, 1, p0);
      if p0 > 1 {
        TimesGrows(taps.opa, 2, p0);
      }
      var d := 0;
      while d <= taps.delayMax && delay < begin0
        invariant Grew() && now.v == old(now.v) && now.phase == p && 0 <= d <= taps.delayMax
        invariant p0 == 1 ==> delay == begin0
        invariant p0 > 1 ==> delay == begin0 - taps.opa + taps.Delays(d) >= taps.Phases(1)
        invariant DelaysFailed(failed, now.v, p, d)
        invariant d > 0 ==> taps.Delays(d - 1) < taps.opa
        decreases taps.delayMax + 1 - d
      {
        SetDelay(d);
        var pass := Test();
        if pass {
          begin, m := delay, d;
          return;
        }
        d, delay := d + 1, delay + taps.dchain;
      }
      m := d;
    }

    /** The inner loop of step 4a: the phases of one cycle, up to one that fails; j0 counts those seen before. */
    method FailInCycle(p0: int, begin0: int, end0: int, j0: int)
      returns (found: bool, p: int, begin: int, end: int, j: int)
      requires Valid() && 0 <= p0 <= taps.phaseMax && now.delay == 0 && j0 >= 0
      modifies this
      ensures Grew() && now.v == old(now.v) && now.delay == 0 && j > 0
      ensures p0 <= p <= taps.phaseMax + 1 && (found <==> p <= taps.phaseMax)
      ensures end == end0 + taps.Phases(p) - taps.Phases(p0)
      ensures found ==> p > 0 && now.phase == p && now in failed && (j0 > 0 || p > p0)
      ensures begin == begin0 || (j0 == 0 && p0 > 0 && begin == end0 && Setting(now.v, p0, 0) in failed)
      ensures forall q | 1 <= q && p0 <= q < p && (j0 > 0 || p0 < q) :: Setting(now.v, q, 0) in passed
    {
      found, p, begin, end, j := false, p0, begin0, end0, j0;
      while p <= taps.phaseMax
        invariant Grew() && p0 <= p <= taps.phaseMax + 1 && now.v == old(now.v) && now.delay == 0
        invariant !found && j == j0 + p - p0 && end == end0 + taps.Phases(p) - taps.Phases(p0)
        invariant begin == begin0 || (j0 == 0 && p0 > 0 && begin == end0 && Setting(now.v, p0, 0) in failed)
        invariant forall q | 1 <= q && p0 <= q < p && (j0 > 0 || p0 < q) :: Setting(now.v, q, 0) in passed
        decreases taps.phaseMax + 1 - p
      {
        j := j + 1;
        if p != 0 {
          SetPhase(p);
          var pass := Test();
          if !pass && j == 1 {
            begin := end;
          } else if !pass {
            found := true;
            return;
          }
        }
        p, end := p + 1, end + taps.opa;
      }
    }

    /**
     * Step 4a: from phase p0 on, which is said to lie at time end0, the first phase to fail, apart from p0
     * itself, whose failure moves the beginning.
     */
    method FindFailure(i0: int, p0: int, begin0: int, end0: int) returns (found: bool, p: int, begin: int, end: int)
      requires Valid() && 0 <= i0 <= VFIFO_SIZE && 0 <= p0 <= taps.phaseMax && now.delay == 0
      modifies this
      ensures Grew() && now.delay == 0
      ensures begin == begin0 || (p0 > 0 && begin == end0 && Setting(old(now.v), p0, 0) in failed)
      ensures found ==> now.phase == p && Edge(taps, passed, failed, old(now.v), p0, now)
      ensures found ==> now.v <= old(now.v) + VFIFO_SIZE
      ensures found ==> end == end0 + taps.At(now) - taps.At(Setting(old(now.v), p0, 0))
      ensures !found ==>
        PassedBetween(passed, taps, old(now.v), p0, old(now.v) + VFIFO_SIZE + 1 - i0, 0)
    {
      var i, j := i0, 0;
      found, p, begin, end := false, p0, begin0, end0;
      ghost var v0 := now.v;
      while i < VFIFO_SIZE + 1
        invariant Grew() && i0 <= i <= VFIFO_SIZE + 1 && 0 <= p <= taps.phaseMax && now.delay == 0
        invariant !found && now.v == v0 + i - i0 && j >= 0 && (if j == 0 then i == i0 && p == p0 else i > i0 && p == 0)
        invariant begin == begin0 || (j > 0 && p0 > 0 && begin == end0 && Setting(v0, p0, 0) in failed)
        invariant end == end0 + taps.At(Setting(now.v, p, 0)) - taps.At(Setting(v0, p0, 0))
        invariant PassedBetween(passed, taps, v0, p0, now.v, p)
      {
        found, p, begin, end, j := FailInCycle(p, begin, end, j);
        if found {
          return;
        }
        PushVfifo(1);
        i, p := i + 1, 0;
      }
    }

    /** Step 5a: back from the failing phase to the last one that may be used. */
    method BackToUsable(p0: int, end0: int) returns (end: int)
      requires Valid() && now.phase == p0 && now.delay == 0 && 1 <= p0 <= taps.phaseMax
      modifies this`now
      ensures Valid() && now == LastUsable(taps, old(now))
      ensures end == end0 + taps.At(now) - taps.At(old(now))
    {
      var p := p0;
      end := end0;
      if p == 1 {
        p, end := 0, end - taps.opa;
      }
      if p == 0 {
        p := taps.phaseMax;
        PushVfifo(-1);
      } else {
        p := p - 1;
      }
      end := end - taps.opa;
      SetPhase(p);
    }

    /** Steps 4a and 5a. */
    method FindEnd(i0: int, p0: int, begin0: int, end0: int)
      returns (found: bool, begin: int, end: int, ghost fail: Setting)
      requires Valid() && 0 <= i0 <= VFIFO_SIZE && 0 <= p0 <= taps.phaseMax && now.delay == 0
      modifies this
      ensures Grew()
      ensures begin == begin0 || (p0 > 0 && begin == end0 && Setting(old(now.v), p0, 0) in failed)
      ensures found ==>
        && Edge(taps, passed, failed, old(now.v), p0, fail) && now == LastUsable(taps, fail)
        && end == end0 + taps.At(now) - taps.At(Setting(old(now.v), p0, 0)) <= end0 + 17 * taps.Cycle()
      ensures !found ==>
        PassedBetween(passed, taps, old(now.v), p0, old(now.v) + VFIFO_SIZE + 1 - i0, 0)
    {
      var p;
      found, p, begin, end := FindFailure(i0, p0, begin0, end0);
      fail := now;
      if found {
        WithinCycles(taps, old(now.v), p0, now.v, p);
        LastUsableAt(taps, fail);
        end := BackToUsable(p, end);
      }
    }

    /** One phase on, where the VFIFO is pushed behind the last one; the phase is not set yet. */
    method NextPhase(p0: int) returns (p: int)
      requires Valid() && 0 <= p0 <= taps.phaseMax
      modifies this`now
      ensures Valid() && now == old(now).(v := now.v) && 0 <= p <= taps.phaseMax
      ensures taps.At(Setting(now.v, p, 0)) == taps.At(Setting(old(now.v), p0, 0)) + taps.opa
      ensures now.v == old(now.v) || (now.v == old(now.v) + 1 && p == 0)
    {
      p := p0 + 1;
      if p > taps.phaseMax {
        p := 0;
        PushVfifo(1);
      }
    }

    /** Behind step 3a: back to the phase found, and on by another one. */
    method TwoPhasesOn(p0: int) returns (p: int)
      requires Valid() && 0 <= p0 <= taps.phaseMax
      modifies this`now
      ensures Valid() && now.delay == 0 && now.v >= old(now.v) && 0 <= p <= taps.phaseMax
      ensures taps.At(Setting(now.v, p, 0)) == taps.At(Setting(old(now.v), p0, 0)) + 2 * taps.opa
    {
      p := NextPhase(p0);
      SetDelay(0);
      p := NextPhase(p);
    }

    /** Steps 3a to 5a. */
    method EdgesByPhases(i: int, p0: int, begin0: int)
      returns (found: bool, begin: int, end: int,
               ghost m: int, ghost start: Setting, ghost fail: Setting, ghost was: int)
      requires Valid() && 0 <= i < VFIFO_SIZE && 1 <= p0 <= taps.phaseMax && now.phase == p0 && now.delay == 0
      requires taps.Phases(p0) <= begin0
      modifies this
      ensures Grew() && Traced(taps, passed, failed, old(now), begin0, m, was, start)
      ensures begin == was || (start.phase > 0 && start in failed)
      ensures taps.Phases(1) <= begin
      ensures found ==> end <= begin0 + taps.opa + 17 * taps.Cycle()
      ensures found ==>
        && Edge(taps, passed, failed, start.v, start.phase, fail) && now == LastUsable(taps, fail)
        && end == begin0 + taps.opa + taps.At(now) - taps.At(start)
      ensures !found ==> PassedBetween(passed, taps, start.v, start.phase, start.v + VFIFO_SIZE + 1 - i, 0)
    {
      var p;
      p, begin, m := BackOff(p0, begin0);
      was := begin;
      p := TwoPhasesOn(p);
      start := Setting(now.v, p, 0);
      TimesGrows(taps.opa, 1, p0);
      found, begin, end, fail := FindEnd(i, p, begin, begin0 + taps.opa);
    }

    /** Steps 3b and 5b: on to the last delay tap that passes. */
    method EndInDelays(d0: int, end0: int) returns (d: int, end: int)
      requires Valid() && 0 <= d0 <= taps.delayMax
      modifies this
      ensures Grew() && now.v == old(now.v) && now.phase == old(now.phase)
      ensures d0 <= d <= taps.delayMax + 1 && forall k | d0 <= k < d :: Setting(now.v, now.phase, k) in passed
      ensures d <= taps.delayMax ==> Setting(now.v, now.phase, d) in failed
      ensures end == end0 + taps.Delays(d - d0) - if d != 0 then taps.dchain else 0
      ensures end <= end0 + taps.Delays(taps.delayMax + 1)
    {
      d, end := d0, end0;
      while d <= taps.delayMax
        invariant Grew() && now.v == old(now.v) && now.phase == old(now.phase)
        invariant d0 <= d <= taps.delayMax + 1 && end == end0 + taps.Delays(d - d0)
        invariant forall k | d0 <= k < d :: Setting(now.v, now.phase, k) in passed
      {
        SetDelay(d);
        var pass := Test();
        if !pass {
          break;
        }
        d, end := d + 1, end + taps.dchain;
      }
      TimesGrows(taps.dchain, d - d0, taps.delayMax + 1);
      if d != 0 {
        end := end - taps.dchain;
      }
    }

    /** The read tests come out by one window, of length w from a on. */
    ghost predicate Windowed(a: int, w: int)
      reads this
    {
      taps.Clear(w) && OneWindow(taps, passes, a, w)
    }

    /** What the tests so far show of the only window behind phase 1 of cycle v. */
    lemma SeenSoFar(a: int, w: int, v: int, b: int)
      requires Valid() && Windowed(a, w)
      requires OnlyWindow(taps.At(Setting(v, 1, 0)), a, w, taps.Round(), b)
      ensures Seen(taps, passed, failed, v, b, w)
    {
      assert forall s | s in passed :: Answered(passes, s, true);
      assert forall s | s in failed :: Answered(passes, s, false);
    }

    lemma RoundFails(a: int, w: int, v: int, b: int)
      requires Valid() && Windowed(a, w) && OnlyWindow(taps.At(Setting(v, 1, 0)), a, w, taps.Round(), b)
      ensures !FailedBefore(failed, taps, v, 0, v + VFIFO_SIZE, 0)
    {
      SeenSoFar(a, w, v, b);
      FoundAtOnce(taps, passed, failed, v, b, w);
    }

    /** Step 1, and where the window is from there. */
    method FindStart(ghost a: int, ghost w: int) returns (ok: bool, ghost b: int)
      requires Valid() && now.phase == 1 && now.delay == 0
      modifies this
      ensures Grew() && now.phase == 1 && now.delay == 0
      ensures Windowed(a, w) ==>
        ok && OnlyWindow(taps.At(now), a, w, taps.Round(), b)
    {
      ok := TwoFailures();
      b := 0;
      ghost var n := taps.Round();
      if Windowed(a, w) {
        assert forall s | s in passed :: Answered(passes, s, true);
        TwoFail(taps, passed, old(now), a, w);
        assert Answered(passes, now, false);
        ClearSizes(taps, w);
        b := NextWindow(taps.At(now), a, w, n);
      }
    }

    /**
     * The phases have located the beginning of the window, and its end to within two phase taps: it is to be
     * refined from the taps programmed now, which are said to lie at end.
     */
    ghost predicate HalfLocated(w: int, v: int, b: int, p0: int, begin: int, end: int, start: Setting, fail: Setting)
      reads this
    {
      && (BeginsAtPhaseOne(taps, b) <==> p0 == 1)
      && b <= begin + Times(taps.Cycle(), v) < b + (if p0 == 1 then 2 * taps.opa else taps.dchain)
      && start.delay == 0 && 0 <= start.phase <= taps.phaseMax && b + taps.opa <= taps.At(start) <= b + w
      && Edge(taps, passed, failed, start.v, start.phase, fail) && now == LastUsable(taps, fail)
      && end + Times(taps.Cycle(), v) == taps.At(now) - if p0 == 1 then taps.opa else 0
    }

    lemma EndSeen(a: int, w: int, v: int, b: int, start: Setting, fail: Setting, u: Setting, d: int)
      requires Valid() && Windowed(a, w) && OnlyWindow(taps.At(Setting(v, 1, 0)), a, w, taps.Round(), b)
      requires start.delay == 0 && 0 <= start.phase <= taps.phaseMax && b + taps.opa <= taps.At(start) <= b + w
      requires Edge(taps, passed, failed, start.v, start.phase, fail) && u == LastUsable(taps, fail)
      requires 0 <= d <= taps.delayMax + 1 && forall k | 0 <= k < d :: Setting(u.v, u.phase, k) in passed
      requires d <= taps.delayMax ==> Setting(u.v, u.phase, d) in failed
      ensures d > 0 && taps.At(u) + taps.Delays(d) - taps.dchain <= b + w < taps.At(u) + taps.Delays(d)
    {
      SeenSoFar(a, w, v, b);
      EndLocated(taps, passed, failed, v, b, w, start, fail, u, d);
    }

    /** Steps 3a to 5a in a memory with one window, seen from cycle v on: what they leave to be refined. */
    method LocateByPhases(i: int, p0: int, begin0: int, ghost a: int, ghost w: int, ghost v: int, ghost b: int)
      returns (found: bool, begin: int, end: int, ghost start: Setting, ghost fail: Setting)
      requires Valid() && 0 <= i < VFIFO_SIZE && 1 <= p0 <= taps.phaseMax && now.phase == p0 && now.delay == 0
      requires taps.Phases(p0) <= begin0 && now in passed
      requires Windowed(a, w) ==>
        && OnlyWindow(taps.At(Setting(v, 1, 0)), a, w, taps.Round(), b)
        && now.v == v + i && FailedBefore(failed, taps, v, 0, now.v, p0)
        && taps.At(now) == begin0 + Times(taps.Cycle(), v)
      modifies this
      ensures Grew() && taps.Phases(1) <= begin
      ensures found ==> end <= begin0 + taps.opa + 17 * taps.Cycle()
      ensures Windowed(a, w) ==>
        && found && HalfLocated(w, v, b, p0, begin, end, start, fail)
    {
      ghost var first, m, was := now, 0, 0;
      found, begin, end, m, start, fail, was := EdgesByPhases(i, p0, begin0);
      if Windowed(a, w) {
        SeenSoFar(a, w, v, b);
        TracedFrom(taps, passed, failed, first, begin0, m, was, start, Times(taps.Cycle(), v));
        BeginLocated(taps, passed, failed, v, b, w, first, m, was + Times(taps.Cycle(), v), start);
        EdgeFound(taps, passed, failed, v, b, w, start, start.v + VFIFO_SIZE + 1 - i);
      }
    }

    /** Step 2, where the window is known. */
    method FindBeginFrom(dtaps: nat, ghost a: int, ghost w: int, ghost v: int, ghost b: int)
      returns (found: bool, d: int, i: int, p: int, begin: int)
      requires Valid() && dtaps < taps.delayMax && v == now.v
      requires Windowed(a, w) ==> OnlyWindow(taps.At(Setting(v, 1, 0)), a, w, taps.Round(), b)
      modifies this
      ensures Grew()
      ensures found ==>
        && 0 <= d < taps.delayMax && 0 <= i < VFIFO_SIZE && 1 <= p <= taps.phaseMax
        && now in passed && now.phase == p && now.delay == d && taps.Phases(1) <= taps.Phases(p) <= begin
        && begin <= 17 * taps.Cycle() + taps.Delays(taps.delayMax)
      ensures Windowed(a, w) ==>
        && found && d == 0 && now.v == v + i && FailedBefore(failed, taps, v, 0, now.v, p)
        && taps.At(now) == begin + Times(taps.Cycle(), v)
    {
      found, d, i, p, begin := FindBegin(dtaps);
      if Windowed(a, w) {
        RoundFails(a, w, v, b);
        TimesAdds(taps.Cycle(), v, i);
      }
    }

    /** Steps 1 and 2. */
    method FindFirst(dtaps: nat, ghost a: int, ghost w: int)
      returns (found: bool, d: int, i: int, p: int, begin: int, ghost v: int, ghost b: int)
      requires Valid() && now.phase == 1 && now.delay == 0 && dtaps < taps.delayMax
      modifies this
      ensures Grew()
      ensures found ==>
        && 0 <= d < taps.delayMax && 0 <= i < VFIFO_SIZE && 1 <= p <= taps.phaseMax
        && now in passed && now.phase == p && now.delay == d && taps.Phases(1) <= taps.Phases(p) <= begin
        && begin <= 17 * taps.Cycle() + taps.Delays(taps.delayMax)
      ensures Windowed(a, w) ==>
        && found && d == 0 && OnlyWindow(taps.At(Setting(v, 1, 0)), a, w, taps.Round(), b)
        && now.v == v + i && FailedBefore(failed, taps, v, 0, now.v, p)
        && taps.At(now) == begin + Times(taps.Cycle(), v)
    {
      d, i, p, begin := 0, 0, 0, 0;
      found, b := FindStart(a, w);
      v := now.v;
      if found {
        found, d, i, p, begin := FindBeginFrom(dtaps, a, w, v, b);
      }
    }

    /** Steps 3b and 5b where the phases have left an end to be refined. */
    method RefineEnd(d0: int, begin: int, end0: int, p0: int, ghost a: int, ghost w: int, ghost v: int, ghost b: int,
                     ghost start: Setting, ghost fail: Setting)
      returns (d: int, end: int)
      requires Valid() && 0 <= d0 <= taps.delayMax
      requires Windowed(a, w) ==>
        && OnlyWindow(taps.At(Setting(v, 1, 0)), a, w, taps.Round(), b) && d0 == 0
        && HalfLocated(w, v, b, p0, begin, end0, start, fail)
      modifies this
      ensures Grew()
      ensures d0 <= d <= taps.delayMax + 1 && end <= end0 + taps.Delays(taps.delayMax + 1)
      ensures Windowed(a, w) ==>
        && begin <= end
        && Located(taps, Times(taps.Cycle(), v) + begin, Times(taps.Cycle(), v) + end, b, b + w)
    {
      ghost var u, off := now, Times(taps.Cycle(), v);
      d, end := EndInDelays(d0, end0);
      if Windowed(a, w) {
        EndSeen(a, w, v, b, start, fail, u, d);
        BothLocated(taps, b, w, p0 == 1, off + begin, taps.At(u), d, off + end);
      }
    }

    /** Steps 1 to 5: the window, if there is one. */
    method FindWindow(dtaps: nat, ghost a: int, ghost w: int)
      returns (found: bool, d: int, begin: int, end: int, ghost v: int, ghost b: int)
      requires Valid() && now.phase == 1 && now.delay == 0 && dtaps < taps.delayMax
      modifies this
      ensures Grew() && d >= 0
      ensures found ==> taps.Phases(1) <= begin <= end <= taps.Reach()
      ensures Windowed(a, w) ==>
        && found && Repeats(b, a, taps.Round())
        && Located(taps, Times(taps.Cycle(), v) + begin, Times(taps.Cycle(), v) + end, b, b + w)
    {
      var i, p;
      found, d, i, p, begin, v, b := FindFirst(dtaps, a, w);
      end := begin;
      if !found {
        d := 0;
        return;
      }
      ghost var start, fail := now, now;
      if d == 0 {
        found, begin, end, start, fail := LocateByPhases(i, p, begin, a, w, v, b);
        if !found {
          return;
        }
      }
      d, end := RefineEnd(d, begin, end, p, a, w, v, b, start, fail);
      found := end >= begin;
      InReach(taps);
    }

    /** Step 6, last part: pushes the VFIFO until a read passes. */
    method PushUntilPass() returns (ok: bool)
      requires Valid()
      modifies this
      ensures Grew() && now == AtCycle(old(now), now.v)
      ensures ok ==> tests > 0 && passes(tests - 1, now)
      ensures !ok ==> forall c | old(now.v) <= c < old(now.v) + VFIFO_SIZE :: AtCycle(old(now), c) in failed
    {
      var i := 0;
      while i < VFIFO_SIZE
        invariant Grew() && 0 <= i <= VFIFO_SIZE && now == AtCycle(old(now), old(now.v) + i)
        invariant forall c | old(now.v) <= c < old(now.v) + i :: AtCycle(old(now), c) in failed
        decreases VFIFO_SIZE - i
      {
        var pass := Test();
        if pass {
          return true;
        }
        PushVfifo(1);
        i := i + 1;
      }
      ok := false;
    }

    /** Step 6 for a window of the memory: its middle passes in one of the cycles the VFIFO goes through. */
    lemma MiddlePasses(a: int, w: int, s: Setting, b: int, v: int) returns (c: int)
      requires Valid() && Windowed(a, w) && Repeats(b, a, taps.Round()) && b <= taps.At(s) <= b + w
      ensures v <= c < v + VFIFO_SIZE && AtCycle(s, c) !in failed
    {
      ClearSizes(taps, w);
      var k :| b == a + Times(taps.Round(), k);
      InsideIs(taps.At(s), a, w, taps.Round(), k);
      c := SameCycle(taps, s, v, a, w);
      assert !Answered(passes, AtCycle(s, c), false);
    }

    /** Goes on through the delay taps to the first read that comes out as wanted. */
    method NextDelay(d0: int, wanted: bool) returns (found: bool, d: int)
      requires Valid() && d0 >= 0
      modifies this
      ensures Grew() && d >= d0 && (found ==> d <= taps.delayMax)
    {
      d := d0;
      while d <= taps.delayMax
        invariant Grew() && d >= d0
      {
        SetDelay(d);
        var pass := Test();
        if pass == wanted {
          return true, d;
        }
        d := d + 1;
      }
      found := false;
    }

    /**
     * For tracking: the delay taps of a phase as they are measured, from the failing one behind the window to the
     * next failing one a phase earlier; or as computed, if there is no such pair.
     */
    method MeasureDelayTaps(d0: int, dtaps: nat) returns (n: nat)
      requires Valid() && d0 >= 0 && dtaps <= taps.delayMax
      modifies this
      ensures Grew() && n <= taps.delayMax
    {
      var p := now.phase;
      if p == 0 || p == 1 {
        p := taps.phaseMax;
        PushVfifo(-1);
      } else {
        p := p - 1;
      }
      SetPhase(p);
      n := dtaps;
      var passing, d := NextDelay(d0, true);
      if passing {
        var failing;
        failing, d := NextDelay(d + 1, false);
        if failing {
          n := d - d0;
        }
      }
    }

    /** Step 6: programs the taps nearest to the middle. */
    method SetMiddle(begin: int, end: int) returns (phase: int, delay: int, ghost mid: int, ghost cycles: nat)
      requires Valid() && taps.Phases(1) <= begin <= end
      modifies this`now
      ensures Valid() && now == Setting(old(now.v), phase, delay)
      ensures 0 < mid <= taps.Cycle() && (begin + end) / 2 == mid + Times(taps.Cycle(), cycles)
      ensures Nearest(taps, mid, phase, delay)
    {
      TimesSign(taps.opa, 1);
      var work;
      work, cycles := WithinCycle(taps, (begin + end) / 2);
      mid := work;
      phase, delay := NearestTaps(taps, work);
      SetPhase(phase);
      SetDelay(delay);
    }

    /** Its last part, if the programmed taps lie in the window in the cycle of s. */
    method PushToMiddle(ghost a: int, ghost w: int, ghost s: Setting, ghost b: int) returns (ok: bool)
      requires Valid() && s == AtCycle(now, s.v)
      requires Windowed(a, w) ==> Repeats(b, a, taps.Round()) && b <= taps.At(s) <= b + w
      modifies this
      ensures Grew() && now == AtCycle(old(now), now.v)
      ensures ok ==> tests > 0 && passes(tests - 1, now)
      ensures Windowed(a, w) ==> ok
    {
      ghost var was := now;
      ok := PushUntilPass();
      if Windowed(a, w) {
        ghost var c := MiddlePasses(a, w, s, b, was.v);
        assert AtCycle(s, c) == AtCycle(was, c);
      }
    }

    /** Step 6: programs the taps nearest to the middle, in a cycle in which the read passes. */
    method CentreOn(begin: int, end: int, ghost a: int, ghost w: int, ghost v: int, ghost b: int)
      returns (ok: bool, phase: int, delay: int, ghost mid: int, ghost cycles: nat)
      requires Valid() && taps.Phases(1) <= begin <= end
      requires Windowed(a, w) ==>
        && Repeats(b, a, taps.Round())
        && Located(taps, Times(taps.Cycle(), v) + begin, Times(taps.Cycle(), v) + end, b, b + w)
      modifies this
      ensures Grew() && now.phase == phase && now.delay == delay && Nearest(taps, mid, phase, delay)
      ensures 0 < mid <= taps.Cycle() && (begin + end) / 2 == mid + Times(taps.Cycle(), cycles)
      ensures ok ==> tests > 0 && passes(tests - 1, now)
      ensures Windowed(a, w) ==>
        ok && NearMiddle(taps, taps.At(now.(v := v + cycles)), b, w, Slack(taps, mid))
    {
      phase, delay, mid, cycles := SetMiddle(begin, end);
      ghost var s := now.(v := v + cycles);
      if Windowed(a, w) {
        MiddleOf(taps, begin, end, v, b, w, mid, cycles, phase, delay);
      }
      ok := PushToMiddle(a, w, s, b);
    }

    /**
     * rw_mgr_mem_calibrate_vfifo_find_dqs_en_phase. Whatever the memory does, the taps programmed are within
     * range and nearest to the middle of the window found, up to whole cycles, and the last read passed. In a
     * memory with one window, whatever its place a and length w, the search succeeds, locates the window, and
     * ends near its middle.
     */
    method FindDqsEnPhase(ghost a: int, ghost w: int)
      returns (ok: bool, phase: int, delay: int, begin: int, end: int, perPhase: nat,
               ghost v: int, ghost b: int, ghost mid: int, ghost cycles: nat)
      requires Valid()
      modifies this
      ensures Grew()
      ensures perPhase <= taps.delayMax
      ensures ok ==>
        && 0 < begin <= end && begin + end < 0x1_0000_0000
        && 0 < mid <= taps.Cycle() && (begin + end) / 2 == mid + Times(taps.Cycle(), cycles)
        && Nearest(taps, mid, phase, delay) && now.phase == phase && now.delay == delay
        && tests > 0 && passes(tests - 1, now)
      ensures Windowed(a, w) ==>
        && ok && Repeats(b, a, taps.Round())
        && Located(taps, Times(taps.Cycle(), v) + begin, Times(taps.Cycle(), v) + end, b, b + w)
        && NearMiddle(taps, taps.At(now.(v := v + cycles)), b, w, Slack(taps, mid))
    {
      SetDelay(0);
      SetPhase(1);
      phase, delay, mid, cycles := 1, 0, 0, 0;
      perPhase := DelayTapsPerPhase(taps);
      var d;
      ok, d, begin, end, v, b := FindWindow(perPhase, a, w);
      if !ok {
        return;
      }
      perPhase := MeasureDelayTaps(d, perPhase);
      ok, phase, delay, mid, cycles := CentreOn(begin, end, a, w, v, b);
    }
  }

  lemma InReach(taps: Taps)
    requires taps.Sound()
    ensures 34 * taps.Cycle() + taps.opa + taps.Delays(taps.delayMax) + taps.Delays(taps.delayMax + 1) <= taps.Reach()
  {
    TimesGrows(taps.opa, 1, taps.phaseMax + 1);
    TimesGrows(taps.dchain, taps.delayMax, taps.delayMax + 1);
  }

  ghost predicate Answered(passes: (nat, Setting) -> bool, s: Setting, pass: bool) {
    exists n: nat :: passes(n, s) == pass
  }
}
