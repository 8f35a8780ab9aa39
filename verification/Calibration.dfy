/**
 * One whole calibration run: the stages each write group goes through, the early returns and the
 * sweep-all debug flag, and the bookkeeping of the first failure.
 */
module Calibration {
  import opened CInt
  import opened Division

  const CAL_STAGE_NIL: nat := 0

  /** One calibration stage. */
  datatype Stage = Vfifo(readGroup: nat) | Writes(shadow: nat, writeGroup: nat) | VfifoEnd(readGroup: nat) | Lfifo

  function ReadStage(after: bool, r: nat): Stage { if after then VfifoEnd(r) else Vfifo(r) }

  /** A failure as handed to set_failing_group_stage. */
  datatype Failure = Failure(group: nat, stage: nat, substage: nat)

  /** The verdict of a stage and the failures reported while it ran; a stage that retries may report and still pass. */
  datatype Result = Result(ok: bool, failures: seq<Failure>)

  /** A stage in a repeat of the calibration. */
  type Call = (nat, Stage)

  /** What a stage does when it is called, which may depend on all the calls before. */
  type Memory = (seq<Call>, Call) -> Result

  /** Stages report only real stages, and never fail silently. */
  ghost predicate Reporting(memory: Memory) {
    forall before, call ::
      && (forall f | f in memory(before, call).failures :: f.stage != CAL_STAGE_NIL)
      && (!memory(before, call).ok ==> memory(before, call).failures != [])
  }

  /** The calls of a run so far, and the verdict on its last part. */
  datatype Trail = Trail(calls: seq<Call>, ok: bool)

  ghost function Try(m: Memory, h: seq<Call>, call: Call): Trail { Trail(h + [call], m(h, call).ok) }

  /** Makes the calls of a plan one after the other, up to the first that fails. */
  ghost function Follow(m: Memory, h: seq<Call>, plan: seq<Call>): Trail
    decreases |plan|
  {
    if plan == [] then Trail(h, true)
    else
      var t := Try(m, h, plan[0]);
      if t.ok then Follow(m, t.calls, plan[1..]) else t
  }

  /** Makes all the calls of a plan, whether they pass or not. */
  ghost function MakeAll(m: Memory, h: seq<Call>, plan: seq<Call>): Trail
    decreases |plan|
  {
    if plan == [] then Trail(h, true)
    else
      var t := Try(m, h, plan[0]);
      Joined(t.ok, MakeAll(m, t.calls, plan[1..]))
  }

  /** A trail behind a part that passed or failed. */
  function Joined(ok: bool, rest: Trail): Trail { Trail(rest.calls, ok && rest.ok) }

  /** The verdicts are the same, and the calls too unless both failed; then the second has made more. */
  predicate Swept(t: Trail, all: Trail) {
    t.ok == all.ok && t.calls <= all.calls && (t.ok ==> t.calls == all.calls)
  }

  lemma {:induction false} PlanSwept(m: Memory, h: seq<Call>, plan: seq<Call>)
    ensures Swept(Follow(m, h, plan), MakeAll(m, h, plan)) && h <= Follow(m, h, plan).calls
    decreases |plan|
  {
    if plan != [] {
      PlanSwept(m, h + [plan[0]], plan[1..]);
    }
  }

  /** The first k calls of a plan pass when their turn comes. */
  ghost predicate PassUpTo(m: Memory, h: seq<Call>, plan: seq<Call>, k: nat)
    requires k <= |plan|
  {
    forall j | 0 <= j < k :: PassesAt(m, h, plan, j)
  }

  ghost predicate PassesAt(m: Memory, h: seq<Call>, plan: seq<Call>, j: nat)
    requires j < |plan|
  {
    m(h + plan[..j], plan[j]).ok
  }

  /** Following a plan makes all its calls and they pass, or it ends with the first of them that fails. */
  lemma {:induction false} FollowMeans(m: Memory, h: seq<Call>, plan: seq<Call>) returns (k: nat)
    ensures k <= |plan| && PassUpTo(m, h, plan, k)
    ensures var t := Follow(m, h, plan);
      if t.ok then k == |plan| && t.calls == h + plan
      else k < |plan| && !PassesAt(m, h, plan, k) && t.calls == h + plan[..k + 1]
    decreases |plan|
  {
    if plan == [] {
      k := 0;
    } else if !m(h, plan[0]).ok {
      k := 0;
      assert h + plan[..0] == h;
    } else {
      k := FollowMeans(m, h + [plan[0]], plan[1..]);
      forall j | 0 <= j <= k && j < |plan[1..]|
        ensures PassesAt(m, h + [plan[0]], plan[1..], j) == PassesAt(m, h, plan, j + 1)
      {
        PassesLater(m, h, plan, j);
      }
      PassFrom(m, h, plan, k);
      if k < |plan[1..]| {
        assert plan[..k + 2] == [plan[0]] + plan[1..][..k + 1];
      }
      k := k + 1;
    }
  }

  lemma PassesLater(m: Memory, h: seq<Call>, plan: seq<Call>, j: nat)
    requires j + 1 < |plan|
    ensures PassesAt(m, h + [plan[0]], plan[1..], j) == PassesAt(m, h, plan, j + 1)
  {
    assert h + [plan[0]] + plan[1..][..j] == h + plan[..j + 1];
  }

  lemma PassFrom(m: Memory, h: seq<Call>, plan: seq<Call>, k: nat)
    requires plan != [] && k < |plan| && m(h, plan[0]).ok && PassUpTo(m, h + [plan[0]], plan[1..], k)
    ensures PassUpTo(m, h, plan, k + 1)
  {
    forall j | 0 <= j < k + 1
      ensures PassesAt(m, h, plan, j)
    {
      if j == 0 {
        assert h + plan[..0] == h;
      } else {
        PassesLater(m, h, plan, j - 1);
        assert PassesAt(m, h + [plan[0]], plan[1..], j - 1);
      }
    }
  }

  lemma {:induction false} FollowBoth(m: Memory, h: seq<Call>, p: seq<Call>, q: seq<Call>)
    ensures Follow(m, h, p + q) == var t := Follow(m, h, p); if t.ok then Follow(m, t.calls, q) else t
    decreases |p|
  {
    if p == [] {
      assert p + q == q;
    } else {
      assert (p + q)[1..] == p[1..] + q;
      if m(h, p[0]).ok {
        FollowBoth(m, h + [p[0]], p[1..], q);
      }
    }
  }

  /** The memory interface's shape, and the steps compiled out of the calibration. */
  datatype Shape = Shape(
    readWidth: nat, writeWidth: nat, shadowSets: nat, repeats: nat,
    skipVfifo: bool, skipWrites: bool, skipDelaySweeps: bool, skipLfifo: bool)

  /** First read group of write group w; write group w - 1 ends where w begins. */
  function ReadBegin(s: Shape, w: nat): nat
    requires s.writeWidth > 0
  {
    w * s.readWidth / s.writeWidth
  }

  function PerWriteGroup(s: Shape): nat
    requires s.writeWidth > 0
  {
    s.readWidth / s.writeWidth
  }

  /** Read group r belongs to write group w. */
  predicate Owns(s: Shape, w: nat, r: nat)
    requires s.writeWidth > 0
  {
    ReadBegin(s, w) <= r < ReadBegin(s, w + 1)
  }

  /** The read-group ranges of the write groups cover every read group exactly once, and nothing else. */
  lemma {:induction false} ReadRangesTile(s: Shape, r: nat)
    requires s.writeWidth > 0
    ensures r < s.readWidth <==> exists w: nat :: w < s.writeWidth && Owns(s, w, r)
    ensures forall v: nat, w: nat | Owns(s, v, r) && Owns(s, w, r) :: v == w
  {
    WholeRange(s);
    if r < s.readWidth {
      var w := OwnerOf(s, r, s.writeWidth);
    }
    forall v: nat, w: nat | Owns(s, v, r)
      ensures w > v ==> !Owns(s, w, r)
      ensures w < s.writeWidth && Owns(s, w, r) ==> r < s.readWidth
    {
      if w > v {
        ReadBeginMonotone(s, v + 1, w);
      }
      if w < s.writeWidth {
        ReadBeginMonotone(s, w + 1, s.writeWidth);
      }
    }
  }

  lemma WholeRange(s: Shape)
    requires s.writeWidth > 0
    ensures ReadBegin(s, s.writeWidth) == s.readWidth
  {
    Quotient(s.writeWidth * s.readWidth, s.writeWidth, s.readWidth, 0);
  }

  lemma ReadBeginMonotone(s: Shape, v: nat, w: nat)
    requires s.writeWidth > 0 && v <= w
    ensures ReadBegin(s, v) <= ReadBegin(s, w)
  {
    assert w * s.readWidth == v * s.readWidth + (w - v) * s.readWidth;
    QuotientMonotone(v * s.readWidth, w * s.readWidth, s.writeWidth);
  }

  lemma {:induction false} OwnerOf(s: Shape, r: nat, limit: nat) returns (w: nat)
    requires s.writeWidth > 0 && r < ReadBegin(s, limit)
    ensures w < limit && Owns(s, w, r)
  {
    assert ReadBegin(s, 0) == 0;
    if ReadBegin(s, limit - 1) <= r {
      w := limit - 1;
    } else {
      w := OwnerOf(s, r, limit - 1);
    }
  }

  /** What one run is asked to do: skip_groups is a 32-bit word, one bit per read group. */
  datatype Setup = Setup(shape: Shape, skipGroups: seq<bool>, skipShadow: seq<bool>)
  {
    predicate Valid() {
      && shape.writeWidth > 0 && |skipGroups| == 32 && |skipShadow| == shape.shadowSets
    }

    /** Some read group of write group w is not masked by skip_groups. */
    predicate Attempted(w: nat)
      requires Valid()
    {
      exists b | 0 <= b < 32 :: InWriteGroup(b, w) && !skipGroups[b]
    }

    predicate InWriteGroup(b: nat, w: nat)
      requires Valid()
    {
      w * PerWriteGroup(shape) <= b < (w + 1) * PerWriteGroup(shape)
    }

    /** run_groups on reaching write group w: the complement of skip_groups, shifted right once per group. */
    function RunGroups(w: nat): seq<bool>
      requires Valid()
    {
      var from := Min(w * PerWriteGroup(shape), 32);
      seq(32 - from, k requires 0 <= k < 32 - from => !skipGroups[from + k])
    }

    /** Taking the lowest bits of run_groups says whether w is to be calibrated and leaves those of the next group. */
    lemma NextRunGroups(w: nat)
      requires Valid()
      ensures var run := RunGroups(w);
        var shift := Min(PerWriteGroup(shape), |run|);
        (true in run[..shift] <==> Attempted(w)) && run[shift..] == RunGroups(w + 1)
    {
      var n := PerWriteGroup(shape);
      assert (w + 1) * n == w * n + n;
      RunFrom(w, w * n, n);
      assert RunGroups(w)[Min(n, |RunGroups(w)|)..] == RunGroups(w + 1);
    }

    lemma RunFrom(w: nat, from: nat, n: nat)
      requires Valid() && n == PerWriteGroup(shape) && from == w * n && from + n == (w + 1) * n
      ensures var run := RunGroups(w); true in run[..Min(n, |run|)] <==> Attempted(w)
    {
      var run := RunGroups(w);
      var low := run[..Min(n, |run|)];
      if Attempted(w) {
        var b :| 0 <= b < 32 && InWriteGroup(b, w) && !skipGroups[b];
        assert low[b - from];
      }
      if true in low {
        var k :| 0 <= k < |low| && low[k];
        assert InWriteGroup(from + k, w) && !skipGroups[from + k];
      }
    }

    /** The read-latency stage runs only when no group at all is skipped. */
    predicate LfifoRuns() { !shape.skipLfifo && true !in skipGroups }

    // The stages a run is to go through, in order.

    function ReadPlan(i: nat, after: bool, r: nat, end: nat): seq<Call>
      decreases end - r
    {
      if r >= end then [] else [(i, ReadStage(after, r))] + ReadPlan(i, after, r + 1, end)
    }

    lemma ReadPlanNext(i: nat, after: bool, r: nat, end: nat)
      requires r < end
      ensures var plan := ReadPlan(i, after, r, end);
        plan[0] == (i, ReadStage(after, r)) && plan[1..] == ReadPlan(i, after, r + 1, end)
    {
    }

    /** The shadow register sets not skipped. */
    function SetsPlan(i: nat, w: nat, sr: nat): seq<Call>
      requires Valid()
      decreases shape.shadowSets - sr
    {
      if sr >= shape.shadowSets then []
      else (if skipShadow[sr] then [] else [(i, Writes(sr, w))]) + SetsPlan(i, w, sr + 1)
    }

    lemma SetsPlanNext(i: nat, w: nat, sr: nat)
      requires Valid() && sr < shape.shadowSets
      ensures var plan := SetsPlan(i, w, sr);
        if skipShadow[sr] then plan == SetsPlan(i, w, sr + 1)
        else plan != [] && plan[0] == (i, Writes(sr, w)) && plan[1..] == SetsPlan(i, w, sr + 1)
    {
    }

    function VfifoPlan(i: nat, w: nat): seq<Call>
      requires Valid()
    {
      if shape.skipVfifo then [] else ReadPlan(i, false, ReadBegin(shape, w), ReadBegin(shape, w + 1))
    }

    function WritesPlan(i: nat, w: nat): seq<Call>
      requires Valid()
    {
      if shape.skipWrites || shape.skipDelaySweeps then [] else SetsPlan(i, w, 0)
    }

    function EndPlan(i: nat, w: nat): seq<Call>
      requires Valid()
    {
      if shape.skipWrites then [] else ReadPlan(i, true, ReadBegin(shape, w), ReadBegin(shape, w + 1))
    }

    function GroupPlan(i: nat, w: nat): seq<Call>
      requires Valid()
    {
      VfifoPlan(i, w) + (WritesPlan(i, w) + EndPlan(i, w))
    }

    /** The write groups from w on that are attempted. */
    function GroupsPlan(i: nat, w: nat): seq<Call>
      requires Valid()
      decreases shape.writeWidth - w
    {
      if w >= shape.writeWidth then []
      else (if Attempted(w) then GroupPlan(i, w) else []) + GroupsPlan(i, w + 1)
    }

    function RepeatPlan(i: nat): seq<Call>
      requires Valid()
    {
      GroupsPlan(i, 0) + if LfifoRuns() then [(i, Lfifo)] else []
    }

    function RunPlan(i: nat): seq<Call>
      requires Valid()
      decreases shape.repeats - i
    {
      if i >= shape.repeats then [] else RepeatPlan(i) + RunPlan(i + 1)
    }

    lemma {:induction false} ReadPlanExact(i: nat, after: bool, r: nat, end: nat, call: Call)
      ensures call in ReadPlan(i, after, r, end) <==> call.0 == i && ReadsIn(call.1, after, r, end)
      decreases end - r
    {
      if r < end {
        ReadPlanExact(i, after, r + 1, end, call);
      }
    }

    predicate ReadsIn(stage: Stage, after: bool, r: nat, end: nat) {
      if after then stage.VfifoEnd? && r <= stage.readGroup < end else stage.Vfifo? && r <= stage.readGroup < end
    }

    lemma {:induction false} SetsPlanExact(i: nat, w: nat, sr: nat, call: Call)
      requires Valid()
      ensures call in SetsPlan(i, w, sr) <==>
        call.0 == i && call.1.Writes? && call.1.writeGroup == w
        && sr <= call.1.shadow < shape.shadowSets && !skipShadow[call.1.shadow]
      decreases shape.shadowSets - sr
    {
      if sr < shape.shadowSets {
        SetsPlanExact(i, w, sr + 1, call);
      }
    }

    /** Stage belongs to write group w. */
    predicate OfGroup(stage: Stage, w: nat)
      requires Valid()
    {
      match stage
      case Vfifo(r) => !shape.skipVfifo && Owns(shape, w, r)
      case Writes(sr, v) =>
        !shape.skipWrites && !shape.skipDelaySweeps && v == w && sr < shape.shadowSets && !skipShadow[sr]
      case VfifoEnd(r) => !shape.skipWrites && Owns(shape, w, r)
      case Lfifo => false
    }

    lemma GroupPlanExact(i: nat, w: nat, call: Call)
      requires Valid()
      ensures call in GroupPlan(i, w) <==> call.0 == i && OfGroup(call.1, w)
    {
      ReadPlanExact(i, false, ReadBegin(shape, w), ReadBegin(shape, w + 1), call);
      ReadPlanExact(i, true, ReadBegin(shape, w), ReadBegin(shape, w + 1), call);
      SetsPlanExact(i, w, 0, call);
    }

    lemma {:induction false} GroupsPlanExact(i: nat, w: nat, call: Call)
      requires Valid()
      ensures call in GroupsPlan(i, w) <==> call.0 == i && SomeGroup(call.1, w)
      decreases shape.writeWidth - w
    {
      if w < shape.writeWidth {
        GroupsPlanExact(i, w + 1, call);
        GroupPlanExact(i, w, call);
        assert OfGroup(call.1, w) && Attempted(w) ==> SomeGroup(call.1, w);
      }
    }

    /** Stage belongs to a write group from w on that is attempted. */
    ghost predicate SomeGroup(stage: Stage, w: nat)
      requires Valid()
    {
      exists v: nat :: w <= v < shape.writeWidth && Attempted(v) && OfGroup(stage, v)
    }

    /** Stage is to be gone through in every repeat. */
    ghost predicate Planned(stage: Stage)
      requires Valid()
    {
      SomeGroup(stage, 0) || (stage == Lfifo && LfifoRuns())
    }

    lemma {:induction false} RunPlanExact(i: nat, call: Call)
      requires Valid()
      ensures call in RunPlan(i) <==> i <= call.0 < shape.repeats && Planned(call.1)
      decreases shape.repeats - i
    {
      if i < shape.repeats {
        RunPlanExact(i + 1, call);
        RepeatPlanExact(i, call);
      }
    }

    lemma RepeatPlanExact(i: nat, call: Call)
      requires Valid()
      ensures call in RepeatPlan(i) <==> call.0 == i && Planned(call.1)
    {
      GroupsPlanExact(i, 0, call);
    }

    // What a run does.

    /** With sweepAll the shadow register sets behind one that fails are calibrated too. */
    ghost function WritesTrail(m: Memory, sweepAll: bool, h: seq<Call>, i: nat, w: nat): Trail
      requires Valid()
    {
      if sweepAll then MakeAll(m, h, WritesPlan(i, w)) else Follow(m, h, WritesPlan(i, w))
    }

    ghost function GroupTrail(m: Memory, sweepAll: bool, h: seq<Call>, i: nat, w: nat): Trail
      requires Valid()
    {
      var v := Follow(m, h, VfifoPlan(i, w));
      if !v.ok then v
      else
        var x := WritesTrail(m, sweepAll, v.calls, i, w);
        if x.ok then Follow(m, x.calls, EndPlan(i, w)) else x
    }

    /** With sweepAll the groups behind one that fails are calibrated too. */
    ghost function GroupsTrail(m: Memory, sweepAll: bool, h: seq<Call>, i: nat, w: nat): Trail
      requires Valid()
      decreases shape.writeWidth - w
    {
      if w >= shape.writeWidth then Trail(h, true)
      else if !Attempted(w) then GroupsTrail(m, sweepAll, h, i, w + 1)
      else
        var t := GroupTrail(m, sweepAll, h, i, w);
        if t.ok || sweepAll then Joined(t.ok, GroupsTrail(m, sweepAll, t.calls, i, w + 1)) else t
    }

    ghost function RepeatTrail(m: Memory, sweepAll: bool, h: seq<Call>, i: nat): Trail
      requires Valid()
    {
      var t := GroupsTrail(m, sweepAll, h, i, 0);
      if t.ok && LfifoRuns() then Try(m, t.calls, (i, Lfifo)) else t
    }

    ghost function RunTrail(m: Memory, sweepAll: bool, h: seq<Call>, i: nat): Trail
      requires Valid()
      decreases shape.repeats - i
    {
      if i >= shape.repeats then Trail(h, true)
      else
        var t := RepeatTrail(m, sweepAll, h, i);
        if t.ok then RunTrail(m, sweepAll, t.calls, i + 1) else t
    }

    // Without sweeping a run follows its plan up to the first failure.

    lemma GroupFollows(m: Memory, h: seq<Call>, i: nat, w: nat)
      requires Valid()
      ensures GroupTrail(m, false, h, i, w) == Follow(m, h, GroupPlan(i, w))
    {
      var v := Follow(m, h, VfifoPlan(i, w));
      FollowBoth(m, h, VfifoPlan(i, w), WritesPlan(i, w) + EndPlan(i, w));
      FollowBoth(m, v.calls, WritesPlan(i, w), EndPlan(i, w));
    }

    lemma {:induction false} GroupsFollow(m: Memory, h: seq<Call>, i: nat, w: nat)
      requires Valid()
      ensures GroupsTrail(m, false, h, i, w) == Follow(m, h, GroupsPlan(i, w))
      decreases shape.writeWidth - w
    {
      if w < shape.writeWidth {
        if Attempted(w) {
          var t := GroupTrail(m, false, h, i, w);
          GroupsFollow(m, t.calls, i, w + 1);
          NextGroupFollows(m, h, i, w, t);
        } else {
          assert GroupsPlan(i, w) == GroupsPlan(i, w + 1);
          GroupsFollow(m, h, i, w + 1);
        }
      }
    }

    lemma NextGroupFollows(m: Memory, h: seq<Call>, i: nat, w: nat, t: Trail)
      requires Valid() && w < shape.writeWidth && Attempted(w) && t == GroupTrail(m, false, h, i, w)
      requires GroupsTrail(m, false, t.calls, i, w + 1) == Follow(m, t.calls, GroupsPlan(i, w + 1))
      ensures GroupsTrail(m, false, h, i, w) == Follow(m, h, GroupsPlan(i, w))
    {
      GroupFollows(m, h, i, w);
      FollowBoth(m, h, GroupPlan(i, w), GroupsPlan(i, w + 1));
    }

    lemma RepeatFollows(m: Memory, h: seq<Call>, i: nat)
      requires Valid()
      ensures RepeatTrail(m, false, h, i) == Follow(m, h, RepeatPlan(i))
    {
      var t := GroupsTrail(m, false, h, i, 0);
      var last := if LfifoRuns() then [(i, Lfifo)] else [];
      GroupsFollow(m, h, i, 0);
      FollowBoth(m, h, GroupsPlan(i, 0), last);
      if LfifoRuns() {
        assert last[1..] == [];
      }
    }

    lemma {:induction false} RunFollows(m: Memory, h: seq<Call>, i: nat)
      requires Valid()
      ensures RunTrail(m, false, h, i) == Follow(m, h, RunPlan(i))
      decreases shape.repeats - i
    {
      if i < shape.repeats {
        var t := RepeatTrail(m, false, h, i);
        RepeatFollows(m, h, i);
        FollowBoth(m, h, RepeatPlan(i), RunPlan(i + 1));
        RunFollows(m, t.calls, i + 1);
      }
    }

    // Sweeping only adds calls behind a failure.

    lemma GroupSwept(m: Memory, h: seq<Call>, i: nat, w: nat)
      requires Valid()
      ensures Swept(GroupTrail(m, false, h, i, w), GroupTrail(m, true, h, i, w))
      ensures h <= GroupTrail(m, false, h, i, w).calls
    {
      var v := Follow(m, h, VfifoPlan(i, w));
      PlanSwept(m, h, VfifoPlan(i, w));
      PlanSwept(m, v.calls, WritesPlan(i, w));
      PlanSwept(m, Follow(m, v.calls, WritesPlan(i, w)).calls, EndPlan(i, w));
    }

    lemma {:induction false} GroupsGrow(m: Memory, h: seq<Call>, i: nat, w: nat)
      requires Valid()
      ensures h <= GroupsTrail(m, true, h, i, w).calls
      decreases shape.writeWidth - w
    {
      if w < shape.writeWidth {
        GroupSwept(m, h, i, w);
        GroupsGrow(m, if Attempted(w) then GroupTrail(m, true, h, i, w).calls else h, i, w + 1);
      }
    }

    lemma {:induction false} GroupsSwept(m: Memory, h: seq<Call>, i: nat, w: nat)
      requires Valid()
      ensures Swept(GroupsTrail(m, false, h, i, w), GroupsTrail(m, true, h, i, w))
      decreases shape.writeWidth - w
    {
      if w < shape.writeWidth {
        GroupSwept(m, h, i, w);
        var next := if Attempted(w) then GroupTrail(m, true, h, i, w).calls else h;
        GroupsSwept(m, next, i, w + 1);
        GroupsGrow(m, next, i, w + 1);
      }
    }

    lemma {:induction false} RunSwept(m: Memory, h: seq<Call>, i: nat)
      requires Valid()
      ensures Swept(RunTrail(m, false, h, i), RunTrail(m, true, h, i))
      decreases shape.repeats - i
    {
      if i < shape.repeats {
        GroupsSwept(m, h, i, 0);
        RunSwept(m, RepeatTrail(m, true, h, i).calls, i + 1);
      }
    }
  }

  class Run {
    const setup: Setup
    const memory: Memory
    const sweepAll: bool
    var errorGroup: nat
    var errorStage: nat
    var errorSubstage: nat
    var calls: seq<Call>               // what the memory has gone through

    /** The global error fields hold the first failure reported since the reset. */
    ghost predicate Valid()
      reads this
    {
      && setup.Valid() && Reporting(memory)
      && Failure(errorGroup, errorStage, errorSubstage) == FirstFailure(memory, calls)
    }

    constructor (setup: Setup, memory: Memory, sweepAll: bool)
      requires setup.Valid() && Reporting(memory)
      ensures this.setup == setup && this.memory == memory && this.sweepAll == sweepAll
    {
      this.setup, this.memory, this.sweepAll := setup, memory, sweepAll;
    }

    method SetFailingGroupStage(f: Failure)
      modifies this`errorGroup, this`errorStage, this`errorSubstage
      ensures Failure(errorGroup, errorStage, errorSubstage)
        == if old(errorStage) == CAL_STAGE_NIL then f else old(Failure(errorGroup, errorStage, errorSubstage))
    {
      if errorStage == CAL_STAGE_NIL {
        errorSubstage := f.substage;
        errorStage := f.stage;
        errorGroup := f.group;
      }
    }

    /** Runs one stage, which reports its failures as it goes. */
    method Call(i: nat, stage: Stage) returns (ok: bool)
      requires Valid()
      modifies this
      ensures Valid() && Trail(calls, ok) == Try(memory, old(calls), (i, stage))
    {
      ghost var before, reports := calls, Reports(memory, calls);
      var result := memory(calls, (i, stage));
      var failures := result.failures;
      for k := 0 to |failures|
        invariant calls == before
        invariant Failure(errorGroup, errorStage, errorSubstage) == First(reports + failures[..k])
      {
        assert failures[k] in failures;
        assert reports + failures[..k + 1] == (reports + failures[..k]) + [failures[k]];
        FirstHasStage(memory, before, failures[..k]);
        SetFailingGroupStage(failures[k]);
      }
      assert failures[..|failures|] == failures;
      calls := calls + [(i, stage)];
      ReportsAppend(memory, before, (i, stage));
      ok := result.ok;
    }

    /** The read stage of every read group of write group w, up to the first failure. */
    method CalibrateReads(i: nat, w: nat, after: bool) returns (failed: bool)
      requires Valid()
      modifies this
      ensures Valid()
      ensures Trail(calls, !failed) == Follow(memory, old(calls),
        setup.ReadPlan(i, after, ReadBegin(setup.shape, w), ReadBegin(setup.shape, w + 1)))
    {
      failed := false;
      var r: int, end: int := ReadBegin(setup.shape, w), ReadBegin(setup.shape, w + 1);
      ghost var all := Follow(memory, calls, setup.ReadPlan(i, after, r, end));
      while r < end && !failed
        invariant Valid() && r >= 0
        invariant if failed then all == Trail(calls, false)
          else Follow(memory, calls, setup.ReadPlan(i, after, r, end)) == all
        decreases !failed, end - r
      {
        setup.ReadPlanNext(i, after, r, end);
        var ok := Call(i, ReadStage(after, r));
        if ok {
          r := r + 1;
        } else {
          failed := true;
        }
      }
    }

    /** Write calibration of every shadow register set not skipped; one failure ends it unless all groups are swept. */
    method CalibrateWrites(i: nat, w: nat) returns (failed: bool)
      requires Valid()
      modifies this
      ensures Valid()
      ensures Trail(calls, !failed) ==
        if sweepAll then MakeAll(memory, old(calls), setup.SetsPlan(i, w, 0))
        else Follow(memory, old(calls), setup.SetsPlan(i, w, 0))
    {
      failed := false;
      ghost var all := MakeAll(memory, calls, setup.SetsPlan(i, w, 0));
      ghost var some := Follow(memory, calls, setup.SetsPlan(i, w, 0));
      for sr := 0 to setup.shape.shadowSets
        invariant Valid()
        invariant sweepAll ==> Joined(!failed, MakeAll(memory, calls, setup.SetsPlan(i, w, sr))) == all
        invariant !sweepAll ==> !failed && Follow(memory, calls, setup.SetsPlan(i, w, sr)) == some
      {
        setup.SetsPlanNext(i, w, sr);
        if !setup.skipShadow[sr] {
          var ok := Call(i, Writes(sr, w));
          if !ok {
            failed := true;
            if !sweepAll {
              return;
            }
          }
        }
      }
    }

    method VfifoPhase(i: nat, w: nat) returns (failed: bool)
      requires Valid()
      modifies this
      ensures Valid() && Trail(calls, !failed) == Follow(memory, old(calls), setup.VfifoPlan(i, w))
    {
      failed := false;
      if !setup.shape.skipVfifo {
        failed := CalibrateReads(i, w, false);
      }
    }

    method WritesPhase(i: nat, w: nat) returns (failed: bool)
      requires Valid()
      modifies this
      ensures Valid() && Trail(calls, !failed) == setup.WritesTrail(memory, sweepAll, old(calls), i, w)
    {
      failed := false;
      if !setup.shape.skipWrites && !setup.shape.skipDelaySweeps {
        failed := CalibrateWrites(i, w);
      }
    }

    method EndPhase(i: nat, w: nat) returns (failed: bool)
      requires Valid()
      modifies this
      ensures Valid() && Trail(calls, !failed) == Follow(memory, old(calls), setup.EndPlan(i, w))
    {
      failed := false;
      if !setup.shape.skipWrites {
        failed := CalibrateReads(i, w, true);
      }
    }

    /** All stages of write group w, up to the first one that fails. */
    method CalibrateGroup(i: nat, w: nat) returns (failed: bool)
      requires Valid()
      modifies this
      ensures Valid() && Trail(calls, !failed) == setup.GroupTrail(memory, sweepAll, old(calls), i, w)
    {
      failed := VfifoPhase(i, w);
      if !failed {
        failed := WritesPhase(i, w);
        if !failed {
          failed := EndPhase(i, w);
        }
      }
    }

    /** Whether write group w is to be calibrated, and run_groups for the ones behind it. */
    method TakeGroup(runGroups: seq<bool>, ghost w: nat) returns (currentRun: bool, rest: seq<bool>)
      requires setup.Valid() && runGroups == setup.RunGroups(w)
      ensures currentRun == setup.Attempted(w) && rest == setup.RunGroups(w + 1)
    {
      var shift := Min(PerWriteGroup(setup.shape), |runGroups|);
      setup.NextRunGroups(w);
      currentRun, rest := true in runGroups[..shift], runGroups[shift..];
    }

    /** All write groups not masked by skip_groups: until the first failure, or all of them when sweeping. */
    method CalibrateGroups(i: nat) returns (failed: bool)
      requires Valid()
      modifies this
      ensures Valid() && Trail(calls, !failed) == setup.GroupsTrail(memory, sweepAll, old(calls), i, 0)
    {
      var failingGroups := 0;
      var runGroups := setup.RunGroups(0);
      var w := 0;
      ghost var all := setup.GroupsTrail(memory, sweepAll, calls, i, 0);
      while w < setup.shape.writeWidth
        invariant Valid() && 0 <= w <= setup.shape.writeWidth && failingGroups >= 0
        invariant runGroups == setup.RunGroups(w)
        invariant Joined(failingGroups == 0, setup.GroupsTrail(memory, sweepAll, calls, i, w)) == all
      {
        var currentRun;
        currentRun, runGroups := TakeGroup(runGroups, w);
        if currentRun {
          var groupFailed := CalibrateGroup(i, w);
          if groupFailed {
            failingGroups := failingGroups + 1;
            if !sweepAll {
              return true;
            }
          }
        }
        w := w + 1;
      }
      failed := failingGroups != 0;
    }

    /** One repeat: all groups, then the read latency. */
    method CalibrateRepeat(i: nat) returns (ok: bool)
      requires Valid()
      modifies this
      ensures Valid() && Trail(calls, ok) == setup.RepeatTrail(memory, sweepAll, old(calls), i)
    {
      var failed := CalibrateGroups(i);
      ok := !failed;
      if !failed && !setup.shape.skipLfifo && true !in setup.skipGroups {
        ok := Call(i, Lfifo);
      }
    }

    /**
     * The whole run. Whatever the sweep-all flag, it succeeds exactly when all stages of its plan pass, each when
     * its turn comes, and then it has made those calls and no others; without sweeping a failed run ends with the
     * first call of the plan that fails. A failed run has a failure recorded.
     */
    method MemCalibrate(skipAll: bool) returns (ok: bool)
      requires setup.Valid() && Reporting(memory)
      modifies this
      ensures Valid()
      ensures skipAll ==> ok && calls == []
      ensures !skipAll ==> Trail(calls, ok) == setup.RunTrail(memory, sweepAll, [], 0)
      ensures !skipAll ==> (ok <==> Passes(memory, setup.RunPlan(0)))
      ensures !skipAll && ok ==> calls == setup.RunPlan(0)
      ensures !skipAll && !ok ==> FirstToFail(memory, setup.RunPlan(0)) <= calls
      ensures !skipAll && !ok && !sweepAll ==> calls == FirstToFail(memory, setup.RunPlan(0))
      ensures !ok ==> errorStage != CAL_STAGE_NIL
    {
      errorSubstage, errorStage, errorGroup := 0, CAL_STAGE_NIL, 0xff;
      calls := [];
      ok := true;
      if skipAll {
        return;
      }
      RunExact(setup, memory, sweepAll);
      for i := 0 to setup.shape.repeats
        invariant Valid()
        invariant setup.RunTrail(memory, sweepAll, calls, i) == setup.RunTrail(memory, sweepAll, [], 0)
      {
        ok := CalibrateRepeat(i);
        if !ok {
          return;
        }
      }
    }
  }

  /** All failures reported by a sequence of stage calls, in order. */
  ghost function Reports(memory: Memory, calls: seq<Call>): seq<Failure> {
    if calls == [] then []
    else
      var before := calls[..|calls| - 1];
      Reports(memory, before) + memory(before, calls[|calls| - 1]).failures
  }

  function First(failures: seq<Failure>): Failure {
    if failures == [] then Failure(0xff, CAL_STAGE_NIL, 0) else failures[0]
  }

  ghost function FirstFailure(memory: Memory, calls: seq<Call>): Failure {
    First(Reports(memory, calls))
  }

  lemma ReportsAppend(memory: Memory, calls: seq<Call>, call: Call)
    ensures Reports(memory, calls + [call]) == Reports(memory, calls) + memory(calls, call).failures
  {
    assert (calls + [call])[..|calls|] == calls;
  }

  /** The error stage is NIL only as long as nothing was reported. */
  lemma {:induction false} FirstHasStage(memory: Memory, calls: seq<Call>, more: seq<Failure>)
    requires Reporting(memory) && forall f | f in more :: f.stage != CAL_STAGE_NIL
    ensures First(Reports(memory, calls) + more).stage == CAL_STAGE_NIL <==> Reports(memory, calls) + more == []
    ensures forall f | f in Reports(memory, calls) :: f.stage != CAL_STAGE_NIL
  {
    if calls != [] {
      var before, call := calls[..|calls| - 1], calls[|calls| - 1];
      FirstHasStage(memory, before, []);
      assert forall f | f in memory(before, call).failures :: f.stage != CAL_STAGE_NIL;
    }
    var all := Reports(memory, calls) + more;
    assert all != [] ==> all[0] in all;
  }

  /** All calls of a plan pass, each when its turn comes. */
  ghost predicate Passes(m: Memory, plan: seq<Call>) { PassUpTo(m, [], plan, |plan|) }

  /** The calls of a plan up to the first that fails. */
  ghost function FirstToFail(m: Memory, plan: seq<Call>): seq<Call> { Follow(m, [], plan).calls }

  /** What that is. */
  lemma FirstToFailMeans(m: Memory, plan: seq<Call>) returns (k: nat)
    requires !Passes(m, plan)
    ensures k < |plan| && PassUpTo(m, [], plan, k) && !PassesAt(m, [], plan, k)
    ensures FirstToFail(m, plan) == plan[..k + 1]
  {
    k := FollowMeans(m, [], plan);
    if k < |plan| {
      assert [] + plan[..k + 1] == plan[..k + 1];
    }
  }

  lemma LastFails(m: Memory, plan: seq<Call>, k: nat)
    requires k < |plan| && !PassesAt(m, [], plan, k)
    ensures !m(plan[..k + 1][..k], plan[..k + 1][k]).ok && [] + plan[..k + 1] == plan[..k + 1]
  {
    assert [] + plan[..k] == plan[..k] == plan[..k + 1][..k];
  }

  lemma RunExact(u: Setup, m: Memory, sweepAll: bool)
    requires u.Valid() && Reporting(m)
    ensures var t, plan := u.RunTrail(m, sweepAll, [], 0), u.RunPlan(0);
      && (t.ok <==> Passes(m, plan)) && (t.ok ==> t.calls == plan)
      && (!t.ok ==> FirstToFail(m, plan) <= t.calls && FirstFailure(m, t.calls).stage != CAL_STAGE_NIL)
      && (!t.ok && !sweepAll ==> t.calls == FirstToFail(m, plan))
  {
    var plan := u.RunPlan(0);
    u.RunFollows(m, [], 0);
    u.RunSwept(m, [], 0);
    var k := FollowMeans(m, [], plan);
    assert [] + plan == plan;
    if k < |plan| {
      LastFails(m, plan, k);
      FailureReported(m, plan[..k + 1], u.RunTrail(m, sweepAll, [], 0).calls);
    }
  }

  lemma {:induction false} ReportsPrefix(m: Memory, p: seq<Call>, t: seq<Call>)
    requires p <= t
    ensures Reports(m, p) <= Reports(m, t)
  {
    if |p| < |t| {
      ReportsPrefix(m, p, t[..|t| - 1]);
    } else {
      assert p == t;
    }
  }

  /** Calls that go on behind a failure leave the first failure as it was. */
  lemma FailureReported(m: Memory, p: seq<Call>, t: seq<Call>)
    requires Reporting(m) && p <= t && p != [] && !m(p[..|p| - 1], p[|p| - 1]).ok
    ensures FirstFailure(m, t) == FirstFailure(m, p) && FirstFailure(m, p).stage != CAL_STAGE_NIL
  {
    ReportsPrefix(m, p, t);
    FirstHasStage(m, p, []);
    assert Reports(m, p) + [] == Reports(m, p);
  }

  /** The sweep-all flag changes neither the verdict nor the failure recorded; it only adds calls behind a failure. */
  lemma SweepKeepsFirstFailure(u: Setup, m: Memory)
    requires u.Valid() && Reporting(m)
    ensures var t, all := u.RunTrail(m, false, [], 0), u.RunTrail(m, true, [], 0);
      Swept(t, all) && FirstFailure(m, all.calls) == FirstFailure(m, t.calls)
  {
    var plan := u.RunPlan(0);
    u.RunFollows(m, [], 0);
    u.RunSwept(m, [], 0);
    var k := FollowMeans(m, [], plan);
    if k < |plan| {
      LastFails(m, plan, k);
      FailureReported(m, plan[..k + 1], u.RunTrail(m, true, [], 0).calls);
    }
  }

  /** A stage that reports a failure, retries and passes: the run succeeds with its error fields set. */
  lemma RetriedFailureStaysRecorded(u: Setup, f: Failure)
    requires u.Valid() && u.shape.repeats == 1 && u.shape.readWidth >= 1 && u.shape.writeWidth == 1
    requires !u.shape.skipVfifo && u.Attempted(0) && f.stage != CAL_STAGE_NIL
    ensures var m: Memory := (before: seq<Call>, call: Call) => Result(true, if call.1 == Vfifo(0) then [f] else []);
      Reporting(m) && Passes(m, u.RunPlan(0)) && FirstFailure(m, u.RunPlan(0)) == f
  {
    var m: Memory := (before: seq<Call>, call: Call) => Result(true, if call.1 == Vfifo(0) then [f] else []);
    var calls := u.RunPlan(0);
    assert ReadBegin(u.shape, 0) == 0 && ReadBegin(u.shape, 1) == u.shape.readWidth;
    assert u.VfifoPlan(0, 0)[0] == (0, Vfifo(0));
    assert calls[0] == (0, Vfifo(0)) && calls[..1] == [(0, Vfifo(0))];
    ReportsPrefix(m, calls[..1], calls);
    assert Reports(m, calls[..1][..0]) == [];
    assert Reports(m, calls[..1]) == [f];
  }
}
