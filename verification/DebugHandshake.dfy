/**
 * The debug command handshake: the calibration firmware's command loop and an external host share
 * a command word, a status word and four parameter words. Each single load and store of either party
 * is one step, and the steps interleave freely.
 */
module DebugHandshake {

  const CMD_NOP: nat := 0
  const CMD_RESPONSE_ACK: nat := 1
  const CMD_RUN_MEM_CALIBRATE: nat := 5
  const CMD_RUN_EYE_DIAGRAM_PATTERN: nat := 6
  const CMD_MARK_ALL_DQS_GROUPS_AS_VALID: nat := 14
  const CMD_MARK_GROUP_AS_SKIP: nat := 15
  const CMD_MARK_ALL_RANKS_AS_VALID: nat := 17
  const CMD_MARK_RANK_AS_SKIP: nat := 18
  const CMD_ENABLE_MARGIN_REPORT: nat := 21
  const CMD_ENABLE_SWEEP_ALL_GROUPS: nat := 22
  const CMD_DISABLE_GUARANTEED_READ: nat := 23
  const CMD_SET_NON_DESTRUCTIVE_CALIBRATION: nat := 24
  const CMD_SET_UPDATE_PARAMETERS: nat := 41
  const CMD_RUN_NON_DES_MEM_CALIBRATE: nat := 42
  const CMD_WAIT_CMD: nat := 1000

  const COMMAND_PARAM_WORDS: nat := 4

  datatype Status = CmdReady | CmdExe | IllegalCmd | ResponseReady

  datatype Flag = MarginReport | SweepAllGroups | DisableGuaranteedRead | NonDestructive

  /** The calibration parameters the commands change. */
  datatype Config = Config(groups: nat, ranks: nat, skipGroups: set<nat>, skipRanks: set<nat>, flags: set<Flag>)

  /** A command with the parameter words it is posted or executed with. */
  datatype Request = Request(command: nat, args: seq<nat>)

  /** The effect of one command on the parameters, and the status it answers with. */
  function Apply(c: Config, r: Request): (Config, Status)
    requires |r.args| == COMMAND_PARAM_WORDS
  {
    if r.command == CMD_NOP || r.command == CMD_RUN_MEM_CALIBRATE || r.command == CMD_RUN_NON_DES_MEM_CALIBRATE
      || r.command == CMD_RUN_EYE_DIAGRAM_PATTERN || r.command == CMD_SET_UPDATE_PARAMETERS then
      (c, ResponseReady)
    else if r.command == CMD_MARK_ALL_DQS_GROUPS_AS_VALID then (c.(skipGroups := {}), ResponseReady)
    else if r.command == CMD_MARK_GROUP_AS_SKIP then
      if r.args[0] < c.groups then (c.(skipGroups := c.skipGroups + {r.args[0]}), ResponseReady) else (c, IllegalCmd)
    else if r.command == CMD_MARK_ALL_RANKS_AS_VALID then (c.(skipRanks := {}), ResponseReady)
    else if r.command == CMD_MARK_RANK_AS_SKIP then
      if r.args[0] < c.ranks then (c.(skipRanks := c.skipRanks + {r.args[0]}), ResponseReady) else (c, IllegalCmd)
    else if r.command == CMD_ENABLE_MARGIN_REPORT then (c.(flags := c.flags + {MarginReport}), ResponseReady)
    else if r.command == CMD_ENABLE_SWEEP_ALL_GROUPS then (c.(flags := c.flags + {SweepAllGroups}), ResponseReady)
    else if r.command == CMD_DISABLE_GUARANTEED_READ then
      (c.(flags := c.flags + {DisableGuaranteedRead}), ResponseReady)
    else if r.command == CMD_SET_NON_DESTRUCTIVE_CALIBRATION then
      (c.(flags := if r.args[0] != 0 then c.flags + {NonDestructive} else c.flags - {NonDestructive}), ResponseReady)
    else (c, IllegalCmd)
  }

  predicate WellFormed(rs: seq<Request>) {
    forall r | r in rs :: |r.args| == COMMAND_PARAM_WORDS
  }

  /** The parameters after a sequence of commands executed one at a time, each to completion. */
  function ApplyAll(c: Config, rs: seq<Request>): Config
    requires WellFormed(rs)
  {
    if rs == [] then c
    else
      assert rs[|rs| - 1] in rs;
      Apply(ApplyAll(c, rs[..|rs| - 1]), rs[|rs| - 1]).0
  }

  /** Where the command loop is; each value is just before one load or store. */
  datatype DevicePc =
    | StoreWait                                  // marking the interface ready: first the command word
    | StoreReady                                 // ... then the status word
    | LoadStatusResponse                         // loop top: is a response waiting?
    | LoadStatusIllegal
    | LoadAck                                    // response waiting: has it been acknowledged?
    | LoadStatusReady                            // no response waiting: are commands accepted?
    | LoadCommand
    | LoadParams(command: nat, loaded: seq<nat>) // executing: reading the parameter words one at a time
    | StoreResponse(status: Status, last: bool)  // executed: answering; last when the loop will exit
    | Exited

  datatype HostPc =
    | AwaitReady
    | Filling                                    // commands are accepted: storing parameters, then the command
    | AwaitResponse
    | Answered

  datatype State = State(
    command: nat, status: Status, params: seq<nat>,
    device: DevicePc, config: Config,
    host: HostPc,
    posted: seq<Request>, executed: seq<Request>, answers: seq<Status>)

  datatype Event = DeviceStep | HostLoad | HostFill(word: nat, value: nat) | HostPost(newCommand: nat) | HostAck

  /** A host may post anything but the two words that carry the handshake itself. */
  predicate Postable(command: nat) {
    command != CMD_WAIT_CMD && command != CMD_RESPONSE_ACK
  }

  function MarkReady(waitFirst: bool): DevicePc { if waitFirst then StoreWait else StoreReady }

  /** Carries out a command whose parameters have been read. */
  function Execute(s: State, r: Request): State
    requires |r.args| == COMMAND_PARAM_WORDS
  {
    var (config, status) := Apply(s.config, r);
    s.(config := config, executed := s.executed + [r],
       device := StoreResponse(status, r.command == CMD_SET_UPDATE_PARAMETERS))
  }

  /** The loop's own two words and program point. */
  datatype Loop = Loop(command: nat, status: Status, device: DevicePc)

  function TheLoop(s: State): Loop { Loop(s.command, s.status, s.device) }

  /** One load or store of the command loop outside command execution. */
  function Poll(l: Loop, waitFirst: bool): Loop {
    match l.device
    case StoreWait => l.(command := CMD_WAIT_CMD, device := if waitFirst then StoreReady else LoadStatusResponse)
    case StoreReady => l.(status := CmdReady, device := if waitFirst then LoadStatusResponse else StoreWait)
    case LoadStatusResponse => l.(device := if l.status == ResponseReady then LoadAck else LoadStatusIllegal)
    case LoadStatusIllegal => l.(device := if l.status == IllegalCmd then LoadAck else LoadStatusReady)
    case LoadAck => l.(device := if l.command == CMD_RESPONSE_ACK then MarkReady(waitFirst) else LoadStatusResponse)
    case LoadStatusReady => l.(device := if l.status == CmdReady then LoadCommand else LoadStatusResponse)
    case LoadCommand =>
      l.(device := if l.command == CMD_WAIT_CMD then LoadStatusResponse else LoadParams(l.command, []))
    case LoadParams(_, _) => l
    case StoreResponse(status, last) => l.(status := status, device := if last then Exited else LoadStatusResponse)
    case Exited => l
  }

  /** One load or store of the command loop. waitFirst is the order in which the interface is marked ready. */
  function Device(s: State, waitFirst: bool): State {
    if !s.device.LoadParams? then
      var l := Poll(TheLoop(s), waitFirst);
      s.(command := l.command, status := l.status, device := l.device)
    else if |s.device.loaded| < |s.params| then
      s.(device := LoadParams(s.device.command, s.device.loaded + [s.params[|s.device.loaded|]]))
    else if |s.device.loaded| != COMMAND_PARAM_WORDS then s
    else Execute(s, Request(s.device.command, s.device.loaded))
  }

  /** One load or store of the host; an event that is not the host's turn changes nothing. */
  function Host(s: State, e: Event): State {
    match (s.host, e)
    case (AwaitReady, HostLoad) => if s.status == CmdReady then s.(host := Filling) else s
    case (Filling, HostFill(word, value)) => if word < |s.params| then s.(params := s.params[word := value]) else s
    case (Filling, HostPost(command)) =>
      if Postable(command) then
        s.(command := command, posted := s.posted + [Request(command, s.params)], host := AwaitResponse)
      else s
    case (AwaitResponse, HostLoad) =>
      if s.status == ResponseReady || s.status == IllegalCmd then
        s.(answers := s.answers + [s.status], host := Answered)
      else s
    case (Answered, HostAck) => s.(command := CMD_RESPONSE_ACK, host := AwaitReady)
    case (_, _) => s
  }

  function Step(s: State, e: Event, waitFirst: bool): State {
    if e == DeviceStep then Device(s, waitFirst) else Host(s, e)
  }

  function Run(s: State, es: seq<Event>, waitFirst: bool): State {
    if es == [] then s else Step(Run(s, es[..|es| - 1], waitFirst), es[|es| - 1], waitFirst)
  }

  /** What initialisation leaves behind as the command loop is entered. */
  function Initial(config: Config, waitFirst: bool): State {
    State(CMD_NOP, CmdExe, [0, 0, 0, 0], MarkReady(waitFirst), config, AwaitReady, [], [], [])
  }

  /** The statuses a sequence of commands answers with. */
  function Statuses(c: Config, rs: seq<Request>): (a: seq<Status>)
    requires WellFormed(rs)
    ensures |a| == |rs|
  {
    if rs == [] then []
    else
      assert rs[|rs| - 1] in rs;
      Statuses(c, rs[..|rs| - 1]) + [Apply(ApplyAll(c, rs[..|rs| - 1]), rs[|rs| - 1]).1]
  }

  /** The command loop is somewhere between marking the interface ready and accepting a command. */
  predicate Idle(pc: DevicePc) {
    pc == LoadStatusResponse || pc == LoadStatusIllegal || pc == LoadStatusReady || pc == LoadCommand
  }

  predicate Response(status: Status) { status == ResponseReady || status == IllegalCmd }

  /** The host waits for the interface: the loop answers the last command, or is marking the interface ready. */
  predicate AwaitReadyFits(l: Loop) {
    || (l.status == CmdExe && (l.device == StoreWait || (l.command == CMD_WAIT_CMD && l.device == StoreReady)))
    || (Response(l.status) && l.command == CMD_RESPONSE_ACK && (l.device == StoreWait || Answering(l)))
    || (Response(l.status) && l.command == CMD_WAIT_CMD && l.device == StoreReady)
    || (l.status == CmdReady && l.command == CMD_WAIT_CMD && Idle(l.device))
  }

  /** A response is out and the loop waits for its acknowledgement. */
  predicate Answering(l: Loop) {
    || l.device == LoadStatusResponse || l.device == LoadAck || l.device == Exited
    || (l.device == LoadStatusIllegal && l.status == IllegalCmd)
  }

  /** The posted command is untouched and its execution has not finished. */
  predicate PendingFits(s: State, r: Request) {
    && s.status == CmdReady && s.params == r.args
    && (Idle(s.device) || (s.device.LoadParams? && s.device.command == s.command && s.device.loaded <= s.params))
  }

  /** The command has been executed and its answer is being stored or is out. */
  predicate ExecutedFits(l: Loop, answer: Status) {
    && Response(answer)
    && (|| (l.status == CmdReady && l.device.StoreResponse? && l.device.status == answer)
        || (l.status == answer && Answering(l)))
  }

  /** What all commands posted so far answer, the last one included or not. */
  ghost predicate LogsFit(s: State, initial: Config) {
    && WellFormed(s.posted) && WellFormed(s.executed)
    && s.config == ApplyAll(initial, s.executed)
    && (forall r | r in s.posted :: Postable(r.command))
    && if s.host == AwaitResponse then
         |s.posted| > 0 && s.answers == Statuses(initial, s.posted)[..|s.posted| - 1]
       else
         s.executed == s.posted && s.answers == Statuses(initial, s.posted)
  }

  /** Both parties' program points, the shared words and the logs fit together. */
  ghost predicate Consistent(s: State, initial: Config) {
    && |s.params| == COMMAND_PARAM_WORDS
    && LogsFit(s, initial)
    && match s.host
       case AwaitReady => AwaitReadyFits(TheLoop(s))
       case Filling => s.status == CmdReady && s.command == CMD_WAIT_CMD && Idle(s.device)
       case AwaitResponse =>
         var n := |s.posted| - 1;
         && s.command == s.posted[n].command
         && (|| (s.executed == s.posted[..n] && PendingFits(s, s.posted[n]))
             || (s.executed == s.posted && ExecutedFits(TheLoop(s), Statuses(initial, s.posted)[n])))
       case Answered =>
         && |s.posted| > 0 && s.command == s.posted[|s.posted| - 1].command
         && Response(s.status) && Answering(TheLoop(s))
  }

  /** Executing the pending command yields the state one sequential execution would. */
  lemma ExecuteKeepsConsistent(s: State, initial: Config)
    requires Consistent(s, initial) && s.host == AwaitResponse && s.executed == s.posted[..|s.posted| - 1]
    requires s.status == CmdReady
    ensures Consistent(Execute(s, s.posted[|s.posted| - 1]), initial)
  {
    var r := s.posted[|s.posted| - 1];
    assert s.executed + [r] == s.posted;
    assert Response(Apply(s.config, r).1);
  }

  /** The loop, marking the interface ready in the right order, keeps in step with a waiting host. */
  lemma PollKeepsStep(l: Loop, answer: Status)
    ensures AwaitReadyFits(l) ==> AwaitReadyFits(Poll(l, true))
    ensures l.status == CmdReady && l.command == CMD_WAIT_CMD && Idle(l.device) ==>
      Poll(l, true) == l.(device := Poll(l, true).device) && Idle(Poll(l, true).device)
    ensures l.status == CmdReady && Postable(l.command) && Idle(l.device) ==>
      && Poll(l, true) == l.(device := Poll(l, true).device)
      && (Idle(Poll(l, true).device) || Poll(l, true).device == LoadParams(l.command, []))
    ensures Postable(l.command) && ExecutedFits(l, answer) ==>
      Poll(l, true).command == l.command && ExecutedFits(Poll(l, true), answer)
    ensures Postable(l.command) && Response(l.status) && Answering(l) ==>
      Poll(l, true) == l.(device := Poll(l, true).device) && Answering(Poll(l, true))
  {
  }

  lemma PollKeepsConsistent(s: State, initial: Config)
    requires Consistent(s, initial) && !s.device.LoadParams?
    ensures Consistent(Device(s, true), initial)
  {
    var t := Device(s, true);
    assert LogsFit(t, initial);
    match s.host
    case AwaitReady => PollKeepsStep(TheLoop(s), s.status);
    case Filling => PollKeepsStep(TheLoop(s), s.status);
    case AwaitResponse =>
      assert s.posted[|s.posted| - 1] in s.posted;
      PollKeepsStep(TheLoop(s), Statuses(initial, s.posted)[|s.posted| - 1]);
    case Answered =>
      assert s.posted[|s.posted| - 1] in s.posted;
      PollKeepsStep(TheLoop(s), s.status);
  }

  /** While the loop reads parameters, they are those of the pending command. */
  lemma LoadingIsPending(s: State, initial: Config)
    requires Consistent(s, initial) && s.device.LoadParams?
    ensures s.host == AwaitResponse && s.status == CmdReady && s.executed == s.posted[..|s.posted| - 1]
    ensures PendingFits(s, s.posted[|s.posted| - 1])
    ensures s.device.command == s.command == s.posted[|s.posted| - 1].command
    ensures |s.device.loaded| <= |s.params| == COMMAND_PARAM_WORDS
  {
  }

  lemma LongerPrefix<T>(a: seq<T>, b: seq<T>)
    requires a <= b && |a| < |b|
    ensures a + [b[|a|]] <= b
  {
  }

  lemma PendingStill(s: State, r: Request, loaded: seq<nat>)
    requires PendingFits(s, r) && loaded <= s.params
    ensures PendingFits(s.(device := LoadParams(s.command, loaded)), r)
  {
  }

  lemma SameLogs(s: State, initial: Config, device: DevicePc)
    requires LogsFit(s, initial)
    ensures LogsFit(s.(device := device), initial)
  {
  }

  lemma LoadParamKeepsConsistent(s: State, initial: Config)
    requires Consistent(s, initial) && s.device.LoadParams? && |s.device.loaded| < |s.params|
    ensures Consistent(Device(s, true), initial)
  {
    LoadingIsPending(s, initial);
    var loaded := s.device.loaded + [s.params[|s.device.loaded|]];
    LongerPrefix(s.device.loaded, s.params);
    PendingStill(s, s.posted[|s.posted| - 1], loaded);
    SameLogs(s, initial, LoadParams(s.command, loaded));
    assert Device(s, true) == s.(device := LoadParams(s.command, loaded));
  }

  lemma LastParamLoaded(s: State, initial: Config)
    requires Consistent(s, initial) && s.device.LoadParams? && |s.device.loaded| == |s.params|
    ensures s.host == AwaitResponse && s.status == CmdReady && s.executed == s.posted[..|s.posted| - 1]
    ensures Device(s, true) == Execute(s, s.posted[|s.posted| - 1])
  {
    LoadingIsPending(s, initial);
    assert s.device.loaded == s.params;
  }

  lemma DeviceKeepsConsistent(s: State, initial: Config)
    requires Consistent(s, initial)
    ensures Consistent(Device(s, true), initial)
  {
    if !s.device.LoadParams? {
      PollKeepsConsistent(s, initial);
    } else if |s.device.loaded| < |s.params| {
      LoadParamKeepsConsistent(s, initial);
    } else {
      LoadingIsPending(s, initial);
      LastParamLoaded(s, initial);
      ExecuteKeepsConsistent(s, initial);
    }
  }

  lemma HostKeepsConsistent(s: State, e: Event, initial: Config)
    requires Consistent(s, initial)
    ensures Consistent(Host(s, e), initial)
  {
    if s.host == AwaitResponse {
      var a := Statuses(initial, s.posted);
      assert a == a[..|s.posted| - 1] + [a[|s.posted| - 1]];
    }
  }

  lemma {:induction false} RunConsistent(config: Config, es: seq<Event>)
    ensures Consistent(Run(Initial(config, true), es, true), config)
  {
    if es != [] {
      var s := Run(Initial(config, true), es[..|es| - 1], true);
      RunConsistent(config, es[..|es| - 1]);
      DeviceKeepsConsistent(s, config);
      HostKeepsConsistent(s, es[|es| - 1], config);
    }
  }

  /**
   * Every interleaving: commands are executed in the order they were posted, each exactly once and with
   * the parameters it was posted with; only the last may still be outstanding, and then its words are
   * untouched; the calibration parameters and the answers seen are those of sequential execution.
   */
  lemma ExactlyOnce(config: Config, es: seq<Event>)
    ensures var s := Run(Initial(config, true), es, true);
      && WellFormed(s.posted) && WellFormed(s.executed)
      && s.config == ApplyAll(config, s.executed)
      && (s.host != AwaitResponse ==> s.executed == s.posted && s.answers == Statuses(config, s.posted))
      && (s.host == AwaitResponse ==> |s.posted| > 0 && s.answers == Statuses(config, s.posted)[..|s.posted| - 1])
      && (s.executed != s.posted ==>
            && s.host == AwaitResponse
            && s.executed == s.posted[..|s.posted| - 1]
            && Request(s.command, s.params) == s.posted[|s.posted| - 1])
  {
    RunConsistent(config, es);
  }

  /** The host waits for the loop to act. */
  predicate HostWaits(s: State) {
    || (s.host == AwaitReady && s.status != CmdReady)
    || (s.host == AwaitResponse && !Response(s.status))
  }

  /** How many steps of its own the loop is away from serving a waiting host. */
  function LoopDistance(pc: DevicePc): nat {
    match pc
    case LoadStatusResponse => 10
    case LoadStatusIllegal => 9
    case LoadStatusReady => 8
    case LoadCommand => 7
    case LoadParams(_, loaded) => if |loaded| <= COMMAND_PARAM_WORDS then 6 - |loaded| else 2
    case LoadAck => 3
    case StoreWait => 2
    case StoreReady => 1
    case StoreResponse(_, _) => 1
    case Exited => 0
  }

  lemma HostPollsInVain(s: State, e: Event)
    requires HostWaits(s) && e != DeviceStep
    ensures Step(s, e, true) == s
  {
  }

  lemma PollApproaches(l: Loop)
    requires l.device != Exited && !l.device.LoadParams?
    ensures AwaitReadyFits(l) && l.status != CmdReady ==>
      Poll(l, true).status == CmdReady || LoopDistance(Poll(l, true).device) < LoopDistance(l.device)
    ensures (
      && l.status == CmdReady && Postable(l.command)
      && (Idle(l.device) || (l.device.StoreResponse? && Response(l.device.status)))) ==>
      Response(Poll(l, true).status) || LoopDistance(Poll(l, true).device) < LoopDistance(l.device)
  {
  }

  /** No deadlock: while the host waits its polling changes nothing and every step of the loop brings it closer. */
  lemma LoopServesHost(s: State, e: Event, initial: Config)
    requires Consistent(s, initial) && HostWaits(s) && s.device != Exited
    ensures e != DeviceStep ==> Step(s, e, true) == s
    ensures HostWaits(Device(s, true)) ==>
      LoopDistance(Device(s, true).device) < LoopDistance(s.device) && Device(s, true).device != Exited
  {
    if e != DeviceStep {
      HostPollsInVain(s, e);
    }
    if s.device.LoadParams? {
      LoadingIsPending(s, initial);
    } else {
      WaitingLoop(s, initial);
      PollApproaches(TheLoop(s));
    }
  }

  /** Where the loop can be while the host waits, if it is not reading parameters. */
  lemma WaitingLoop(s: State, initial: Config)
    requires Consistent(s, initial) && HostWaits(s) && !s.device.LoadParams?
    ensures s.host == AwaitReady ==> AwaitReadyFits(TheLoop(s)) && s.status != CmdReady
    ensures s.host == AwaitResponse ==>
      && s.status == CmdReady && Postable(s.command)
      && (Idle(s.device) || (s.device.StoreResponse? && Response(s.device.status)))
  {
    if s.host == AwaitResponse {
      assert s.posted[|s.posted| - 1] in s.posted;
    }
  }

  function DeviceSteps(es: seq<Event>): nat {
    if es == [] then 0 else (if es[0] == DeviceStep then 1 else 0) + DeviceSteps(es[1..])
  }

  /** What the host was waiting for has come, and nothing else has changed for it. */
  ghost predicate Served(host: HostPc, posted: seq<Request>, answers: seq<Status>, t: State, initial: Config) {
    && t.host == host && t.posted == posted && t.answers == answers && !HostWaits(t) && LogsFit(t, initial)
    && (t.host == AwaitResponse ==>
      t.executed == t.posted && t.status == Statuses(initial, t.posted)[|t.posted| - 1])
  }

  lemma ResponseIsLast(t: State, initial: Config)
    requires Consistent(t, initial) && t.host == AwaitResponse && Response(t.status)
    ensures t.executed == t.posted && t.status == Statuses(initial, t.posted)[|t.posted| - 1]
  {
  }

  lemma WaitGoesOn(s: State, initial: Config)
    requires Consistent(s, initial) && HostWaits(s)
    ensures var t := Device(s, true); t.host == s.host && t.posted == s.posted && t.answers == s.answers
  {
    if s.device.LoadParams? {
      LoadingIsPending(s, initial);
    }
  }

  /** One step of a wait. */
  lemma WaitStep(s: State, e: Event, initial: Config) returns (t: State)
    requires Consistent(s, initial) && HostWaits(s) && s.device != Exited
    ensures t == Step(s, e, true) && Consistent(t, initial)
    ensures HostWaits(t) ==>
      && t.device != Exited && t.host == s.host && t.posted == s.posted && t.answers == s.answers
      && LoopDistance(t.device) + (if e == DeviceStep then 1 else 0) <= LoopDistance(s.device)
    ensures !HostWaits(t) ==> Served(s.host, s.posted, s.answers, t, initial)
  {
    t := Step(s, e, true);
    LoopServesHost(s, e, initial);
    if e == DeviceStep {
      DeviceKeepsConsistent(s, initial);
      WaitGoesOn(s, initial);
      if t.host == AwaitResponse && Response(t.status) {
        ResponseIsLast(t, initial);
      }
    }
  }

  /** The state after a run. */
  function Reached(config: Config, es: seq<Event>): State { Run(Initial(config, true), es, true) }

  lemma WaitAt(config: Config, es: seq<Event>, e: Event) returns (s: State, t: State)
    requires HostWaits(Reached(config, es)) && Reached(config, es).device != Exited
    ensures s == Reached(config, es) && t == Reached(config, es + [e])
    ensures HostWaits(t) ==>
      && t.device != Exited && t.host == s.host && t.posted == s.posted && t.answers == s.answers
      && LoopDistance(t.device) + (if e == DeviceStep then 1 else 0) <= LoopDistance(s.device)
    ensures !HostWaits(t) ==> Served(s.host, s.posted, s.answers, t, config)
  {
    s := Reached(config, es);
    RunConsistent(config, es);
    t := WaitStep(s, e, config);
    assert (es + [e])[..|es|] == es;
  }

  /**
   * No command is left unexecuted: from any reachable state in which the host waits and the loop has not
   * exited, every continuation in which the loop takes enough steps, whatever comes in between, has a point
   * where the wait is over; a posted command then has been executed and its answer is out.
   */
  lemma {:induction false} EveryWaitEnds(config: Config, es: seq<Event>, more: seq<Event>) returns (k: nat)
    requires var s := Reached(config, es);
      HostWaits(s) && s.device != Exited && DeviceSteps(more) >= LoopDistance(s.device)
    ensures k <= |more|
    ensures var s := Reached(config, es);
      Served(s.host, s.posted, s.answers, Reached(config, es + more[..k]), config)
    decreases |more|
  {
    var s, t := WaitAt(config, es, more[0]);
    if HostWaits(t) {
      k := EveryWaitEnds(config, es + [more[0]], more[1..]);
      OneFurther(es, more, k);
      k := k + 1;
    } else {
      assert more[..1] == [more[0]];
      k := 1;
    }
  }

  lemma OneFurther(es: seq<Event>, more: seq<Event>, k: nat)
    requires k < |more|
    ensures es + [more[0]] + more[1..][..k] == es + more[..k + 1]
  {
  }

  /** The command loop idles although the host has posted a command: the command word was overwritten. */
  predicate CommandLost(s: State) {
    && s.host == AwaitResponse && |s.posted| > 0 && s.executed == []
    && s.status == CmdReady && s.command == CMD_WAIT_CMD && Idle(s.device)
  }

  /** The order of the two stores matters: status word first, a command posted in between is overwritten... */
  lemma StatusFirstLosesCommand(config: Config, command: nat)
    requires Postable(command)
    ensures CommandLost(Run(Initial(config, false), [DeviceStep, HostLoad, HostPost(command), DeviceStep], false))
  {
    var s0 := Initial(config, false);
    var es := [DeviceStep, HostLoad, HostPost(command), DeviceStep];
    var s1 := Device(s0, false);
    var s2 := Host(s1, HostLoad);
    var s3 := Host(s2, HostPost(command));
    RunNext(s0, es, 0);
    RunNext(s0, es, 1);
    RunNext(s0, es, 2);
    assert es[..4] == es;
    RunNext(s0, es, 3);
    assert s3.host == AwaitResponse && s3.device == StoreWait;
  }

  lemma RunNext(s: State, es: seq<Event>, k: nat)
    requires k < |es|
    ensures Run(s, es[..k + 1], false) == Step(Run(s, es[..k], false), es[k], false)
  {
    assert es[..k + 1][..k] == es[..k];
  }

  /** ... and is never executed, however the run goes on. */
  lemma {:induction false} LostForGood(s: State, es: seq<Event>)
    requires CommandLost(s)
    ensures CommandLost(Run(s, es, false))
  {
    if es != [] {
      LostForGood(s, es[..|es| - 1]);
    }
  }
}
