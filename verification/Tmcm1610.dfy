/** The driver state machine of the TMCM1610 module (tmcm1610.cpp): what it does with each event,
    as functions on values. `Tmcm1610Module` is the module itself, proved against them. */
module Tmcm1610 {
  import opened Units

  /** COMMAND_MODE of the source. */
  datatype Mode = STOP | EFFORT | VELOCITY | POSITION | INITIALIZE | SET_REFERENCE | NO_MORE_ACTION

  /** The fields of the output process data the module sets. */
  datatype RxPdo = RxPdo(mode: Mode, setpoint: int)

  datatype TxPdo = TxPdo(position: int, current: int, velocity: int, flags: bv32)

  const POSITION_REACHED: bv32 := 0x4000
  const INITIALIZED: bv32 := 0x8000
  const ETHERCAT_TIMEOUT: bv32 := 0x10000

  /** A mailbox reply; `value` is its last four bytes in the order received. */
  datatype Reply = Reply(moduleAddress: nat, status: nat, command: nat, value: (nat, nat, nat, nat))

  /** A mailbox request: TMCL command, parameter, and whether and how to read the reply. */
  datatype MbxSend = MbxSend(command: nat, parameter: nat, response: bool, raw: bool)

  const SUCCESS := 100
  const SAP := 5
  const GAP := 6
  const FIRMWARE_VERSION := 136

  const GET_FIRMWARE := MbxSend(FIRMWARE_VERSION, 1, true, true)
  const GET_TICKS := MbxSend(GAP, 250, true, true)
  const CLEAR_TIMEOUT := MbxSend(SAP, 158, false, false)
  const ZERO_POSITION := MbxSend(SAP, 1, false, false)

  /** A floating-point command: a finite value, or infinity or not-a-number. */
  datatype Value = NotFinite | Finite(r: real)

  datatype Commands = Commands(position: Value, velocity: Value, effort: Value)

  /** What `configure` stores. */
  datatype Config = Config(
    torqueConstant: real,
    homingCurrentLimit: real,
    homingVelocity: int,
    homingBackoff: real,
    haltEps: int,
    zeroEps: int)

  predicate Homing(cfg: Config) {
    cfg.homingCurrentLimit != 0.0 && cfg.homingVelocity != 0
  }

  /** The active leaf. In the first three the orthogonal `OnStop` is active beside it; the four
      `Motion` leaves are the children of `MotionC`. */
  datatype Leaf =
    | ReadFW | ReadEncoderTicks | ResetTimeout
    | Initialize | HomeAxis | HaltAxis | BackoffAxis | ZeroAxisPosition
    | MotionStop | MotionEffort | MotionVelocity | MotionPosition
    | OffStop

  predicate InMotion(leaf: Leaf) {
    leaf.MotionStop? || leaf.MotionEffort? || leaf.MotionVelocity? || leaf.MotionPosition?
  }

  predicate Configuring(leaf: Leaf) {
    leaf.ReadFW? || leaf.ReadEncoderTicks? || leaf.ResetTimeout?
  }

  /** A plan task: when `origin` succeeds, change to `destination`. */
  datatype Task = Task(origin: Leaf, destination: Leaf)

  /** The machine and the context fields it alone changes; `sent` is every message enqueued. */
  datatype Fsm = Fsm(
    leaf: Leaf,
    plan: seq<Task>,
    firmwareMajor: nat,
    firmwareMinor: nat,
    moduleType: nat,
    encoderTicks: nat,
    sent: seq<MbxSend>)

  function ConfigurePlan(): seq<Task> {
    [Task(ReadFW, ReadEncoderTicks), Task(ReadEncoderTicks, ResetTimeout)]
  }

  /** The tasks `MotionInit` plans on entry; `MotionC` is entered through its first child. */
  function MotionPlan(cfg: Config): seq<Task> {
    if Homing(cfg) then
      [Task(Initialize, HaltAxis),
       Task(HaltAxis, HomeAxis),
       Task(HomeAxis, HaltAxis),
       Task(HaltAxis, ZeroAxisPosition),
       Task(ZeroAxisPosition, BackoffAxis),
       Task(BackoffAxis, HaltAxis),
       Task(HaltAxis, ZeroAxisPosition),
       Task(ZeroAxisPosition, MotionStop)]
    else
      [Task(Initialize, MotionStop)]
  }

  /** The message a leaf enqueues when it is entered. */
  function EntryMessage(leaf: Leaf): seq<MbxSend> {
    match leaf
    case ReadFW => [GET_FIRMWARE]
    case ReadEncoderTicks => [GET_TICKS]
    case ResetTimeout => [CLEAR_TIMEOUT]
    case ZeroAxisPosition => [ZERO_POSITION]
    case _ => []
  }

  function Enter(f: Fsm, leaf: Leaf): Fsm {
    f.(leaf := leaf, sent := f.sent + EntryMessage(leaf))
  }

  /** The machine as `configure` creates it. */
  function Created(): Fsm {
    Enter(Fsm(ReadFW, ConfigurePlan(), 0, 0, 0, 0, []), ReadFW)
  }

  /** The active leaf succeeds: the next task of its region's plan runs if it starts here; with
      no task left the region's plan has succeeded. */
  function Succeed(f: Fsm, cfg: Config): Fsm {
    if f.plan != [] then
      if f.plan[0].origin == f.leaf then Enter(f.(plan := f.plan[1..]), f.plan[0].destination) else f
    else if Configuring(f.leaf) then Enter(f.(plan := MotionPlan(cfg)), Initialize)
    else Enter(f, OffStop)
  }

  /** The active leaf fails, and with it its region's plan. */
  function Fail(f: Fsm): Fsm {
    Enter(f.(plan := []), OffStop)
  }

  /** The big-endian number in a reply. */
  function Number(m: Reply): nat {
    var (b0, b1, b2, b3) := m.value;
    ((b0 * 0x100 + b1) * 0x100 + b2) * 0x100 + b3
  }

  function ModuleType(m: Reply): nat {
    m.value.0 * 0x100 + m.value.1
  }

  predicate GoodReply(m: Reply, command: nat) {
    m.status == SUCCESS && m.moduleAddress == 0 && m.command == command
  }

  /** `is_oriented_magnitude_gte` */
  predicate OrientedGte(setpoint: real, value: int) {
    0.0 <= (value as real - setpoint) * (if setpoint < 0.0 then -1.0 else 1.0)
  }

  predicate Halted(t: TxPdo, cfg: Config) {
    (if t.velocity < 0 then -t.velocity else t.velocity) < cfg.haltEps
  }

  predicate AtZero(t: TxPdo, cfg: Config) {
    (if t.position < 0 then -t.position else t.position) < cfg.zeroEps
  }

  function OnRead(f: Fsm, cfg: Config, t: TxPdo): Fsm {
    match f.leaf
    case ResetTimeout => if t.flags & ETHERCAT_TIMEOUT == 0 then Succeed(f, cfg) else f
    case Initialize => if t.flags & INITIALIZED != 0 then Succeed(f, cfg) else f
    case HomeAxis => if OrientedGte(cfg.homingCurrentLimit * 1000.0, t.current) then Succeed(f, cfg) else f
    case BackoffAxis => if t.flags & POSITION_REACHED != 0 then Succeed(f, cfg) else f
    case HaltAxis => if Halted(t, cfg) then Succeed(f, cfg) else f
    case ZeroAxisPosition => if AtZero(t, cfg) then Succeed(f, cfg) else f
    case _ => f
  }

  function OnReply(f: Fsm, cfg: Config, m: Reply): Fsm {
    var (b0, b1, b2, b3) := m.value;
    match f.leaf
    case ReadFW =>
      if GoodReply(m, FIRMWARE_VERSION)
      then Succeed(f.(firmwareMajor := b2, firmwareMinor := b3, moduleType := ModuleType(m)), cfg)
      else Fail(f)
    case ReadEncoderTicks =>
      if GoodReply(m, GAP)
      then Succeed(f.(encoderTicks := Number(m)), cfg)
      else Fail(f)
    case _ => f
  }

  /** `MotionC` follows the current command mode. */
  function OnUpdate(f: Fsm, mode: Mode): Fsm {
    if !InMotion(f.leaf) then f
    else
      Enter(f, match mode
               case EFFORT => MotionEffort
               case VELOCITY => MotionVelocity
               case POSITION => MotionPosition
               case _ => MotionStop)
  }

  /** Setpoints of the three motion modes; a command that is not finite gives 0. */
  function MotionSetpoint(f: Fsm, cfg: Config, commands: Commands): RxPdo {
    match f.leaf
    case MotionEffort =>
      RxPdo(EFFORT, if commands.effort.Finite? && cfg.torqueConstant != 0.0
                    then EffortSetpoint(commands.effort.r, cfg.torqueConstant) else 0)
    case MotionVelocity =>
      RxPdo(VELOCITY, if commands.velocity.Finite? then VelocitySetpoint(commands.velocity.r) else 0)
    case MotionPosition =>
      RxPdo(POSITION, if commands.position.Finite?
                      then PositionSetpoint(commands.position.r, f.encoderTicks) else 0)
    case _ => RxPdo(STOP, 0)
  }

  /** What the active leaf writes. */
  function OnWrite(f: Fsm, cfg: Config, commands: Commands): RxPdo {
    match f.leaf
    case Initialize =>
      if f.firmwareMajor >= 2 then RxPdo(VELOCITY, -1 * cfg.homingVelocity) else RxPdo(INITIALIZE, 0)
    case HomeAxis => RxPdo(VELOCITY, cfg.homingVelocity)
    case BackoffAxis => RxPdo(POSITION, Trunc(cfg.homingBackoff * f.encoderTicks as real))
    case _ => MotionSetpoint(f, cfg, commands)
  }

  /// Runs

  /** What happens to the module: process data and replies arriving, `update` and write events of
      the machine, and the controller changing commands or mode. */
  datatype Event =
    | Read(t: TxPdo)
    | Message(m: Reply)
    | Update
    | Write
    | SetCommands(commands: Commands)
    | SwitchMode(mode: Mode)

  /** One write: the data, and whether motion was enabled. */
  datatype Output = Output(pdo: RxPdo, motion: bool)

  datatype Context = Context(fsm: Fsm, mode: Mode, commands: Commands, outputs: seq<Output>)

  function NoCommands(): Commands {
    Commands(NotFinite, NotFinite, NotFinite)
  }

  function Configured(): Context {
    Context(Created(), STOP, NoCommands(), [])
  }

  function Step(c: Context, cfg: Config, e: Event): Context {
    match e
    case Read(t) => c.(fsm := OnRead(c.fsm, cfg, t))
    case Message(m) => c.(fsm := OnReply(c.fsm, cfg, m))
    case Update => c.(fsm := OnUpdate(c.fsm, c.mode))
    case Write => c.(outputs := c.outputs + [Output(OnWrite(c.fsm, cfg, c.commands), InMotion(c.fsm.leaf))])
    case SetCommands(commands) => c.(commands := commands)
    case SwitchMode(mode) => c.(mode := mode)
  }

  function Steps(c: Context, cfg: Config, events: seq<Event>): Context {
    if events == [] then c
    else Step(Steps(c, cfg, events[..|events| - 1]), cfg, events[|events| - 1])
  }

  /** The module after `events`, from its configuration on. */
  function Run(cfg: Config, events: seq<Event>): Context {
    Steps(Configured(), cfg, events)
  }

  lemma StepsGrow(c: Context, cfg: Config, events: seq<Event>, e: Event)
    ensures Steps(c, cfg, events + [e]) == Step(Steps(c, cfg, events), cfg, e)
  {
    assert (events + [e])[..|events|] == events;
  }

  /// The conditions the machine waits for, in order

  datatype Condition =
    | FirmwareReply | TicksReply | TimeoutCleared
    | IsInitialized | IsHalted | CurrentReached | IsZero | PositionReached

  /** The event shows the condition. */
  predicate Shows(e: Event, cfg: Config, x: Condition) {
    match x
    case FirmwareReply => e.Message? && GoodReply(e.m, FIRMWARE_VERSION)
    case TicksReply => e.Message? && GoodReply(e.m, GAP)
    case TimeoutCleared => e.Read? && e.t.flags & ETHERCAT_TIMEOUT == 0
    case IsInitialized => e.Read? && e.t.flags & INITIALIZED != 0
    case IsHalted => e.Read? && Halted(e.t, cfg)
    case CurrentReached => e.Read? && OrientedGte(cfg.homingCurrentLimit * 1000.0, e.t.current)
    case IsZero => e.Read? && AtZero(e.t, cfg)
    case PositionReached => e.Read? && e.t.flags & POSITION_REACHED != 0
  }

  /** How many conditions lie between configuration and motion. */
  function Length(cfg: Config): nat {
    if Homing(cfg) then 11 else 4
  }

  /** Condition number `k` of the chain. */
  function Awaited(k: nat): Condition {
    match k
    case 0 => FirmwareReply
    case 1 => TicksReply
    case 2 => TimeoutCleared
    case 3 => IsInitialized
    case 4 => IsHalted
    case 5 => CurrentReached
    case 6 => IsHalted
    case 7 => IsZero
    case 8 => PositionReached
    case 9 => IsHalted
    case _ => IsZero
  }

  /** The leaf that waits for condition number `k`. */
  function LeafAt(cfg: Config, k: nat): Leaf {
    if k >= Length(cfg) then MotionStop
    else
      match k
      case 0 => ReadFW
      case 1 => ReadEncoderTicks
      case 2 => ResetTimeout
      case 3 => Initialize
      case 4 => HaltAxis
      case 5 => HomeAxis
      case 6 => HaltAxis
      case 7 => ZeroAxisPosition
      case 8 => BackoffAxis
      case 9 => HaltAxis
      case _ => ZeroAxisPosition
  }

  /** The tasks still planned when condition number `k` is awaited. */
  function PlanAt(cfg: Config, k: nat): seq<Task>
    decreases Length(cfg) - k
  {
    if k == 2 || k >= Length(cfg) then []
    else [Task(LeafAt(cfg, k), LeafAt(cfg, k + 1))] + PlanAt(cfg, k + 1)
  }

  lemma PlansAreStages(cfg: Config)
    ensures ConfigurePlan() == PlanAt(cfg, 0)
    ensures MotionPlan(cfg) == PlanAt(cfg, 3)
  {
    assert PlanAt(cfg, 1) == [Task(ReadEncoderTicks, ResetTimeout)];
    if Homing(cfg) {
      assert PlanAt(cfg, 10) == [Task(ZeroAxisPosition, MotionStop)];
      assert PlanAt(cfg, 9) == [Task(HaltAxis, ZeroAxisPosition)] + PlanAt(cfg, 10);
      assert PlanAt(cfg, 8) == [Task(BackoffAxis, HaltAxis)] + PlanAt(cfg, 9);
      assert PlanAt(cfg, 7) == [Task(ZeroAxisPosition, BackoffAxis)] + PlanAt(cfg, 8);
      assert PlanAt(cfg, 6) == [Task(HaltAxis, ZeroAxisPosition)] + PlanAt(cfg, 7);
      assert PlanAt(cfg, 5) == [Task(HomeAxis, HaltAxis)] + PlanAt(cfg, 6);
      assert PlanAt(cfg, 4) == [Task(HaltAxis, HomeAxis)] + PlanAt(cfg, 5);
      assert PlanAt(cfg, 3) == [Task(Initialize, HaltAxis)] + PlanAt(cfg, 4);
    } else {
      assert PlanAt(cfg, 3) == [Task(Initialize, MotionStop)];
    }
  }

  /** The messages enqueued by the time `k` conditions have been shown. */
  function SentAt(k: nat): seq<MbxSend> {
    [GET_FIRMWARE] + (if k >= 1 then [GET_TICKS] else []) + (if k >= 2 then [CLEAR_TIMEOUT] else [])
    + (if k >= 7 then [ZERO_POSITION] else []) + (if k >= 10 then [ZERO_POSITION] else [])
  }

  /** `k` conditions have been shown. */
  ghost predicate AtStage(f: Fsm, cfg: Config, k: nat) {
    && k <= Length(cfg)
    && (if k == Length(cfg) then InMotion(f.leaf) else f.leaf == LeafAt(cfg, k))
    && f.plan == PlanAt(cfg, k)
    && f.sent == SentAt(k)
  }

  /** Switched off: a reply to one of the two questions was not the expected one. */
  ghost predicate SwitchedOff(f: Fsm) {
    f.leaf.OffStop? && (f.sent == SentAt(0) || f.sent == SentAt(1))
  }

  lemma SentGrows(cfg: Config, k: nat)
    requires k < Length(cfg)
    ensures SentAt(k + 1) == SentAt(k) + EntryMessage(LeafAt(cfg, k + 1))
  {
  }

  lemma SucceedAdvances(f: Fsm, cfg: Config, k: nat)
    requires AtStage(f, cfg, k) && k < Length(cfg)
    ensures AtStage(Succeed(f, cfg), cfg, k + 1)
  {
    SentGrows(cfg, k);
    if k == 2 {
      PlansAreStages(cfg);
    } else {
      assert f.plan[1..] == PlanAt(cfg, k + 1);
    }
  }

  /** One event moves the machine exactly one stage if it shows the awaited condition, switches
      it off if it is a wrong reply, and otherwise leaves the stage. */
  lemma StepStage(c: Context, cfg: Config, e: Event, k: nat)
    requires AtStage(c.fsm, cfg, k)
    ensures var f := Step(c, cfg, e).fsm;
            if k < Length(cfg) && Shows(e, cfg, Awaited(k)) then AtStage(f, cfg, k + 1)
            else if k < 2 && e.Message? then SwitchedOff(f)
            else AtStage(f, cfg, k)
  {
    match e {
      case Read(_) =>
        if k < Length(cfg) {
          SucceedAdvances(c.fsm, cfg, k);
        }
      case Message(m) =>
        var (b0, b1, b2, b3) := m.value;
        if k == 0 {
          SucceedAdvances(c.fsm.(firmwareMajor := b2, firmwareMinor := b3, moduleType := ModuleType(m)), cfg, k);
        } else if k == 1 {
          SucceedAdvances(c.fsm.(encoderTicks := Number(m)), cfg, k);
        }
      case _ =>
    }
  }

  /// Every run, from configuration on

  /** How many conditions `events` show in order, taking each at the first chance. */
  function Shown(cfg: Config, events: seq<Event>): nat {
    if events == [] then 0
    else
      var k := Shown(cfg, events[..|events| - 1]);
      if k < Length(cfg) && Shows(events[|events| - 1], cfg, Awaited(k)) then k + 1 else k
  }

  /** Event `n` answers one of the two configuration questions, but not as expected. */
  predicate Unexpected(cfg: Config, events: seq<Event>, n: nat)
    requires n < |events|
  {
    var k := Shown(cfg, events[..n]);
    events[n].Message? && k < 2 && !Shows(events[n], cfg, Awaited(k))
  }

  ghost predicate Derailed(cfg: Config, events: seq<Event>) {
    exists n :: 0 <= n < |events| && Unexpected(cfg, events, n)
  }

  lemma DerailedGrows(cfg: Config, events: seq<Event>)
    requires events != []
    ensures Derailed(cfg, events)
       <==> Derailed(cfg, events[..|events| - 1]) || Unexpected(cfg, events, |events| - 1)
  {
    var before := events[..|events| - 1];
    forall n | 0 <= n < |before|
      ensures Unexpected(cfg, events, n) == Unexpected(cfg, before, n)
    {
      assert before[..n] == events[..n];
    }
  }

  lemma OffStopStays(c: Context, cfg: Config, e: Event)
    requires c.fsm.leaf.OffStop?
    ensures Step(c, cfg, e).fsm == c.fsm
  {
  }

  /** The machine is switched off exactly if a configuration question was answered wrongly, and
      otherwise stands where the shown conditions put it. */
  lemma {:induction false} RunStage(cfg: Config, events: seq<Event>)
    ensures var f := Run(cfg, events).fsm;
            if Derailed(cfg, events) then SwitchedOff(f) else AtStage(f, cfg, Shown(cfg, events))
    decreases |events|
  {
    if events == [] {
      PlansAreStages(cfg);
    } else {
      var before, e := events[..|events| - 1], events[|events| - 1];
      var c := Run(cfg, before);
      RunStage(cfg, before);
      DerailedGrows(cfg, events);
      if Derailed(cfg, before) {
        OffStopStays(c, cfg, e);
      } else {
        StepStage(c, cfg, e, Shown(cfg, before));
      }
    }
  }

  /** Events number `at[0] < at[1] < ...` show the conditions of the chain in order. */
  predicate Witnesses(cfg: Config, events: seq<Event>, at: seq<nat>) {
    && (forall j | 0 <= j < |at| :: at[j] < |events| && Shows(events[at[j]], cfg, Awaited(j)))
    && (forall j | 0 < j < |at| :: at[j - 1] < at[j])
  }

  /** Which events show the conditions, taking each at the first chance. */
  function FirstChances(cfg: Config, events: seq<Event>): (at: seq<nat>)
    ensures |at| == Shown(cfg, events)
  {
    if events == [] then []
    else
      var last := |events| - 1;
      var at := FirstChances(cfg, events[..last]);
      if |at| < Length(cfg) && Shows(events[last], cfg, Awaited(|at|)) then at + [last] else at
  }

  lemma {:induction false} ShownIsWitnessed(cfg: Config, events: seq<Event>)
    ensures Shown(cfg, events) <= Length(cfg)
    ensures Witnesses(cfg, events, FirstChances(cfg, events))
    decreases |events|
  {
    if events != [] {
      ShownIsWitnessed(cfg, events[..|events| - 1]);
    }
  }

  /** Taking each condition at the first chance shows as many as any choice of events. */
  lemma {:induction false} WitnessedIsShown(cfg: Config, events: seq<Event>, at: seq<nat>)
    requires |at| <= Length(cfg) && Witnesses(cfg, events, at)
    ensures |at| <= Shown(cfg, events)
    decreases |events|
  {
    if at != [] {
      var last := |events| - 1;
      var n := |at| - 1;
      assert at[n] < |events|;
      if at[n] == last {
        forall j | 0 <= j < n
          ensures at[j] < last
        {
          Increasing(at, j, n);
        }
        WitnessedIsShown(cfg, events[..last], at[..n]);
      } else {
        forall j | 0 <= j < |at|
          ensures at[j] < last
        {
          Increasing(at, j, n);
        }
        WitnessedIsShown(cfg, events[..last], at);
      }
    }
  }

  lemma {:induction false} Increasing(at: seq<nat>, i: nat, j: nat)
    requires forall k | 0 < k < |at| :: at[k - 1] < at[k]
    requires i <= j < |at|
    ensures i < j ==> at[i] < at[j]
    decreases j
  {
    if i < j {
      Increasing(at, i, j - 1);
    }
  }

  /** Motion is enabled if and only if no configuration question was answered wrongly and the
      whole chain of conditions has been shown by events in that order. */
  lemma MotionIff(cfg: Config, events: seq<Event>)
    ensures InMotion(Run(cfg, events).fsm.leaf)
       <==> !Derailed(cfg, events) && exists at :: |at| == Length(cfg) && Witnesses(cfg, events, at)
  {
    RunStage(cfg, events);
    ShownIsWitnessed(cfg, events);
    assert |FirstChances(cfg, events)| == Shown(cfg, events);
    forall at | |at| == Length(cfg) && Witnesses(cfg, events, at)
      ensures Shown(cfg, events) == Length(cfg)
    {
      WitnessedIsShown(cfg, events, at);
    }
  }

  /** What the machine knows about the hardware is what the witnessing replies said. */
  ghost predicate Knows(f: Fsm, events: seq<Event>, at: seq<nat>) {
    && (forall i | 0 <= i < |at| :: at[i] < |events|)
    && (|at| >= 1 ==>
          var e := events[at[0]];
          e.Message? && (f.firmwareMajor, f.firmwareMinor) == (e.m.value.2, e.m.value.3)
          && f.moduleType == ModuleType(e.m))
    && (|at| >= 2 ==> var e := events[at[1]]; e.Message? && f.encoderTicks == Number(e.m))
  }

  lemma StepKnows(c: Context, cfg: Config, before: seq<Event>, e: Event, at: seq<nat>)
    requires AtStage(c.fsm, cfg, |at|) && Knows(c.fsm, before, at)
    requires e.Message? && |at| < 2 ==> Shows(e, cfg, Awaited(|at|))
    ensures var shown := |at| < Length(cfg) && Shows(e, cfg, Awaited(|at|));
            Knows(Step(c, cfg, e).fsm, before + [e], if shown then at + [|before|] else at)
  {
    assert forall i | 0 <= i < |at| :: (before + [e])[at[i]] == before[at[i]];
  }

  /** Unless a question was answered wrongly, the firmware version, module type and encoder
      resolution the machine works with are those in the replies that witnessed its chain. */
  lemma {:induction false} KnowledgeIsFromReplies(cfg: Config, events: seq<Event>)
    requires !Derailed(cfg, events)
    ensures Knows(Run(cfg, events).fsm, events, FirstChances(cfg, events))
    decreases |events|
  {
    if events != [] {
      var last := |events| - 1;
      var before, e := events[..last], events[last];
      DerailedGrows(cfg, events);
      KnowledgeIsFromReplies(cfg, before);
      RunStage(cfg, before);
      StepKnows(Run(cfg, before), cfg, before, e, FirstChances(cfg, before));
      assert before + [e] == events;
    }
  }

  /** What is written while condition number `k` is awaited. */
  ghost predicate HomingWrite(f: Fsm, cfg: Config, awaited: Condition, pdo: RxPdo) {
    match awaited
    case IsInitialized =>
      pdo == if f.firmwareMajor < 2 then RxPdo(INITIALIZE, 0) else RxPdo(VELOCITY, -cfg.homingVelocity)
    case CurrentReached => pdo == RxPdo(VELOCITY, cfg.homingVelocity)
    case PositionReached => pdo == RxPdo(POSITION, Trunc(cfg.homingBackoff * f.encoderTicks as real))
    case _ => pdo == RxPdo(STOP, 0)
  }

  lemma StageWrites(f: Fsm, cfg: Config, commands: Commands, k: nat)
    requires k < Length(cfg) && f.leaf == LeafAt(cfg, k)
    ensures HomingWrite(f, cfg, Awaited(k), OnWrite(f, cfg, commands))
  {
  }

  /** Before motion the drive is told to move only while the machine waits for initialization, for
      the homing current or for the back-off position; every other write is a stop. */
  lemma MovesOnlyForHoming(cfg: Config, events: seq<Event>)
    requires !InMotion(Run(cfg, events).fsm.leaf)
    ensures var c := Run(cfg, events);
            var pdo := OnWrite(c.fsm, cfg, c.commands);
            if Derailed(cfg, events) then pdo == RxPdo(STOP, 0)
            else Shown(cfg, events) < Length(cfg) && HomingWrite(c.fsm, cfg, Awaited(Shown(cfg, events)), pdo)
  {
    RunStage(cfg, events);
    if !Derailed(cfg, events) {
      var c := Run(cfg, events);
      StageWrites(c.fsm, cfg, c.commands, Shown(cfg, events));
    }
  }

  /** Over a whole run at most five messages are enqueued, always a prefix of the same five. */
  lemma MailboxBudget(cfg: Config, events: seq<Event>)
    ensures Run(cfg, events).fsm.sent
         <= [MbxSend(136, 1, true, true), MbxSend(6, 250, true, true), MbxSend(5, 158, false, false),
             MbxSend(5, 1, false, false), MbxSend(5, 1, false, false)]
  {
    RunStage(cfg, events);
  }

  /** The position is set to zero only in reaction to process data that shows the axis halted,
      and only while the machine is halting it. */
  lemma ZeroOnlyWhenHalted(cfg: Config, events: seq<Event>, e: Event)
    requires var before, after := Run(cfg, events).fsm.sent, Run(cfg, events + [e]).fsm.sent;
             |after| > |before| && after[|after| - 1] == MbxSend(5, 1, false, false)
    ensures e.Read? && -cfg.haltEps < e.t.velocity < cfg.haltEps && Run(cfg, events).fsm.leaf.HaltAxis?
  {
    RunStage(cfg, events);
    StepsGrow(Configured(), cfg, events, e);
    if !Derailed(cfg, events) {
      StepStage(Run(cfg, events), cfg, e, Shown(cfg, events));
    } else {
      OffStopStays(Run(cfg, events), cfg, e);
    }
  }

  /** Once switched off, the machine stays off and every later write is a stop. */
  lemma {:induction false} OffStopIsFinal(c: Context, cfg: Config, events: seq<Event>)
    requires c.fsm.leaf.OffStop?
    ensures var later := Steps(c, cfg, events);
            && later.fsm == c.fsm
            && |later.outputs| >= |c.outputs|
            && (forall i | |c.outputs| <= i < |later.outputs| :: later.outputs[i].pdo == RxPdo(STOP, 0))
    decreases |events|
  {
    if events != [] {
      OffStopIsFinal(c, cfg, events[..|events| - 1]);
    }
  }

  /// What the controller can influence

  /** The machine without the child of `MotionC` that is active. */
  function Blind(f: Fsm): Fsm {
    if InMotion(f.leaf) then f.(leaf := MotionStop) else f
  }

  /** Two runs that an observer of the bus cannot tell apart before motion is enabled. */
  ghost predicate Agree(a: Context, b: Context) {
    && Blind(a.fsm) == Blind(b.fsm)
    && |a.outputs| == |b.outputs|
    && (forall i | 0 <= i < |a.outputs| ::
          && a.outputs[i].motion == b.outputs[i].motion
          && (!a.outputs[i].motion ==> a.outputs[i].pdo == b.outputs[i].pdo))
  }

  predicate FromController(e: Event) {
    e.SetCommands? || e.SwitchMode?
  }

  /** `events` without what the controller does. */
  function BusEvents(events: seq<Event>): seq<Event> {
    if events == [] then []
    else
      var e := events[|events| - 1];
      BusEvents(events[..|events| - 1]) + if FromController(e) then [] else [e]
  }

  lemma BusStepAgrees(a: Context, b: Context, cfg: Config, e: Event)
    requires Agree(a, b) && !FromController(e)
    ensures Agree(Step(a, cfg, e), Step(b, cfg, e))
  {
    if !InMotion(a.fsm.leaf) {
      assert a.fsm == b.fsm;
    }
  }

  lemma {:induction false} ControllerIsIrrelevant(cfg: Config, events: seq<Event>)
    ensures Agree(Run(cfg, events), Run(cfg, BusEvents(events)))
    decreases |events|
  {
    if events != [] {
      var before, e := events[..|events| - 1], events[|events| - 1];
      ControllerIsIrrelevant(cfg, before);
      if !FromController(e) {
        BusStepAgrees(Run(cfg, before), Run(cfg, BusEvents(before)), cfg, e);
        StepsGrow(Configured(), cfg, BusEvents(before), e);
      } else {
        assert BusEvents(events) == BusEvents(before);
      }
    }
  }

  /** Two runs with the same process data, replies and cycles but any commands and mode switches
      write the same mode and setpoint wherever motion is not yet enabled, enable motion at the
      same point, and enqueue the same messages. */
  lemma CommandsDoNotInterfere(cfg: Config, a: seq<Event>, b: seq<Event>)
    requires BusEvents(a) == BusEvents(b)
    ensures Agree(Run(cfg, a), Run(cfg, b))
    ensures Run(cfg, a).fsm.sent == Run(cfg, b).fsm.sent
  {
    ControllerIsIrrelevant(cfg, a);
    ControllerIsIrrelevant(cfg, b);
  }

  /** In motion, `pdo` is what a command mode and the commands ask for. */
  predicate FollowsCommand(pdo: RxPdo, mode: Mode, commands: Commands, cfg: Config, encoderTicks: nat) {
    match mode
    case VELOCITY =>
      pdo.mode == VELOCITY
      && pdo.setpoint == (match commands.velocity case Finite(r) => VelocitySetpoint(r) case NotFinite => 0)
    case POSITION =>
      pdo.mode == POSITION
      && pdo.setpoint == (match commands.position case Finite(r) => PositionSetpoint(r, encoderTicks) case NotFinite => 0)
    case EFFORT =>
      pdo.mode == EFFORT
      && (cfg.torqueConstant != 0.0 ==>
            pdo.setpoint == match commands.effort
                            case Finite(r) => EffortSetpoint(r, cfg.torqueConstant)
                            case NotFinite => 0)
    case _ => pdo == RxPdo(STOP, 0)
  }

  /** Once motion is enabled, each call of `write` (an update and a write event) emits exactly
      the current command mode, with the setpoint converted from that mode's command. */
  lemma MotionWritesFollowMode(c: Context, cfg: Config)
    requires InMotion(c.fsm.leaf)
    ensures var c' := Step(Step(c, cfg, Update), cfg, Write);
            && |c'.outputs| == |c.outputs| + 1 && InMotion(c'.fsm.leaf)
            && c'.mode == c.mode && c'.commands == c.commands
            && FollowsCommand(c'.outputs[|c.outputs|].pdo, c.mode, c.commands, cfg, c.fsm.encoderTicks)
  {
  }
}
