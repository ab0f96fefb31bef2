/** The TMCM1610 module itself (tmcm1610.cpp, on top of soem_driver_slave.hpp): an object whose
    fields its methods update. `events` records what has happened to it since `configure`, and
    `Valid` ties every field to what the functions of `Tmcm1610` say about that history. */
module Tmcm1610Modules {
  import Mailbox
  import opened Units
  import opened Options
  import opened Tmcm1610
  import opened ModeSwitch

  const VENDOR_ID := 0x0286
  const PRODUCT_CODE := 0x0070

  /** The module's parameters, already converted to numbers; absent ones are `None`. */
  datatype Parameters = Parameters(
    torqueConstant: Option<real>,
    homingVelocity: Option<int>,
    homingCurrentLimit: Option<real>,
    homingBackoff: Option<real>,
    haltEps: Option<int>,
    zeroEps: Option<int>)

  datatype States = States(position: Value, velocity: Value, effort: Value)

  class TrinamicTMCM1610 {
    // configuration
    var configured: bool
    var cfg: Config
    // controller side
    var commandMode: Mode
    var commandInterfaces: Commands
    var stateInterfaces: States
    // state machine and its context
    var leaf: Leaf
    var plan: seq<Task>
    var firmwareMajor: nat
    var firmwareMinor: nat
    var moduleType: nat
    var encoderTicks: nat
    // bus side
    var rxPdo: RxPdo
    var mbxSendQueue: seq<MbxSend>
    var mbxReceiveQueue: seq<Reply>
    // histories
    ghost var events: seq<Event>
    ghost var sent: seq<MbxSend>    // accepted by mbxSendQueue

    ghost function Machine(): Fsm
      reads this
    {
      Fsm(leaf, plan, firmwareMajor, firmwareMinor, moduleType, encoderTicks, sent)
    }

    ghost function Past(): Context
      reads this
    {
      Run(cfg, events)
    }

    /** A configured module is where its history puts it; what it wrote last is in the process
        data, and everything it ever enqueued has been accepted. */
    ghost predicate Valid()
      reads this
    {
      && |mbxSendQueue| <= Mailbox.CAPACITY && |mbxReceiveQueue| <= Mailbox.CAPACITY
      && |mbxSendQueue| <= |sent|
      && (configured ==>
            && Machine() == Past().fsm
            && commandMode == Past().mode
            && commandInterfaces == Past().commands
            && (Past().outputs != [] ==> rxPdo == Past().outputs[|Past().outputs| - 1].pdo))
    }

    constructor ()
      ensures Valid() && !configured && mbxSendQueue == [] && mbxReceiveQueue == [] && commandMode == STOP
      ensures cfg == Config(0.0, 0.0, 0, 0.0, 2, 10) && commandInterfaces == NoCommands()
    {
      configured, commandMode, commandInterfaces := false, STOP, NoCommands();
      cfg := Config(0.0, 0.0, 0, 0.0, 2, 10);
      stateInterfaces := States(NotFinite, NotFinite, NotFinite);
      leaf, plan, firmwareMajor, firmwareMinor, moduleType, encoderTicks := ReadFW, [], 0, 0, 0, 0;
      rxPdo, mbxSendQueue, mbxReceiveQueue := RxPdo(STOP, 0), [], [];
      events, sent := [], [];
    }

    /** `mbx_enqueue_send`: refused exactly if the queue is full. */
    method MbxEnqueueSend(m: MbxSend) returns (ok: bool)
      modifies this`mbxSendQueue, this`sent
      ensures ok == (|old(mbxSendQueue)| < Mailbox.CAPACITY)
      ensures mbxSendQueue == old(mbxSendQueue) + if ok then [m] else []
      ensures sent == old(sent) + if ok then [m] else []
    {
      ok := |mbxSendQueue| < Mailbox.CAPACITY;
      if ok {
        mbxSendQueue, sent := mbxSendQueue + [m], sent + [m];
      }
    }

    /** Enter a leaf and run its entry action. The source ignores whether the message was
        accepted; it always is. */
    method EnterLeaf(l: Leaf)
      requires |mbxSendQueue| < Mailbox.CAPACITY && |mbxSendQueue| <= |sent|
      modifies this`leaf, this`mbxSendQueue, this`sent
      ensures Machine() == Enter(old(Machine()), l)
      ensures |mbxSendQueue| <= Mailbox.CAPACITY && |mbxSendQueue| <= |sent|
    {
      leaf := l;
      var ok := true;
      match l {
        case ReadFW => ok := MbxEnqueueSend(GET_FIRMWARE);
        case ReadEncoderTicks => ok := MbxEnqueueSend(GET_TICKS);
        case ResetTimeout => ok := MbxEnqueueSend(CLEAR_TIMEOUT);
        case ZeroAxisPosition => ok := MbxEnqueueSend(ZERO_POSITION);
        case _ =>
      }
      assert ok;
    }

    method SucceedLeaf()
      requires |mbxSendQueue| < Mailbox.CAPACITY && |mbxSendQueue| <= |sent|
      modifies this`leaf, this`plan, this`mbxSendQueue, this`sent
      ensures Machine() == Succeed(old(Machine()), cfg)
      ensures |mbxSendQueue| <= Mailbox.CAPACITY && |mbxSendQueue| <= |sent|
    {
      if plan != [] {
        if plan[0].origin == leaf {
          var destination := plan[0].destination;
          plan := plan[1..];
          EnterLeaf(destination);
        }
      } else if leaf.ReadFW? || leaf.ReadEncoderTicks? || leaf.ResetTimeout? {
        plan := MotionPlan(cfg);
        EnterLeaf(Initialize);
      } else {
        EnterLeaf(OffStop);
      }
    }

    method FailLeaf()
      requires |mbxSendQueue| < Mailbox.CAPACITY && |mbxSendQueue| <= |sent|
      modifies this`leaf, this`plan, this`mbxSendQueue, this`sent
      ensures Machine() == Fail(old(Machine()))
      ensures |mbxSendQueue| <= Mailbox.CAPACITY && |mbxSendQueue| <= |sent|
    {
      plan := [];
      EnterLeaf(OffStop);
    }

    /** In every run at most five messages have been enqueued, so there is always room. */
    lemma AlwaysRoom()
      requires Valid() && configured
      ensures |mbxSendQueue| < Mailbox.CAPACITY
    {
      MailboxBudget(cfg, events);
    }

    /// Reactions of the active leaf

    method LeafRead(t: TxPdo)
      requires |mbxSendQueue| < Mailbox.CAPACITY && |mbxSendQueue| <= |sent|
      modifies this`leaf, this`plan, this`mbxSendQueue, this`sent
      ensures Machine() == OnRead(old(Machine()), cfg, t)
      ensures |mbxSendQueue| <= Mailbox.CAPACITY && |mbxSendQueue| <= |sent|
    {
      var shown := false;
      match leaf {
        case ResetTimeout => shown := t.flags & ETHERCAT_TIMEOUT == 0;
        case Initialize => shown := t.flags & INITIALIZED != 0;
        case HomeAxis => shown := OrientedGte(cfg.homingCurrentLimit * 1000.0, t.current);
        case BackoffAxis => shown := t.flags & POSITION_REACHED != 0;
        case HaltAxis => shown := Halted(t, cfg);
        case ZeroAxisPosition => shown := AtZero(t, cfg);
        case _ =>
      }
      if shown {
        SucceedLeaf();
      }
    }

    method LeafMessage(m: Reply)
      requires |mbxSendQueue| < Mailbox.CAPACITY && |mbxSendQueue| <= |sent|
      modifies this`leaf, this`plan, this`mbxSendQueue, this`sent
      modifies this`firmwareMajor, this`firmwareMinor, this`moduleType, this`encoderTicks
      ensures Machine() == OnReply(old(Machine()), cfg, m)
      ensures |mbxSendQueue| <= Mailbox.CAPACITY && |mbxSendQueue| <= |sent|
    {
      var (b0, b1, b2, b3) := m.value;
      if leaf.ReadFW? {
        if GoodReply(m, FIRMWARE_VERSION) {
          firmwareMajor, firmwareMinor, moduleType := b2, b3, ModuleType(m);
          SucceedLeaf();
        } else {
          FailLeaf();
        }
      } else if leaf.ReadEncoderTicks? {
        if GoodReply(m, GAP) {
          encoderTicks := Number(m);
          SucceedLeaf();
        } else {
          FailLeaf();
        }
      }
    }

    method LeafUpdate()
      requires |mbxSendQueue| < Mailbox.CAPACITY && |mbxSendQueue| <= |sent|
      modifies this`leaf, this`mbxSendQueue, this`sent
      ensures Machine() == OnUpdate(old(Machine()), commandMode)
      ensures |mbxSendQueue| <= Mailbox.CAPACITY && |mbxSendQueue| <= |sent|
    {
      if InMotion(leaf) {
        match commandMode {
          case EFFORT => EnterLeaf(MotionEffort);
          case VELOCITY => EnterLeaf(MotionVelocity);
          case POSITION => EnterLeaf(MotionPosition);
          case _ => EnterLeaf(MotionStop);
        }
      }
    }

    method LeafWrite()
      modifies this`rxPdo
      ensures rxPdo == OnWrite(Machine(), cfg, commandInterfaces)
    {
      match leaf {
        case Initialize =>
          if firmwareMajor >= 2 {
            rxPdo := RxPdo(VELOCITY, -1 * cfg.homingVelocity);
          } else {
            rxPdo := RxPdo(INITIALIZE, 0);
          }
        case HomeAxis => rxPdo := RxPdo(VELOCITY, cfg.homingVelocity);
        case BackoffAxis => rxPdo := RxPdo(POSITION, Trunc(cfg.homingBackoff * encoderTicks as real));
        case MotionEffort =>
          var x := commandInterfaces.effort;
          if x.Finite? && cfg.torqueConstant != 0.0 {
            rxPdo := RxPdo(EFFORT, EffortSetpoint(x.r, cfg.torqueConstant));
          } else {
            rxPdo := RxPdo(EFFORT, 0);
          }
        case MotionVelocity =>
          var x := commandInterfaces.velocity;
          rxPdo := RxPdo(VELOCITY, if x.Finite? then VelocitySetpoint(x.r) else 0);
        case MotionPosition =>
          var x := commandInterfaces.position;
          rxPdo := RxPdo(POSITION, if x.Finite? then PositionSetpoint(x.r, encoderTicks) else 0);
        case _ => rxPdo := RxPdo(STOP, 0);
      }
    }

    /// The same as events of the module's history

    method ReactRead(t: TxPdo)
      requires Valid() && configured
      modifies this`leaf, this`plan, this`mbxSendQueue, this`sent, this`events
      ensures Valid() && events == old(events) + [Event.Read(t)]
    {
      AlwaysRoom();
      ghost var before := Past();
      StepsGrow(Configured(), cfg, events, Event.Read(t));
      LeafRead(t);
      assert Machine() == OnRead(before.fsm, cfg, t);
      events := events + [Event.Read(t)];
      assert Past() == Step(before, cfg, Event.Read(t));
    }

    method ReactMessage(m: Reply)
      requires Valid() && configured
      modifies this`leaf, this`plan, this`mbxSendQueue, this`sent, this`events
      modifies this`firmwareMajor, this`firmwareMinor, this`moduleType, this`encoderTicks
      ensures Valid() && events == old(events) + [Message(m)]
    {
      AlwaysRoom();
      StepsGrow(Configured(), cfg, events, Message(m));
      LeafMessage(m);
      events := events + [Message(m)];
    }

    method UpdateMachine()
      requires Valid() && configured
      modifies this`leaf, this`mbxSendQueue, this`sent, this`events
      ensures Valid() && events == old(events) + [Update]
    {
      AlwaysRoom();
      StepsGrow(Configured(), cfg, events, Update);
      LeafUpdate();
      events := events + [Update];
    }

    method ReactWrite()
      requires Valid() && configured
      modifies this`rxPdo, this`events
      ensures Valid() && events == old(events) + [Event.Write]
    {
      StepsGrow(Configured(), cfg, events, Event.Write);
      LeafWrite();
      events := events + [Event.Write];
    }

    /// The calls of the driver

    static function Stored(before: Config, p: Parameters): Config
      requires p.torqueConstant.Some?
    {
      Config(
        p.torqueConstant.value,
        if p.homingCurrentLimit.Some? then p.homingCurrentLimit.value else before.homingCurrentLimit,
        if p.homingVelocity.Some? then p.homingVelocity.value else before.homingVelocity,
        if p.homingBackoff.Some? then p.homingBackoff.value else before.homingBackoff,
        if p.haltEps.Some? then p.haltEps.value else before.haltEps,
        if p.zeroEps.Some? then p.zeroEps.value else before.zeroEps)
    }

    /** The parameters `configure` finds; an absent one leaves the default. */
    method StoreParameters(p: Parameters)
      requires p.torqueConstant.Some?
      modifies this`cfg
      ensures cfg == Stored(old(cfg), p)
    {
      cfg := cfg.(torqueConstant := p.torqueConstant.value);
      if p.homingVelocity.Some? { cfg := cfg.(homingVelocity := p.homingVelocity.value); }
      if p.homingCurrentLimit.Some? { cfg := cfg.(homingCurrentLimit := p.homingCurrentLimit.value); }
      if p.homingBackoff.Some? { cfg := cfg.(homingBackoff := p.homingBackoff.value); }
      if p.haltEps.Some? { cfg := cfg.(haltEps := p.haltEps.value); }
      if p.zeroEps.Some? { cfg := cfg.(zeroEps := p.zeroEps.value); }
    }

    /** `configure`: refuses a foreign device or a missing torque constant and then changes no
        state machine; otherwise stores the parameters and creates the machine. */
    method Configure(vendorId: nat, productCode: nat, p: Parameters) returns (ok: bool)
      requires Valid() && !configured && commandMode == STOP && commandInterfaces == NoCommands()
      requires mbxSendQueue == [] && sent == []
      modifies this
      ensures Valid() && configured == ok
      ensures ok <==> vendorId == 0x0286 && productCode == 0x0070 && p.torqueConstant.Some?
      ensures ok ==> events == [] && sent == mbxSendQueue == [GET_FIRMWARE]
      ensures ok ==>
        && cfg.torqueConstant == p.torqueConstant.value
        && cfg.homingCurrentLimit == (if p.homingCurrentLimit.Some? then p.homingCurrentLimit.value else old(cfg.homingCurrentLimit))
        && cfg.homingVelocity == (if p.homingVelocity.Some? then p.homingVelocity.value else old(cfg.homingVelocity))
        && cfg.homingBackoff == (if p.homingBackoff.Some? then p.homingBackoff.value else old(cfg.homingBackoff))
        && cfg.haltEps == (if p.haltEps.Some? then p.haltEps.value else old(cfg.haltEps))
        && cfg.zeroEps == (if p.zeroEps.Some? then p.zeroEps.value else old(cfg.zeroEps))
      ensures !ok ==> Machine() == old(Machine()) && mbxSendQueue == []
    {
      if vendorId != VENDOR_ID || productCode != PRODUCT_CODE || p.torqueConstant.None? {
        return false;
      }
      StoreParameters(p);
      plan := ConfigurePlan();
      firmwareMajor, firmwareMinor, moduleType, encoderTicks := 0, 0, 0, 0;
      events := [];
      leaf := ReadFW;
      var accepted := MbxEnqueueSend(GET_FIRMWARE);
      configured := true;
      assert Machine() == Created();
      return true;
    }

    function Replies(ms: seq<Reply>): (r: seq<Event>)
      ensures |r| == |ms|
    {
      seq(|ms|, i requires 0 <= i < |ms| => Message(ms[i]))
    }

    method ConsumeOne()
      requires Valid() && configured && mbxReceiveQueue != []
      modifies this`leaf, this`plan, this`mbxSendQueue, this`sent, this`events, this`mbxReceiveQueue
      modifies this`firmwareMajor, this`firmwareMinor, this`moduleType, this`encoderTicks
      ensures Valid() && mbxReceiveQueue == old(mbxReceiveQueue)[1..]
      ensures events == old(events) + [Message(old(mbxReceiveQueue)[0])]
    {
      var m := mbxReceiveQueue[0];
      mbxReceiveQueue := mbxReceiveQueue[1..];
      ReactMessage(m);
    }

    /** `mbx_consume_incoming` with the module's callback: the machine reacts to every waiting
        reply, in order. */
    method ConsumeIncoming()
      requires Valid() && configured
      modifies this`leaf, this`plan, this`mbxSendQueue, this`sent, this`events, this`mbxReceiveQueue
      modifies this`firmwareMajor, this`firmwareMinor, this`moduleType, this`encoderTicks
      ensures Valid() && mbxReceiveQueue == []
      ensures events == old(events) + Replies(old(mbxReceiveQueue))
    {
      ghost var arrived := mbxReceiveQueue;
      ghost var done := 0;
      while mbxReceiveQueue != []
        invariant Valid()
        invariant done <= |arrived| && mbxReceiveQueue == arrived[done..]
        invariant events == old(events) + Replies(arrived[..done])
        decreases |mbxReceiveQueue|
      {
        ConsumeOne();
        assert Replies(arrived[..done + 1]) == Replies(arrived[..done]) + [Message(arrived[done])];
        done := done + 1;
      }
      assert arrived[..done] == arrived;
    }

    /** What the process data `t` shows the controllers, with the encoder resolution read so far. */
    function StatesOf(t: TxPdo, ticks: nat): States
      reads this`cfg
      requires FitsInt32(t.position * 2) && FitsInt32(t.velocity * 2)
    {
      States(
        if ticks == 0 then NotFinite else Finite(PositionState(t.position, ticks)),
        Finite(VelocityState(t.velocity)),
        Finite(EffortState(t.current, cfg.torqueConstant)))
    }

    /** The states, written back as commands, give the process data again. */
    static predicate Tell(states: States, t: TxPdo, ticks: nat, cfg: Config) {
      && (ticks != 0 ==> states.position.Finite? && PositionSetpoint(states.position.r, ticks) == t.position)
      && (ticks == 0 ==> states.position.NotFinite?)
      && states.velocity.Finite? && VelocitySetpoint(states.velocity.r) == t.velocity
      && states.effort.Finite?
      && (cfg.torqueConstant != 0.0 ==> EffortSetpoint(states.effort.r, cfg.torqueConstant) == t.current)
    }

    lemma StatesTell(t: TxPdo, ticks: nat)
      requires FitsInt32(t.position * 2) && FitsInt32(t.velocity * 2)
      ensures Tell(StatesOf(t, ticks), t, ticks, cfg)
    {
      VelocityWriteBack(t.velocity);
      if ticks != 0 { PositionWriteBack(t.position, ticks); }
      if cfg.torqueConstant != 0.0 { EffortWriteBack(t.current, cfg.torqueConstant); }
    }

    /** Let the machine react to new process data and the waiting replies, and update it. */
    method React(t: TxPdo)
      requires Valid() && configured
      modifies this`leaf, this`plan, this`mbxSendQueue, this`sent, this`events, this`mbxReceiveQueue
      modifies this`firmwareMajor, this`firmwareMinor, this`moduleType, this`encoderTicks
      ensures Valid() && mbxReceiveQueue == []
      ensures events == old(events) + [Event.Read(t)] + Replies(old(mbxReceiveQueue)) + [Update]
    {
      ReactRead(t);
      ConsumeIncoming();
      UpdateMachine();
    }

    /** `read`: make the process data available to the controllers, then let the machine react. */
    method Read(t: TxPdo)
      requires Valid() && configured
      requires FitsInt32(t.position * 2) && FitsInt32(t.velocity * 2)
      modifies this
      ensures Valid() && configured && cfg == old(cfg)
      ensures events == old(events) + [Event.Read(t)] + Replies(old(mbxReceiveQueue)) + [Update]
      ensures mbxReceiveQueue == [] && rxPdo == old(rxPdo)
      ensures stateInterfaces == StatesOf(t, old(encoderTicks))
      ensures Tell(stateInterfaces, t, old(encoderTicks), cfg)
    {
      stateInterfaces := StatesOf(t, encoderTicks);
      StatesTell(t, encoderTicks);
      React(t);
    }

    /** `write`: update the machine, then let the active leaf write the process data. */
    method Write()
      requires Valid() && configured
      modifies this`leaf, this`mbxSendQueue, this`sent, this`events, this`rxPdo
      ensures Valid() && events == old(events) + [Update, Event.Write]
      ensures InMotion(old(leaf)) ==> FollowsCommand(rxPdo, commandMode, commandInterfaces, cfg, encoderTicks)
    {
      ghost var before := Past();
      UpdateMachine();
      ReactWrite();
      assert events == old(events) + [Update] + [Event.Write];
      StepsGrow(Configured(), cfg, old(events), Update);
      StepsGrow(Configured(), cfg, old(events) + [Update], Event.Write);
      if InMotion(before.fsm.leaf) {
        MotionWritesFollowMode(before, cfg);
      }
    }

    /** The driver takes one request (`consume_one` in SOEMDriver::write). */
    method TakeRequest() returns (m: Option<MbxSend>)
      requires Valid()
      modifies this`mbxSendQueue
      ensures Valid()
      ensures m == if old(mbxSendQueue) == [] then None else Some(old(mbxSendQueue)[0])
      ensures mbxSendQueue == if old(mbxSendQueue) == [] then [] else old(mbxSendQueue)[1..]
    {
      m := None;
      if mbxSendQueue != [] {
        m := Some(mbxSendQueue[0]);
        mbxSendQueue := mbxSendQueue[1..];
      }
    }

    /** The driver delivers one reply (`push` in SOEMDriver::read). */
    method DeliverReply(m: Reply) returns (ok: bool)
      requires Valid()
      modifies this`mbxReceiveQueue
      ensures Valid() && ok == (|old(mbxReceiveQueue)| < Mailbox.CAPACITY)
      ensures mbxReceiveQueue == old(mbxReceiveQueue) + if ok then [m] else []
    {
      ok := |mbxReceiveQueue| < Mailbox.CAPACITY;
      if ok {
        mbxReceiveQueue := mbxReceiveQueue + [m];
      }
    }

    /** The controllers write through the exported command interfaces. */
    method SetCommandInterfaces(commands: Commands)
      requires Valid() && configured
      modifies this`commandInterfaces, this`events
      ensures Valid() && commandInterfaces == commands && events == old(events) + [SetCommands(commands)]
    {
      StepsGrow(Configured(), cfg, events, SetCommands(commands));
      commandInterfaces := commands;
      events := events + [SetCommands(commands)];
    }

    method PrepareCommandModeSwitch(starts: seq<string>, stops: seq<string>) returns (ok: bool)
      ensures ok == Switched(commandMode, starts, stops).Some?
    {
      var next := commandMode;
      if ClaimOf(next) in stops {
        next := STOP;
      }
      var i := 0;
      while i < |starts|
        invariant 0 <= i <= |starts|
        invariant Decide(next, starts[i..]) == Switched(commandMode, starts, stops)
      {
        var m := ModeOf(starts[i]);
        if m == next || next == STOP {
          next := m;
        } else {
          return false;
        }
        assert starts[i..][1..] == starts[i + 1..];
        i := i + 1;
      }
      return true;
    }

    method PerformCommandModeSwitch(starts: seq<string>, stops: seq<string>) returns (ok: bool)
      requires Valid() && configured
      modifies this`commandMode, this`events
      ensures Valid()
      ensures ok == Switched(old(commandMode), starts, stops).Some?
      ensures commandMode == if ok then Switched(old(commandMode), starts, stops).value else old(commandMode)
      ensures events == old(events) + if ok then [SwitchMode(commandMode)] else []
    {
      var next := commandMode;
      if ClaimOf(next) in stops {
        next := STOP;
      }
      var i := 0;
      while i < |starts|
        invariant 0 <= i <= |starts|
        invariant Decide(next, starts[i..]) == Switched(commandMode, starts, stops)
      {
        var m := ModeOf(starts[i]);
        if m == next || next == STOP {
          next := m;
        } else {
          return false;
        }
        assert starts[i..][1..] == starts[i + 1..];
        i := i + 1;
      }
      StepsGrow(Configured(), cfg, events, SwitchMode(next));
      commandMode := next;
      events := events + [SwitchMode(next)];
      return true;
    }
  }
}
