/** What a controller gets from a TMCM1610 whose command interfaces it claims (tmcm1610.cpp): from
    the exported interface, through the mode switch, to the process data written. */
module Controlling {
  import opened Options
  import opened Units
  import opened Tmcm1610
  import opened ModeSwitch
  import opened Claims
  import opened Routing

  /** The index of each quantity in the module's array of command values. */
  const POSITION_CELL := 0
  const VELOCITY_CELL := 1
  const EFFORT_CELL := 2
  const GRIPPER_CELL := 3

  /** `export_command_interfaces` of the module. */
  function CommandInterfaces(): seq<Interface> {
    [Interface("drive", "position", POSITION_CELL),
     Interface("drive", "velocity", VELOCITY_CELL),
     Interface("drive", "effort", EFFORT_CELL),
     Interface("gripper", "position", GRIPPER_CELL)]
  }

  /** The value a cell holds; the gripper's is not used. */
  function ValueAt(commands: Commands, cell: nat): Value {
    match cell
    case 0 => commands.position
    case 1 => commands.velocity
    case 2 => commands.effort
    case _ => NotFinite
  }

  /** The mode and the setpoint in process data belong to the value in a cell. */
  predicate Carries(pdo: RxPdo, cell: nat, value: Value, cfg: Config, encoderTicks: nat) {
    if cell == POSITION_CELL then
      pdo == RxPdo(POSITION, match value case Finite(r) => PositionSetpoint(r, encoderTicks) case NotFinite => 0)
    else if cell == VELOCITY_CELL then
      pdo == RxPdo(VELOCITY, match value case Finite(r) => VelocitySetpoint(r) case NotFinite => 0)
    else
      pdo.mode == EFFORT
      && (cfg.torqueConstant != 0.0 ==>
            pdo.setpoint == match value case Finite(r) => EffortSetpoint(r, cfg.torqueConstant) case NotFinite => 0)
  }

  /** One call of `write` in context `c`. */
  function Written(c: Context, cfg: Config): Context {
    Step(Step(c, cfg, Update), cfg, Write)
  }

  /** What it writes last. */
  function LastWritten(c: Context): RxPdo
    requires c.outputs != []
  {
    c.outputs[|c.outputs| - 1].pdo
  }

  /** The mode of the interface that carries the value in `cell`. */
  function ModeOfCell(cell: nat): Mode {
    match cell
    case 0 => POSITION
    case 1 => VELOCITY
    case 2 => EFFORT
    case _ => STOP
  }

  /** The claim of an exported interface stands for the mode of the value the interface carries. */
  lemma InterfaceMode(x: Interface)
    requires x in CommandInterfaces() && x.cell != GRIPPER_CELL
    ensures ModeOf(FullName(x)) == ModeOfCell(x.cell) && ClaimOf(ModeOfCell(x.cell)) == FullName(x)
  {
    assert Key("drive", "position") == "drive/position";
    assert Key("drive", "velocity") == "drive/velocity";
    assert Key("drive", "effort") == "drive/effort";
  }

  lemma OneStart(mode: Mode, claim: string, stops: seq<string>)
    ensures Switched(mode, [claim], stops)
         == if ModeOf(claim) == Base(mode, stops) || Base(mode, stops) == STOP then Some(ModeOf(claim)) else None
  {
    var m := ModeOf(claim);
    assert [claim][0] == claim && [claim][1..] == [];
    assert Decide(m, [claim][1..]) == Some(m);
  }

  /** A stopped drive in motion that is asked to start one of its interfaces accepts, and the next
      write carries that interface's value, in its mode and unit, and no other value. */
  lemma StartedInterfaceIsWritten(c: Context, cfg: Config, x: Interface) returns (mode: Mode)
    requires InMotion(c.fsm.leaf) && c.mode == STOP
    requires x in CommandInterfaces() && x.cell != GRIPPER_CELL
    ensures Switched(c.mode, [FullName(x)], []) == Some(mode)
    ensures var c' := Written(Step(c, cfg, SwitchMode(mode)), cfg);
            && c'.outputs != [] && c'.mode == mode && InMotion(c'.fsm.leaf)
            && Carries(LastWritten(c'), x.cell, ValueAt(c.commands, x.cell), cfg, c.fsm.encoderTicks)
  {
    InterfaceMode(x);
    OneStart(c.mode, FullName(x), []);
    mode := ModeOfCell(x.cell);
    MotionWritesFollowMode(Step(c, cfg, SwitchMode(mode)), cfg);
  }

  /** A drive that is driven through one of its interfaces and asked to stop it accepts, and the
      next write is a stop. */
  lemma StoppedInterfaceStops(c: Context, cfg: Config, x: Interface)
    requires InMotion(c.fsm.leaf) && x in CommandInterfaces() && x.cell != GRIPPER_CELL
    requires Switched(STOP, [FullName(x)], []) == Some(c.mode)
    ensures Switched(c.mode, [], [FullName(x)]) == Some(STOP)
    ensures var c' := Written(Step(c, cfg, SwitchMode(STOP)), cfg);
            c'.outputs != [] && LastWritten(c') == RxPdo(STOP, 0)
  {
    InterfaceMode(x);
    OneStart(STOP, FullName(x), []);
    MotionWritesFollowMode(Step(c, cfg, SwitchMode(STOP)), cfg);
  }

  /** A drive that is driven through one of its interfaces refuses another one until the first is
      stopped, and accepts it together with that stop. */
  lemma InterfacesExclude(x: Interface, y: Interface, mode: Mode)
    requires x in CommandInterfaces() && y in CommandInterfaces() && x != y
    requires x.cell != GRIPPER_CELL && y.cell != GRIPPER_CELL
    requires Switched(STOP, [FullName(x)], []) == Some(mode)
    ensures Switched(mode, [FullName(y)], []) == None
    ensures Switched(mode, [FullName(y)], [FullName(x)]) == Switched(STOP, [FullName(y)], [])
  {
    InterfaceMode(x);
    InterfaceMode(y);
    OneStart(STOP, FullName(x), []);
    OneStart(mode, FullName(y), []);
    OneStart(mode, FullName(y), [FullName(x)]);
    OneStart(STOP, FullName(y), []);
  }
}
