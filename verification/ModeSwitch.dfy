/** The command-mode switch of the TMCM1610 module (tmcm1610.cpp, `prepare_command_mode_switch` and
    `perform_command_mode_switch`) and its closed form. */
module ModeSwitch {
  import opened Options
  import opened Tmcm1610

  /** `command_mode_to_claim` */
  function ClaimOf(mode: Mode): string {
    match mode
    case POSITION => "drive/position"
    case VELOCITY => "drive/velocity"
    case EFFORT => "drive/effort"
    case _ => "<none>"
  }

  /** `claim_to_command_mode` */
  function ModeOf(claim: string): Mode {
    if claim == "drive/position" then POSITION
    else if claim == "drive/velocity" then VELOCITY
    else if claim == "drive/effort" then EFFORT
    else STOP
  }

  /** Each claim stands for one mode. */
  lemma ClaimsAreModes(mode: Mode)
    requires mode == EFFORT || mode == VELOCITY || mode == POSITION
    ensures ModeOf(ClaimOf(mode)) == mode
  {
  }

  /** And every other claim for none. */
  lemma OtherClaimsStop(claim: string)
    requires claim != ClaimOf(EFFORT) && claim != ClaimOf(VELOCITY) && claim != ClaimOf(POSITION)
    ensures ModeOf(claim) == STOP
  {
  }

  function ModesOf(claims: seq<string>): seq<Mode> {
    seq(|claims|, i requires 0 <= i < |claims| => ModeOf(claims[i]))
  }

  /** The mode the switch starts from: stopped if the current mode's claim is. */
  function Base(mode: Mode, stops: seq<string>): Mode {
    if ClaimOf(mode) in stops then STOP else mode
  }

  /** What the start claims make of `next`, one after the other; `None` is an error. */
  function Decide(next: Mode, starts: seq<string>): Option<Mode>
    decreases |starts|
  {
    if starts == [] then Some(next)
    else
      var m := ModeOf(starts[0]);
      if m == next || next == STOP then Decide(m, starts[1..]) else None
  }

  /** What a switch makes of a module in `mode`. */
  function Switched(mode: Mode, starts: seq<string>, stops: seq<string>): Option<Mode> {
    Decide(Base(mode, stops), starts)
  }

  /** The sequence stops, then keeps to one mode: STOP* m*. */
  predicate StopsThenOne(xs: seq<Mode>) {
    forall i, j | 0 <= i < j < |xs| :: xs[i] == STOP || xs[i] == xs[j]
  }

  /** The loop succeeds exactly if the base and the start modes stop and then keep to one mode,
      and it ends in the last of them. */
  lemma {:induction false} DecideClosedForm(base: Mode, starts: seq<string>)
    ensures Decide(base, starts).Some? <==> StopsThenOne([base] + ModesOf(starts))
    ensures Decide(base, starts).Some? ==>
              Decide(base, starts).value == if starts == [] then base else ModeOf(starts[|starts| - 1])
    decreases |starts|
  {
    if starts != [] {
      var m := ModeOf(starts[0]);
      var xs, rest := [base] + ModesOf(starts), [m] + ModesOf(starts[1..]);
      DecideClosedForm(m, starts[1..]);
      assert xs == [base] + rest;
      assert xs[1] == m;
      if (m == base || base == STOP) && StopsThenOne(rest) {
        forall i, j | 0 <= i < j < |xs|
          ensures xs[i] == STOP || xs[i] == xs[j]
        {
          if i == 0 {
            assert xs[j] == rest[j - 1] && rest[0] == m;
          } else {
            assert xs[i] == rest[i - 1] && xs[j] == rest[j - 1];
          }
        }
      }
      if StopsThenOne(xs) {
        assert xs[0] == STOP || xs[0] == xs[1];
        forall i, j | 0 <= i < j < |rest|
          ensures rest[i] == STOP || rest[i] == rest[j]
        {
          assert rest[i] == xs[i + 1] && rest[j] == xs[j + 1];
        }
      }
    }
  }

  lemma StopsThenOneFrom(base: Mode, ms: seq<Mode>)
    ensures StopsThenOne([base] + ms)
       <==> if base == STOP then StopsThenOne(ms) else forall i | 0 <= i < |ms| :: ms[i] == base
  {
    var xs := [base] + ms;
    assert forall i | 0 <= i < |ms| :: xs[i + 1] == ms[i];
    assert forall i | 0 < i < |xs| :: xs[i] == ms[i - 1];
    if StopsThenOne(xs) && base != STOP {
      forall i | 0 <= i < |ms|
        ensures ms[i] == base
      {
        assert xs[0] == xs[i + 1];
      }
    } else if StopsThenOne(xs) {
      forall i, j | 0 <= i < j < |ms|
        ensures ms[i] == STOP || ms[i] == ms[j]
      {
        assert xs[i + 1] == STOP || xs[i + 1] == xs[j + 1];
      }
    }
  }

  /** A switch succeeds exactly if: starting from a mode that is not stopped, every start claim
      is of that mode; starting stopped, the start claims stop and then keep to one mode. */
  lemma SwitchClosedForm(mode: Mode, starts: seq<string>, stops: seq<string>)
    ensures var base := Base(mode, stops);
            Switched(mode, starts, stops).Some?
            <==> if base == STOP then StopsThenOne(ModesOf(starts))
                 else forall i | 0 <= i < |starts| :: ModesOf(starts)[i] == base
  {
    var base := Base(mode, stops);
    DecideClosedForm(base, starts);
    StopsThenOneFrom(base, ModesOf(starts));
  }

  /** A slave as the resolver sees it: one that keeps the defaults of the plugin interface, which
      accept every switch and do nothing, or a TMCM1610 in its command mode. */
  datatype Slave = Passive | Drive(mode: Mode)

  /** What a switch makes of a slave; `None` is an error. */
  function SwitchedSlave(slave: Slave, starts: seq<string>, stops: seq<string>): Option<Slave> {
    match slave
    case Passive => Some(Passive)
    case Drive(mode) =>
      match Switched(mode, starts, stops)
      case Some(next) => Some(Drive(next))
      case None => None
  }

  /** The switches a slave accepts, in closed form. */
  predicate Accepts(slave: Slave, starts: seq<string>, stops: seq<string>) {
    slave.Drive? ==> StopsThenOne([Base(slave.mode, stops)] + ModesOf(starts))
  }

  /** What a slave is after a switch it may have refused. */
  function Outcome(slave: Slave, starts: seq<string>, stops: seq<string>): Slave {
    if slave.Passive? || !Accepts(slave, starts, stops) then slave
    else Drive(if starts == [] then Base(slave.mode, stops) else ModeOf(starts[|starts| - 1]))
  }

  lemma SlaveClosedForm(slave: Slave, starts: seq<string>, stops: seq<string>)
    ensures SwitchedSlave(slave, starts, stops).Some? <==> Accepts(slave, starts, stops)
    ensures SwitchedSlave(slave, starts, stops).Some? ==>
              SwitchedSlave(slave, starts, stops).value == Outcome(slave, starts, stops)
  {
    if slave.Drive? {
      DecideClosedForm(Base(slave.mode, stops), starts);
    }
  }
}
