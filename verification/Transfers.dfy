/** The process-data transfers a call makes (soem_master.cpp, soem_driver.cpp), and what the plugins
    do to the shared data meanwhile. */
module Transfers {
  import opened Mailbox
  import opened ProcessData
  import opened Bus
  import opened Progress
  import opened Order
  import opened Calls

  /// A call transfers process data exactly if it finds the master running and not stopped

  /** What a call has found so far, and at which step: nothing yet, the master not running, the master
      running (`t`), and then stopped or not (`u`). */
  datatype Tests =
    | NotTested
    | NotRunning(t: nat)
    | Running(t: nat)
    | Stopping(t: nat, u: nat)
    | Going(t: nat, u: nat)

  ghost predicate FoundRunning(s: State, schedule: seq<Action>, reading: bool, t: nat, running: bool)
    requires t < |schedule|
  {
    && StateAt(s, schedule, t).ct == TestRunning(reading) && schedule[t].Control?
    && StateAt(s, schedule, t).running == running
  }

  ghost predicate FoundTerminate(s: State, schedule: seq<Action>, reading: bool, u: nat, terminate: bool)
    requires u < |schedule|
  {
    && StateAt(s, schedule, u).ct == TestTerminate(reading) && schedule[u].Control?
    && StateAt(s, schedule, u).terminate == terminate
  }

  /** The tests lie between `a` and `x`, in this order. */
  ghost predicate Tested(s: State, schedule: seq<Action>, reading: bool, a: nat, x: nat, tests: Tests)
    requires x <= |schedule|
  {
    match tests
    case NotTested => true
    case NotRunning(t) => a < t < x && FoundRunning(s, schedule, reading, t, false)
    case Running(t) => a < t < x && FoundRunning(s, schedule, reading, t, true)
    case Stopping(t, u) =>
      a < t < u < x && FoundRunning(s, schedule, reading, t, true) && FoundTerminate(s, schedule, reading, u, true)
    case Going(t, u) =>
      a < t < u < x && FoundRunning(s, schedule, reading, t, true) && FoundTerminate(s, schedule, reading, u, false)
  }

  /** Where a call stands that has found `tests`. */
  predicate Stands(reading: bool, ct: Bus.CtPc, tests: Tests) {
    match ct
    case Idle => tests.NotRunning? || tests.Stopping? || tests.Going?
    case TestRunning(r) => r == reading && tests.NotTested?
    case TestTerminate(r) => r == reading && tests.Running?
    case AwaitInput(pc) => reading && tests.Going? && (pc == RaiseTx || pc == WaitTx)
    case AwaitOutput(pc) => !reading && tests.Going? && (pc == RaiseRx || pc == WaitRx)
    case Visit(r, _, m) =>
      r == reading == ReadHalf(m) && if r then tests.NotRunning? || tests.Stopping? || tests.Going? else tests.NotTested?
  }

  /** The transfer has been requested. */
  predicate Raised(ct: Bus.CtPc, tests: Tests) {
    tests.Going? && ct != AwaitInput(RaiseTx) && ct != AwaitOutput(RaiseRx)
  }

  /** What that has done to the histories of `s0`: of the handed images, and of the deliveries and the
      one that is due. */
  ghost predicate HandedOver(s0: State, s: State, reading: bool, raised: bool) {
    && s.output.handed == s0.output.handed + (if raised && !reading then [s.output.working] else [])
    && |s.input.delivered| + (if s.input.transfer then 1 else 0)
       == |s0.input.delivered| + (if s0.input.transfer then 1 else 0) + (if raised && reading then 1 else 0)
  }

  function NextTests(tests: Tests, s: State, a: Action, x: nat): Tests {
    if !a.Control? then tests
    else if s.ct.TestRunning? then if s.running then Running(x) else NotRunning(x)
    else if s.ct.TestTerminate? && tests.Running? then
      if s.terminate then Stopping(tests.t, x) else Going(tests.t, x)
    else tests
  }

  lemma RtKeepsHanded(s0: State, s: State, io: BusIo, reading: bool, raised: bool)
    requires InInv(s.input, InRtAt(s), InCtAt(s)) && HandedOver(s0, s, reading, raised)
    ensures HandedOver(s0, RtApply(s, io), reading, raised) && RtApply(s, io).ct == s.ct
  {
  }

  lemma CtHandsOver(s0: State, s: State, choice: Choice, reading: bool, tests: Tests, x: nat)
    requires s.ct != Idle && Stands(reading, s.ct, tests) && InPlace(s) && InInv(s.input, InRtAt(s), InCtAt(s))
    requires HandedOver(s0, s, reading, Raised(s.ct, tests))
    ensures var s', tests' := CtApply(s, choice), NextTests(tests, s, Control(choice), x);
            Stands(reading, s'.ct, tests') && HandedOver(s0, s', reading, Raised(s'.ct, tests'))
  {
  }

  lemma CallStands(s: State, reading: bool)
    requires s.ct == Idle
    ensures var s' := CtApply(s, if reading then CallRead else CallWrite);
            Stands(reading, s'.ct, NotTested) && HandedOver(s, s', reading, Raised(s'.ct, NotTested))
  {
  }

  lemma InputHolds(s: State)
    requires Bus.Inv(s)
    ensures InInv(s.input, InRtAt(s), InCtAt(s)) && OutInv(s.output, OutRtAt(s), OutCtAt(s))
  {
  }

  lemma HandOverStep(s0: State, s: State, a: Action, reading: bool, tests: Tests, x: nat)
    requires Bus.Inv(s) && InPlace(s) && s.ct != Idle && Stands(reading, s.ct, tests)
    requires HandedOver(s0, s, reading, Raised(s.ct, tests))
    ensures var s', tests' := Apply(s, a), NextTests(tests, s, a, x);
            Stands(reading, s'.ct, tests') && HandedOver(s0, s', reading, Raised(s'.ct, tests'))
  {
    InputHolds(s);
    match a {
      case Realtime(io) => RtKeepsHanded(s0, s, io, reading, Raised(s.ct, tests));
      case Control(choice) => CtHandsOver(s0, s, choice, reading, tests, x);
      case Stop =>
    }
  }

  lemma TestedLater(s: State, schedule: seq<Action>, reading: bool, a: nat, x: nat, tests: Tests)
    requires a < x < |schedule| && Tested(s, schedule, reading, a, x, tests)
    requires Stands(reading, StateAt(s, schedule, x).ct, tests)
    ensures Tested(s, schedule, reading, a, x + 1, NextTests(tests, StateAt(s, schedule, x), schedule[x], x))
  {
  }

  /** All that is known of a call at step `x`. */
  ghost predicate SoFar(s: State, schedule: seq<Action>, reading: bool, a: nat, x: nat, tests: Tests)
    requires a <= x <= |schedule|
  {
    var e := StateAt(s, schedule, x);
    && Tested(s, schedule, reading, a, x, tests) && Stands(reading, e.ct, tests)
    && HandedOver(StateAt(s, schedule, a), e, reading, Raised(e.ct, tests))
  }

  lemma SoFarGrows(s: State, schedule: seq<Action>, reading: bool, a: nat, x: nat, tests: Tests)
    requires Init(s) && a < x < |schedule| && StateAt(s, schedule, x).ct != Idle
    requires SoFar(s, schedule, reading, a, x, tests)
    ensures SoFar(s, schedule, reading, a, x + 1, NextTests(tests, StateAt(s, schedule, x), schedule[x], x))
  {
    StatesKeepInv(s, schedule, x);
    StatesInPlace(s, schedule, x);
    StatesFollow(s, schedule, x);
    HandOverStep(StateAt(s, schedule, a), StateAt(s, schedule, x), schedule[x], reading, tests, x);
    TestedLater(s, schedule, reading, a, x, tests);
  }

  lemma SoFarBegins(s: State, schedule: seq<Action>, reading: bool, a: nat)
    requires InCall(s, schedule, reading, a, a + 1)
    ensures SoFar(s, schedule, reading, a, a + 1, NotTested)
  {
    StatesFollow(s, schedule, a);
    CallStands(StateAt(s, schedule, a), reading);
  }

  lemma {:induction false} TransferSoFar(s: State, schedule: seq<Action>, reading: bool, a: nat, x: nat) returns (tests: Tests)
    requires Init(s) && InCall(s, schedule, reading, a, x)
    ensures SoFar(s, schedule, reading, a, x, tests)
    decreases x
  {
    if x == a + 1 {
      tests := NotTested;
      SoFarBegins(s, schedule, reading, a);
    } else {
      var before := TransferSoFar(s, schedule, reading, a, x - 1);
      tests := NextTests(before, StateAt(s, schedule, x - 1), schedule[x - 1], x - 1);
      SoFarGrows(s, schedule, reading, a, x - 1, before);
    }
  }

  /** What a returned call has transferred: nothing, or one input image delivered, or one output image,
      the working set, handed over and captured by the realtime thread. */
  ghost predicate Transferred(s0: State, s: State, reading: bool, done: bool) {
    && s.output.handed == s0.output.handed + (if done && !reading then [s.output.working] else [])
    && s.output.captured == s.output.handed
    && |s.input.delivered| == |s0.input.delivered| + (if done && reading then 1 else 0)
  }

  /** A call that has returned has tested whether the master runs and, if so, whether it is to stop;
      it has transferred process data, and waited until that was served, if and only if the first
      was found and not the second. */
  lemma CallTransfersIff(s: State, schedule: seq<Action>, reading: bool, a: nat, b: nat) returns (tests: Tests)
    requires Init(s) && InCall(s, schedule, reading, a, b) && StateAt(s, schedule, b).ct == Idle
    ensures Tested(s, schedule, reading, a, b, tests) && !tests.NotTested? && !tests.Running?
    ensures Transferred(StateAt(s, schedule, a), StateAt(s, schedule, b), reading, tests.Going?)
  {
    tests := TransferSoFar(s, schedule, reading, a, b);
    StatesKeepInv(s, schedule, a);
    StatesKeepInv(s, schedule, b);
    InputHolds(StateAt(s, schedule, a));
    InputHolds(StateAt(s, schedule, b));
  }

  /// What plugins do

  /** A message is accepted at the end of the plugin's queue if there is room, and else dropped. */
  lemma PluginEnqueues(s: State, r: Request)
    requires AtPlugin(s.ct) && s.ct.k < |s.boxes|
    ensures var b, s' := s.boxes[s.ct.k], CtApply(s, Plugin(Enqueue(r)));
            var accepted := if |b.sendQueue| < 8 then [r] else [];
            && s'.boxes == s.boxes[s.ct.k := b.(sendQueue := b.sendQueue + accepted, accepted := b.accepted + accepted)]
            && s'.ct == s.ct
  {
    var b := s.boxes[s.ct.k];
    assert b.sendQueue + [] == b.sendQueue && b.accepted + [] == b.accepted;
  }

  /** All waiting replies are consumed, in order. */
  lemma PluginConsumes(s: State)
    requires AtPlugin(s.ct) && s.ct.k < |s.boxes|
    ensures var b, s' := s.boxes[s.ct.k], CtApply(s, Plugin(ConsumeAll));
            && s'.boxes == s.boxes[s.ct.k := b.(receiveQueue := [], consumed := b.consumed + b.receiveQueue)]
            && s'.ct == s.ct
  {
  }

  /** In `write` a plugin can set any byte of the output working set, and only there. */
  lemma PluginWrites(s: State, at: nat, value: Byte)
    requires at < |s.output.working|
    ensures var w, w' := s.output.working, CtApply(s, WriteByte(at, value)).output.working;
            && |w'| == |w|
            && forall x | 0 <= x < |w| ::
                 w'[x] == if x == at && s.ct.Visit? && s.ct.m.SlaveWrite? then value else w[x]
  {
  }
}
