/** When a blocked `transfer_TxPDO` or `transfer_RxPDO` (soem_master.cpp) can return, when it must
    whatever else happens, and that it does if nobody stops the realtime thread. */
module Progress {
  import opened Mailbox
  import opened ProcessData
  import opened Bus

  /// How far the realtime thread is from a point of its cycle, in steps

  function Monus(a: nat, b: nat): nat {
    if a < b then 0 else a - b
  }

  function BoxSteps(b: Box): nat {
    12 + |b.rmbx| + |b.smbx|
  }

  function BoxLeft(b: Box, m: Mailbox.RtPc): nat {
    match m
    case RtAway => 0
    case ClearReceive => 1
    case SetUnread(_, _) => 2
    case CopyReceived(i, _, buf) => 3 + Monus(Min(|b.rmbx|, |buf|), i)
    case Receive(_) => 4 + |b.rmbx|
    case LoadRaw => 5 + |b.rmbx|
    case LoadUnread => 6 + |b.rmbx|
    case LoadReceive => 7 + |b.rmbx|
    case ClearSend => 8 + |b.rmbx|
    case Send(_) => 9 + |b.rmbx|
    case CopySend(i, buf) => 10 + |b.rmbx| + Monus(Min(|b.smbx|, |buf|), i)
    case LoadSend => 11 + |b.rmbx| + |b.smbx|
  }

  lemma BoxGetsCloser(size: nat, b: Box, m: Mailbox.RtPc, io: BusIo)
    requires !m.RtAway?
    ensures var (b', m') := RtStep(size, b, m, io);
            BoxLeft(b', m') < BoxLeft(b, m) && |b'.rmbx| == |b.rmbx| && |b'.smbx| == |b.smbx|
  {
  }

  function MailSteps(boxes: seq<Box>, k: nat): nat
    requires k <= |boxes|
    decreases |boxes| - k
  {
    if k == |boxes| then 0 else BoxSteps(boxes[k]) + MailSteps(boxes, k + 1)
  }

  lemma {:induction false} MailStepsOfSizes(boxes: seq<Box>, boxes': seq<Box>, k: nat)
    requires k <= |boxes| == |boxes'|
    requires forall j | k <= j < |boxes| :: BoxSteps(boxes[j]) == BoxSteps(boxes'[j])
    ensures MailSteps(boxes, k) == MailSteps(boxes', k)
    decreases |boxes| - k
  {
    if k < |boxes| {
      MailStepsOfSizes(boxes, boxes', k + 1);
    }
  }

  /** Steps from here to the end of the mailbox loop, for a thread in that loop. */
  function MailLeft(s: State): nat
    requires s.rt.Mail? && s.rt.k < |s.boxes|
  {
    BoxLeft(s.boxes[s.rt.k], s.rt.m) + MailSteps(s.boxes, s.rt.k + 1)
  }

  function OutLeft(s: State, o: OutRt): nat {
    match o
    case OutAway => 0
    case SendPd => 1
    case StoreRx => 2
    case CopyOut(i) => 3 + Monus(|s.output.region|, i)
    case LoadRx => 4 + |s.output.region|
  }

  function InLeft(s: State, n: InRt): nat {
    match n
    case InAway => 0
    case StoreTx => 1
    case CopyIn(i) => 2 + Monus(|s.input.region|, i)
    case LoadTx => 3 + |s.input.region|
    case ReceivePd => 4 + |s.input.region|
  }

  /** Steps to the next `while` test, for a thread inside a cycle. */
  function CycleLeft(s: State): nat
    requires s.rt.Mail? ==> s.rt.k < |s.boxes|
  {
    match s.rt
    case Outputs(o) => OutLeft(s, o) + InLeft(s, ReceivePd) + MailSteps(s.boxes, 0) + 1
    case Inputs(n) => InLeft(s, n) + MailSteps(s.boxes, 0) + 1
    case Mail(_, _) => MailLeft(s) + 1
    case EndCycle => 1
    case _ => 0
  }

  /** An upper bound on the realtime steps until the next service of `transfer_TxPDO`. */
  function InputRank(s: State): nat
    requires s.rt.Mail? ==> s.rt.k < |s.boxes|
  {
    var fromTop := 1 + OutLeft(s, LoadRx) + InLeft(s, ReceivePd);
    match s.rt
    case Outputs(o) => OutLeft(s, o) + InLeft(s, ReceivePd)
    case Inputs(n) => InLeft(s, n)
    case Start => 1 + fromTop
    case _ => CycleLeft(s) + fromTop
  }

  /** An upper bound on the realtime steps until the next service of `transfer_RxPDO`. */
  function OutputRank(s: State): nat
    requires s.rt.Mail? ==> s.rt.k < |s.boxes|
  {
    var fromTop := 1 + OutLeft(s, LoadRx);
    match s.rt
    case Outputs(o) => if o.SendPd? then CycleLeft(s) + fromTop else OutLeft(s, o)
    case Start => 1 + fromTop
    case _ => CycleLeft(s) + fromTop
  }

  /// Which waits end

  predicate InputWaiting(s: State) {
    s.ct == AwaitInput(WaitTx) && s.input.transfer
  }

  predicate OutputWaiting(s: State) {
    s.ct == AwaitOutput(WaitRx) && s.output.transfer
  }

  predicate MoreCycles(s: State) {
    !s.terminate && s.rt != Exit && s.rt != Done
  }

  /** The realtime thread is not past the input service of its last cycle. */
  predicate ServesInput(s: State) {
    MoreCycles(s) || s.rt.Outputs? || s.rt.Inputs?
  }

  /** The realtime thread is not past the output service of its last cycle. */
  predicate ServesOutput(s: State) {
    MoreCycles(s) || (s.rt.Outputs? && !s.rt.o.SendPd?)
  }

  predicate NoStop(schedule: seq<Action>) {
    forall a | a in schedule :: !a.Stop?
  }

  function RealtimeSteps(schedule: seq<Action>): nat {
    if schedule == [] then 0
    else (if schedule[0].Realtime? then 1 else 0) + RealtimeSteps(schedule[1..])
  }

  lemma MailGetsCloser(s: State, io: BusIo)
    requires s.rt.Mail? && !s.rt.m.RtAway? && s.rt.k < |s.boxes|
    ensures var s' := RtApply(s, io);
            && (s'.rt.Mail? ==> s'.rt.k < |s'.boxes| && MailLeft(s') < MailLeft(s))
            && (s'.rt.Mail? || s'.rt == EndCycle)
            && MailSteps(s'.boxes, 0) == MailSteps(s.boxes, 0)
  {
    var k := s.rt.k;
    var s' := RtApply(s, io);
    BoxGetsCloser(s.size, s.boxes[k], s.rt.m, io);
    MailStepsOfSizes(s.boxes, s'.boxes, 0);
    MailStepsOfSizes(s.boxes, s'.boxes, k + 1);
    if s'.rt.Mail? && s'.rt.k == k + 1 {
      MailStepsOfSizes(s.boxes, s'.boxes, k + 2);
    }
  }

  /** What the countdown needs of the state. */
  predicate Countable(s: State) {
    && |s.output.working| == |s.output.region|
    && |s.input.working| == |s.input.region|
    && (s.rt.Outputs? ==> !s.rt.o.OutAway?)
    && (s.rt.Inputs? ==> !s.rt.n.InAway?)
    && (s.rt.Mail? ==> !s.rt.m.RtAway? && s.rt.k < |s.boxes|)
  }

  lemma InvCountable(s: State)
    requires Bus.Inv(s)
    ensures Countable(s)
  {
  }

  lemma CountableKept(s: State, io: BusIo)
    requires Countable(s)
    ensures var s' := RtApply(s, io);
            && Countable(s')
            && |s'.output.region| == |s.output.region| && |s'.input.region| == |s.input.region|
            && (!s.rt.Mail? ==> s'.boxes == s.boxes)
  {
  }

  /** One step of the cycle, whichever part it is in, and what it leaves of the next parts. */
  lemma CycleGetsCloser(s: State, io: BusIo)
    requires Countable(s)
    ensures var s' := RtApply(s, io);
            && Countable(s')
            && |s'.output.region| == |s.output.region| && |s'.input.region| == |s.input.region|
            && MailSteps(s'.boxes, 0) == MailSteps(s.boxes, 0)
            && (s.rt.Outputs? ==> (s'.rt.Outputs? && OutLeft(s', s'.rt.o) < OutLeft(s, s.rt.o)) || s'.rt == Inputs(ReceivePd))
            && (s.rt.Inputs? ==> (s'.rt.Inputs? && InLeft(s', s'.rt.n) < InLeft(s, s.rt.n)) || s'.rt == FirstMail(s', 0))
            && (s.rt.Mail? ==> (s'.rt.Mail? && MailLeft(s') < MailLeft(s)) || s'.rt == EndCycle)
  {
    CountableKept(s, io);
    if s.rt.Mail? {
      MailGetsCloser(s, io);
    }
  }

  /** From the last input service to the loop test. */
  lemma TailGetsCloser(s: State, io: BusIo)
    requires Countable(s)
    ensures var s' := RtApply(s, io);
            (s.rt.Outputs? || s.rt.Inputs? || s.rt.Mail? || s.rt.EndCycle? ==> CycleLeft(s') < CycleLeft(s))
  {
    CycleGetsCloser(s, io);
  }

  lemma InputGetsCloser(s: State, io: BusIo)
    requires Countable(s) && InputWaiting(s) && ServesInput(s)
    ensures var s' := RtApply(s, io);
            || !s'.input.transfer
            || (InputWaiting(s') && ServesInput(s') && Countable(s') && InputRank(s') < InputRank(s))
  {
    CycleGetsCloser(s, io);
    TailGetsCloser(s, io);
  }

  lemma OutputGetsCloser(s: State, io: BusIo)
    requires Countable(s) && OutputWaiting(s) && ServesOutput(s)
    ensures var s' := RtApply(s, io);
            || !s'.output.transfer
            || (OutputWaiting(s') && ServesOutput(s') && Countable(s') && OutputRank(s') < OutputRank(s))
  {
    CycleGetsCloser(s, io);
    TailGetsCloser(s, io);
  }

  lemma NoStopTail(schedule: seq<Action>)
    requires NoStop(schedule) && schedule != []
    ensures !schedule[0].Stop? && NoStop(schedule[1..])
  {
    assert schedule[0] in schedule;
  }

  /** A waiting `transfer_TxPDO` whose service point still lies ahead is served: in every
      schedule without a further stop, once the realtime thread has had `InputRank` steps. */
  lemma {:induction false} InputIsServed(s: State, schedule: seq<Action>) returns (n: nat)
    requires Countable(s) && InputWaiting(s) && ServesInput(s)
    requires NoStop(schedule) && InputRank(s) < RealtimeSteps(schedule)
    ensures n <= |schedule| && !Exec(s, schedule[..n]).input.transfer
    decreases |schedule|
  {
    NoStopTail(schedule);
    var s' := Apply(s, schedule[0]);
    if schedule[0].Realtime? {
      InputGetsCloser(s, schedule[0].io);
    }
    if s'.input.transfer {
      var m := InputIsServed(s', schedule[1..]);
      n := m + 1;
      assert schedule[..n][1..] == schedule[1..][..m];
    } else {
      n := 1;
      assert Exec(s, schedule[..1]) == Exec(s', []);
    }
  }

  lemma {:induction false} OutputIsServed(s: State, schedule: seq<Action>) returns (n: nat)
    requires Countable(s) && OutputWaiting(s) && ServesOutput(s)
    requires NoStop(schedule) && OutputRank(s) < RealtimeSteps(schedule)
    ensures n <= |schedule| && !Exec(s, schedule[..n]).output.transfer
    decreases |schedule|
  {
    NoStopTail(schedule);
    var s' := Apply(s, schedule[0]);
    if schedule[0].Realtime? {
      OutputGetsCloser(s, schedule[0].io);
    }
    if s'.output.transfer {
      var m := OutputIsServed(s', schedule[1..]);
      n := m + 1;
      assert schedule[..n][1..] == schedule[1..][..m];
    } else {
      n := 1;
      assert Exec(s, schedule[..1]) == Exec(s', []);
    }
  }

  /// The waits that never end

  lemma InputStaysUnserved(s: State, a: Action)
    requires InputWaiting(s) && !ServesInput(s)
    ensures InputWaiting(Apply(s, a)) && !ServesInput(Apply(s, a))
  {
  }

  lemma OutputStaysUnserved(s: State, a: Action)
    requires OutputWaiting(s) && !ServesOutput(s)
    ensures OutputWaiting(Apply(s, a)) && !ServesOutput(Apply(s, a))
  {
  }

  lemma {:induction false} InputIsStranded(s: State, schedule: seq<Action>)
    requires InputWaiting(s) && !ServesInput(s)
    ensures InputWaiting(Exec(s, schedule))
    decreases |schedule|
  {
    if schedule != [] {
      InputStaysUnserved(s, schedule[0]);
      InputIsStranded(Apply(s, schedule[0]), schedule[1..]);
    }
  }

  lemma {:induction false} OutputIsStranded(s: State, schedule: seq<Action>)
    requires OutputWaiting(s) && !ServesOutput(s)
    ensures OutputWaiting(Exec(s, schedule))
    decreases |schedule|
  {
    if schedule != [] {
      OutputStaysUnserved(s, schedule[0]);
      OutputIsStranded(Apply(s, schedule[0]), schedule[1..]);
    }
  }

  function Ticks(io: BusIo, n: nat): (r: seq<Action>)
    ensures |r| == n && NoStop(r) && RealtimeSteps(r) == n
  {
    if n == 0 then [] else [Realtime(io)] + Ticks(io, n - 1)
  }

  /** A waiting `transfer_TxPDO` can still return if and only if the realtime thread has not
      passed the input service of its last cycle. */
  lemma InputCanReturnIff(s: State)
    requires Bus.Inv(s) && InputWaiting(s)
    ensures ServesInput(s) <==> exists schedule :: !InputWaiting(Exec(s, schedule))
  {
    InvCountable(s);
    if ServesInput(s) {
      var schedule := Ticks(BusIo(0, []), InputRank(s) + 1);
      var n := InputIsServed(s, schedule);
      assert !InputWaiting(Exec(s, schedule[..n]));
    } else {
      forall schedule ensures InputWaiting(Exec(s, schedule)) {
        InputIsStranded(s, schedule);
      }
    }
  }

  /** A waiting `transfer_RxPDO` can still return if and only if the realtime thread has not
      passed the output service of its last cycle. */
  lemma OutputCanReturnIff(s: State)
    requires Bus.Inv(s) && OutputWaiting(s)
    ensures ServesOutput(s) <==> exists schedule :: !OutputWaiting(Exec(s, schedule))
  {
    InvCountable(s);
    if ServesOutput(s) {
      var schedule := Ticks(BusIo(0, []), OutputRank(s) + 1);
      var n := OutputIsServed(s, schedule);
      assert !OutputWaiting(Exec(s, schedule[..n]));
    } else {
      forall schedule ensures OutputWaiting(Exec(s, schedule)) {
        OutputIsStranded(s, schedule);
      }
    }
  }

  /// The waits that end even if the thread is stopped

  /** The realtime thread is in a cycle, before its input service. */
  predicate MustServeInput(s: State) {
    s.rt.Outputs? || s.rt.Inputs?
  }

  /** The realtime thread is in a cycle, before its output service. */
  predicate MustServeOutput(s: State) {
    s.rt.Outputs? && !s.rt.o.SendPd?
  }

  /** Some number of realtime steps is enough in every schedule. */
  ghost predicate InputAlwaysServed(s: State) {
    exists rank: nat :: InputServedWithin(s, rank)
  }

  ghost predicate InputServedWithin(s: State, rank: nat) {
    forall schedule | rank < RealtimeSteps(schedule) :: InputServedIn(s, schedule)
  }

  ghost predicate InputServedIn(s: State, schedule: seq<Action>) {
    exists n: nat :: n <= |schedule| && !Exec(s, schedule[..n]).input.transfer
  }

  ghost predicate OutputAlwaysServed(s: State) {
    exists rank: nat :: OutputServedWithin(s, rank)
  }

  ghost predicate OutputServedWithin(s: State, rank: nat) {
    forall schedule | rank < RealtimeSteps(schedule) :: OutputServedIn(s, schedule)
  }

  ghost predicate OutputServedIn(s: State, schedule: seq<Action>) {
    exists n: nat :: n <= |schedule| && !Exec(s, schedule[..n]).output.transfer
  }

  lemma InputStaysAhead(s: State, a: Action)
    requires Countable(s) && InputWaiting(s) && MustServeInput(s)
    ensures var s' := Apply(s, a);
            || !s'.input.transfer
            || (InputWaiting(s') && MustServeInput(s') && Countable(s')
                && InputRank(s') <= InputRank(s) && (a.Realtime? ==> InputRank(s') < InputRank(s)))
  {
    if a.Realtime? {
      InputGetsCloser(s, a.io);
    }
  }

  lemma OutputStaysAhead(s: State, a: Action)
    requires Countable(s) && OutputWaiting(s) && MustServeOutput(s)
    ensures var s' := Apply(s, a);
            || !s'.output.transfer
            || (OutputWaiting(s') && MustServeOutput(s') && Countable(s')
                && OutputRank(s') <= OutputRank(s) && (a.Realtime? ==> OutputRank(s') < OutputRank(s)))
  {
    if a.Realtime? {
      OutputGetsCloser(s, a.io);
    }
  }

  lemma {:induction false} InputIsServedRegardless(s: State, schedule: seq<Action>) returns (n: nat)
    requires Countable(s) && InputWaiting(s) && MustServeInput(s) && InputRank(s) < RealtimeSteps(schedule)
    ensures n <= |schedule| && !Exec(s, schedule[..n]).input.transfer
    decreases |schedule|
  {
    var s' := Apply(s, schedule[0]);
    InputStaysAhead(s, schedule[0]);
    if s'.input.transfer {
      var m := InputIsServedRegardless(s', schedule[1..]);
      n := m + 1;
      assert schedule[..n][1..] == schedule[1..][..m];
    } else {
      n := 1;
      assert Exec(s, schedule[..1]) == Exec(s', []);
    }
  }

  lemma {:induction false} OutputIsServedRegardless(s: State, schedule: seq<Action>) returns (n: nat)
    requires Countable(s) && OutputWaiting(s) && MustServeOutput(s) && OutputRank(s) < RealtimeSteps(schedule)
    ensures n <= |schedule| && !Exec(s, schedule[..n]).output.transfer
    decreases |schedule|
  {
    var s' := Apply(s, schedule[0]);
    OutputStaysAhead(s, schedule[0]);
    if s'.output.transfer {
      var m := OutputIsServedRegardless(s', schedule[1..]);
      n := m + 1;
      assert schedule[..n][1..] == schedule[1..][..m];
    } else {
      n := 1;
      assert Exec(s, schedule[..1]) == Exec(s', []);
    }
  }

  /** A stop right now, then nothing but the realtime thread. */
  function StopThenTicks(n: nat): (r: seq<Action>)
    ensures RealtimeSteps(r) == n
  {
    [Stop] + Ticks(BusIo(0, []), n)
  }

  lemma StopStrandsInput(s: State, rest: seq<Action>)
    requires InputWaiting(s) && !MustServeInput(s)
    ensures InputWaiting(Exec(s, [Stop] + rest))
    ensures !InputServedIn(s, [Stop] + rest)
  {
    var schedule := [Stop] + rest;
    forall n: nat | n <= |schedule|
      ensures Exec(s, schedule[..n]).input.transfer
    {
      if n > 0 {
        assert schedule[..n][1..] == rest[..n - 1];
        InputIsStranded(Apply(s, Stop), rest[..n - 1]);
      }
    }
    assert schedule[1..] == rest;
    InputIsStranded(Apply(s, Stop), rest);
  }

  lemma StopStrandsOutput(s: State, rest: seq<Action>)
    requires OutputWaiting(s) && !MustServeOutput(s)
    ensures OutputWaiting(Exec(s, [Stop] + rest))
    ensures !OutputServedIn(s, [Stop] + rest)
  {
    var schedule := [Stop] + rest;
    forall n: nat | n <= |schedule|
      ensures Exec(s, schedule[..n]).output.transfer
    {
      if n > 0 {
        assert schedule[..n][1..] == rest[..n - 1];
        OutputIsStranded(Apply(s, Stop), rest[..n - 1]);
      }
    }
    assert schedule[1..] == rest;
    OutputIsStranded(Apply(s, Stop), rest);
  }

  /** A waiting `transfer_TxPDO` is served in every schedule, stops or not, that gives the realtime
      thread enough steps, if and only if that thread is in a cycle and not past its input service;
      otherwise a stop strands the wait, whatever follows. */
  lemma InputMustReturnIff(s: State)
    requires Bus.Inv(s) && InputWaiting(s)
    ensures MustServeInput(s) <==> InputAlwaysServed(s)
    ensures !MustServeInput(s) ==> forall rest :: InputWaiting(Exec(s, [Stop] + rest))
  {
    InvCountable(s);
    if MustServeInput(s) {
      forall schedule | InputRank(s) < RealtimeSteps(schedule)
        ensures InputServedIn(s, schedule)
      {
        var n := InputIsServedRegardless(s, schedule);
      }
      assert InputServedWithin(s, InputRank(s));
    } else {
      forall rank: nat
        ensures !InputServedWithin(s, rank)
      {
        StopStrandsInput(s, Ticks(BusIo(0, []), rank + 1));
        assert !InputServedIn(s, StopThenTicks(rank + 1));
      }
      forall rest
        ensures InputWaiting(Exec(s, [Stop] + rest))
      {
        StopStrandsInput(s, rest);
      }
    }
  }

  /** The same for `transfer_RxPDO` and the output service. */
  lemma OutputMustReturnIff(s: State)
    requires Bus.Inv(s) && OutputWaiting(s)
    ensures MustServeOutput(s) <==> OutputAlwaysServed(s)
    ensures !MustServeOutput(s) ==> forall rest :: OutputWaiting(Exec(s, [Stop] + rest))
  {
    InvCountable(s);
    if MustServeOutput(s) {
      forall schedule | OutputRank(s) < RealtimeSteps(schedule)
        ensures OutputServedIn(s, schedule)
      {
        var n := OutputIsServedRegardless(s, schedule);
      }
      assert OutputServedWithin(s, OutputRank(s));
    } else {
      forall rank: nat
        ensures !OutputServedWithin(s, rank)
      {
        StopStrandsOutput(s, Ticks(BusIo(0, []), rank + 1));
        assert !OutputServedIn(s, StopThenTicks(rank + 1));
      }
      forall rest
        ensures OutputWaiting(Exec(s, [Stop] + rest))
      {
        StopStrandsOutput(s, rest);
      }
    }
  }

  lemma {:induction false} NeverTerminates(s: State, schedule: seq<Action>)
    requires !s.terminate && NoStop(schedule)
    ensures !Exec(s, schedule).terminate
    decreases |schedule|
  {
    if schedule != [] {
      NoStopTail(schedule);
      NeverTerminates(Apply(s, schedule[0]), schedule[1..]);
    }
  }

  /** Without a stop every transfer returns: in every run, a call that is waiting is served
      within a bounded number of realtime steps, however the threads interleave. */
  lemma TransfersReturn(s: State, schedule: seq<Action>, further: seq<Action>) returns (n: nat)
    requires Init(s) && NoStop(schedule) && NoStop(further)
    requires var e := Exec(s, schedule);
             && (InputWaiting(e) || OutputWaiting(e))
             && (e.rt.Mail? ==> e.rt.k < |e.boxes|)
             && InputRank(e) + OutputRank(e) < RealtimeSteps(further)
    ensures n <= |further|
    ensures var e := Exec(s, schedule);
            var later := Exec(e, further[..n]);
            && (InputWaiting(e) ==> !later.input.transfer)
            && (OutputWaiting(e) ==> !later.output.transfer)
  {
    InitInv(s);
    RunKeepsInv(s, schedule);
    NeverTerminates(s, schedule);
    var e := Exec(s, schedule);
    InvCountable(e);
    if InputWaiting(e) {
      n := InputIsServed(e, further);
    } else {
      n := OutputIsServed(e, further);
    }
  }

  /// Runs that strand a transfer, on an empty bus

  function EmptyBus(rt: Bus.RtPc, ct: Bus.CtPc): State {
    State(0, true, false, Output(false, [], [], [], [], [], [], []),
          Input(false, [], [], [], [], [], []), [], rt, ct)
  }

  /** The realtime thread starts, the control thread makes one call up to its wait, another thread
      stops the master, and the realtime thread finds that out. */
  function StrandingSchedule(call: Choice): seq<Action> {
    var tick, go := Realtime(BusIo(1, [])), Control(call);
    [tick, go, go, go, go, Stop, tick]
  }

  lemma SevenSteps(s: State, a: seq<Action>)
    requires |a| == 7
    ensures Exec(s, a)
         == Apply(Apply(Apply(Apply(Apply(Apply(Apply(s, a[0]), a[1]), a[2]), a[3]), a[4]), a[5]), a[6])
  {
    var b := a[1..];
    var c := b[1..];
    var d := c[1..];
    var e := d[1..];
    var f := e[1..];
    var g := f[1..];
    var s1 := Apply(s, a[0]);
    var s2 := Apply(s1, b[0]);
    var s3 := Apply(s2, c[0]);
    var s4 := Apply(s3, d[0]);
    var s5 := Apply(s4, e[0]);
    var s6 := Apply(s5, f[0]);
    assert g[1..] == [];
    assert Exec(s6, g) == Apply(s6, g[0]);
    assert Exec(s5, f) == Exec(s6, g);
    assert Exec(s4, e) == Exec(s5, f);
    assert Exec(s3, d) == Exec(s4, e);
    assert Exec(s2, c) == Exec(s3, d);
    assert Exec(s1, b) == Exec(s2, c);
  }

  /** A stop from another thread, after the two loads of `transfer_TxPDO`, strands it. */
  lemma StopCanStrandInput() returns (s: State, schedule: seq<Action>)
    ensures Init(s) && |schedule| == 7 && !NoStop(schedule)
    ensures InputWaiting(Exec(s, schedule)) && !ServesInput(Exec(s, schedule))
  {
    s := EmptyBus(Start, Idle).(running := false);
    schedule := StrandingSchedule(CallRead);
    var s2 := EmptyBus(Top, TestRunning(true));
    var s4 := EmptyBus(Top, AwaitInput(RaiseTx));
    assert Apply(Apply(s, schedule[0]), schedule[1]) == s2;
    assert Apply(Apply(s2, schedule[2]), schedule[3]) == s4;
    assert schedule[5] == Stop;
    SevenSteps(s, schedule);
  }

  /** The same for `transfer_RxPDO`. */
  lemma StopCanStrandOutput() returns (s: State, schedule: seq<Action>)
    ensures Init(s) && |schedule| == 7 && !NoStop(schedule)
    ensures OutputWaiting(Exec(s, schedule)) && !ServesOutput(Exec(s, schedule))
  {
    s := EmptyBus(Start, Idle).(running := false);
    schedule := StrandingSchedule(CallWrite);
    var s2 := EmptyBus(Top, TestRunning(false));
    var s4 := EmptyBus(Top, AwaitOutput(RaiseRx));
    assert Apply(Apply(s, schedule[0]), schedule[1]) == s2;
    assert Apply(Apply(s2, schedule[2]), schedule[3]) == s4;
    assert schedule[5] == Stop;
    SevenSteps(s, schedule);
  }
}
