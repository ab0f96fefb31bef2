/** The realtime thread (soem_master.cpp, `cyclic_task`) and the control thread
    (soem_driver.cpp, `read` and `write`) over everything they share: the two process-data
    handoffs and one mailbox exchange per slave.

    `Apply` runs one step of one thread; a schedule is any sequence of actions, so a statement
    about `Exec` for all schedules is a statement about every interleaving. */
module Bus {
  import opened Mailbox
  import opened ProcessData

  datatype RtPc =
    | Start
    | Top
    | Outputs(o: OutRt)
    | Inputs(n: InRt)
    | Mail(k: nat, m: Mailbox.RtPc)
    | EndCycle
    | Exit
    | Done

  datatype CtPc =
    | Idle
    | TestRunning(reading: bool)     // first load of transfer_TxPDO / transfer_RxPDO
    | TestTerminate(reading: bool)   // second load
    | AwaitInput(n: InCt)
    | Visit(reading: bool, k: nat, m: Mailbox.CtPc)
    | AwaitOutput(o: OutCt)

  datatype State = State(
    size: nat,               // bytes in the bus library's own mailbox buffers
    running: bool,
    terminate: bool,
    output: Output,
    input: Input,
    boxes: seq<Box>,
    rt: RtPc,
    ct: CtPc)

  /** What the control thread does where it has a choice. */
  datatype Choice =
    | CallRead
    | CallWrite
    | Plugin(act: PluginAct)
    | WriteByte(at: nat, value: Byte)

  /** `Stop` is the store of `stop()`, from whichever thread. */
  datatype Action = Realtime(io: BusIo) | Control(choice: Choice) | Stop

  function FirstMail(s: State, k: nat): RtPc {
    if k < |s.boxes| then Mail(k, LoadSend) else EndCycle
  }

  function RtApply(s: State, io: BusIo): State {
    match s.rt
    case Start => s.(running := true, rt := Top)
    case Top => s.(rt := if s.terminate then Exit else Outputs(LoadRx))
    case Outputs(pc) =>
      var (o, pc') := OutRtStep(s.output, pc);
      s.(output := o, rt := if pc'.OutAway? then Inputs(ReceivePd) else Outputs(pc'))
    case Inputs(pc) =>
      var (n, pc') := InRtStep(s.input, pc, io);
      s.(input := n, rt := if pc'.InAway? then FirstMail(s, 0) else Inputs(pc'))
    case Mail(k, m) =>
      if k < |s.boxes| then
        var (b, m') := RtStep(s.size, s.boxes[k], m, io);
        s.(boxes := s.boxes[k := b], rt := if m'.RtAway? then FirstMail(s, k + 1) else Mail(k, m'))
      else s.(rt := EndCycle)
    case EndCycle => s.(rt := Top)
    case Exit => s.(running := false, rt := Done)
    case Done => s
  }

  /** After the last slave, `read` returns and `write` goes on to `transfer_RxPDO`. */
  function NextVisit(s: State, reading: bool, k: nat): CtPc {
    if k < |s.boxes| then Visit(reading, k, if reading then TestUnread else SlaveWrite)
    else if reading then Idle
    else TestRunning(false)
  }

  /** What follows a transfer: the slaves' reads, or the return of `write`. */
  function AfterTransfer(s: State, reading: bool): CtPc {
    if reading then NextVisit(s, true, 0) else Idle
  }

  function ActOf(choice: Choice): PluginAct {
    if choice.Plugin? then choice.act else Return
  }

  function CtApply(s: State, choice: Choice): State {
    match s.ct
    case Idle =>
      (match choice
       case CallRead => s.(ct := TestRunning(true))
       case CallWrite => s.(ct := NextVisit(s, false, 0))
       case _ => s)
    case TestRunning(reading) =>
      s.(ct := if s.running then TestTerminate(reading) else AfterTransfer(s, reading))
    case TestTerminate(reading) =>
      s.(ct := if s.terminate then AfterTransfer(s, reading)
               else if reading then AwaitInput(RaiseTx) else AwaitOutput(RaiseRx))
    case AwaitInput(pc) =>
      var (n, pc') := InCtStep(s.input, pc);
      s.(input := n, ct := if pc'.InIdle? then AfterTransfer(s, true) else AwaitInput(pc'))
    case AwaitOutput(pc) =>
      var (o, pc') := OutCtStep(s.output, pc);
      s.(output := o, ct := if pc'.OutIdle? then AfterTransfer(s, false) else AwaitOutput(pc'))
    case Visit(reading, k, m) =>
      if m.SlaveWrite? && choice.WriteByte? then s.(output := Fill(s.output, choice.at, choice.value))
      else if k < |s.boxes| then
        var (b, m') := CtStep(s.boxes[k], m, ActOf(choice));
        s.(boxes := s.boxes[k := b],
           ct := if m'.CtAway? then NextVisit(s, reading, k + 1) else Visit(reading, k, m'))
      else s.(ct := NextVisit(s, reading, k))
  }

  function Apply(s: State, a: Action): State {
    match a
    case Realtime(io) => RtApply(s, io)
    case Control(choice) => CtApply(s, choice)
    case Stop => s.(terminate := true)
  }

  function Exec(s: State, schedule: seq<Action>): State
    decreases |schedule|
  {
    if schedule == [] then s else Exec(Apply(s, schedule[0]), schedule[1..])
  }

  /** The state in which `run` creates the realtime thread: working buffers as `start_bus` copied
      them, input data received since then while the bus was brought up, requests enqueued while
      the plugins were configured, flags clear, the realtime thread about to start. */
  ghost predicate Init(s: State) {
    && !s.running && !s.terminate
    && s.output == Output(false, s.output.initial, s.output.initial, s.output.initial, [], [], [], [])
    && s.input == Input(false, s.input.initial, s.input.region, s.input.initial, [], [], [])
    && |s.input.region| == |s.input.initial|
    && (forall k | 0 <= k < |s.boxes| :: Fresh(s.size, s.boxes[k]))
    && s.rt == Start && s.ct == Idle
  }

  /// Where the threads are, seen from one shared object

  function RtAt(s: State, k: nat): Mailbox.RtPc {
    if s.rt.Mail? && s.rt.k == k then s.rt.m else RtAway
  }

  function CtAt(s: State, k: nat): Mailbox.CtPc {
    if s.ct.Visit? && s.ct.k == k then s.ct.m else CtAway
  }

  function OutRtAt(s: State): OutRt {
    if s.rt.Outputs? then s.rt.o else OutAway
  }

  function OutCtAt(s: State): OutCt {
    if s.ct.AwaitOutput? then s.ct.o
    else if s.ct.Visit? && s.ct.m.SlaveWrite? then Filling
    else OutIdle
  }

  function InRtAt(s: State): InRt {
    if s.rt.Inputs? then s.rt.n else InAway
  }

  function InCtAt(s: State): InCt {
    if s.ct.AwaitInput? then s.ct.n else InIdle
  }

  ghost predicate BoxesInv(s: State) {
    forall k | 0 <= k < |s.boxes| :: Mailbox.Inv(s.size, s.boxes[k], RtAt(s, k), CtAt(s, k))
  }

  ghost predicate OutputInv(s: State) {
    OutInv(s.output, OutRtAt(s), OutCtAt(s)) && FramesInv(s.output, OutRtAt(s))
  }

  ghost predicate InputInv(s: State) {
    InInv(s.input, InRtAt(s), InCtAt(s)) && FreshInv(s.input, InRtAt(s))
  }

  predicate ReadHalf(m: Mailbox.CtPc) {
    m.TestUnread? || m.CopyUnread? || m.Push? || m.ClearUnread? || m.SlaveRead?
  }

  ghost predicate PlacesInv(s: State) {
    && (s.ct.Visit? ==> s.ct.reading == ReadHalf(s.ct.m))
    && (s.rt.Outputs? ==> !s.rt.o.OutAway?)
    && (s.rt.Inputs? ==> !s.rt.n.InAway?)
    && (s.rt.Mail? ==> !s.rt.m.RtAway? && s.rt.k < |s.boxes|)
    && (s.rt == Exit || s.rt == Done ==> s.terminate)
  }

  ghost predicate Inv(s: State) {
    PlacesInv(s) && BoxesInv(s) && OutputInv(s) && InputInv(s)
  }

  lemma InitInv(s: State)
    requires Init(s)
    ensures Inv(s)
  {
  }

  /// Each step moves at most one thread by one step of the part it is in, or lets it enter or
  /// leave that part

  lemma RtEnterKeepsInv(size: nat, b: Box, ct: Mailbox.CtPc)
    requires Mailbox.Inv(size, b, RtAway, ct)
    ensures Mailbox.Inv(size, b, LoadSend, ct)
  {
  }

  lemma CtEnterKeepsInv(size: nat, b: Box, rt: Mailbox.RtPc, reading: bool)
    requires Mailbox.Inv(size, b, rt, CtAway)
    ensures Mailbox.Inv(size, b, rt, if reading then TestUnread else SlaveWrite)
  {
  }

  predicate RtMoves(size: nat, b: Box, rt: Mailbox.RtPc, io: BusIo, b': Box, rt': Mailbox.RtPc) {
    || (b' == b && rt' == rt)
    || (b' == b && rt == RtAway && rt' == LoadSend)
    || (b', rt') == RtStep(size, b, rt, io)
  }

  predicate CtMoves(b: Box, ct: Mailbox.CtPc, act: PluginAct, b': Box, ct': Mailbox.CtPc) {
    || (b' == b && ct' == ct)
    || (b' == b && ct == CtAway && (ct' == TestUnread || ct' == SlaveWrite))
    || (b', ct') == CtStep(b, ct, act)
  }

  lemma RtBoxMove(s: State, io: BusIo, k: nat)
    requires k < |s.boxes|
    ensures var s' := RtApply(s, io);
            && s'.size == s.size && |s'.boxes| == |s.boxes| && CtAt(s', k) == CtAt(s, k)
            && RtMoves(s.size, s.boxes[k], RtAt(s, k), io, s'.boxes[k], RtAt(s', k))
  {
  }

  lemma CtBoxMove(s: State, choice: Choice, k: nat)
    requires k < |s.boxes|
    ensures var s' := CtApply(s, choice);
            && s'.size == s.size && |s'.boxes| == |s.boxes| && RtAt(s', k) == RtAt(s, k)
            && CtMoves(s.boxes[k], CtAt(s, k), ActOf(choice), s'.boxes[k], CtAt(s', k))
  {
  }

  lemma RtMoveKeepsInv(size: nat, b: Box, rt: Mailbox.RtPc, ct: Mailbox.CtPc, io: BusIo,
                       b': Box, rt': Mailbox.RtPc)
    requires Mailbox.Inv(size, b, rt, ct) && RtMoves(size, b, rt, io, b', rt')
    ensures Mailbox.Inv(size, b', rt', ct)
  {
    if rt == RtAway && rt' == LoadSend {
      RtEnterKeepsInv(size, b, ct);
    } else {
      RtKeepsInv(size, b, rt, ct, io);
    }
  }

  lemma CtMoveKeepsInv(size: nat, b: Box, rt: Mailbox.RtPc, ct: Mailbox.CtPc, act: PluginAct,
                       b': Box, ct': Mailbox.CtPc)
    requires Mailbox.Inv(size, b, rt, ct) && CtMoves(b, ct, act, b', ct')
    ensures Mailbox.Inv(size, b', rt, ct')
  {
    if ct == CtAway && ct' != CtAway {
      CtEnterKeepsInv(size, b, rt, ct' == TestUnread);
    } else {
      CtKeepsInv(size, b, rt, ct, act);
    }
  }

  lemma BoxesKept(s: State, a: Action)
    requires BoxesInv(s)
    ensures BoxesInv(Apply(s, a))
  {
    var s' := Apply(s, a);
    forall k | 0 <= k < |s'.boxes|
      ensures Mailbox.Inv(s'.size, s'.boxes[k], RtAt(s', k), CtAt(s', k))
    {
      assert Mailbox.Inv(s.size, s.boxes[k], RtAt(s, k), CtAt(s, k));
      match a
      case Realtime(io) =>
        RtBoxMove(s, io, k);
        RtMoveKeepsInv(s.size, s.boxes[k], RtAt(s, k), CtAt(s, k), io, s'.boxes[k], RtAt(s', k));
      case Control(choice) =>
        CtBoxMove(s, choice, k);
        CtMoveKeepsInv(s.size, s.boxes[k], RtAt(s, k), CtAt(s, k), ActOf(choice), s'.boxes[k], CtAt(s', k));
      case Stop =>
    }
  }

  predicate OutputMoves(o: Output, rt: OutRt, ct: OutCt, a: Action, o': Output, rt': OutRt, ct': OutCt) {
    || (o' == o && rt' == rt && ct' == ct)
    || (o' == o && rt == OutAway && rt' == LoadRx && ct' == ct)
    || (o' == o && rt' == rt && ct == OutIdle && (ct' == Filling || ct' == RaiseRx))
    || (o' == o && rt' == rt && ct == Filling && ct' == OutIdle)
    || (rt' == rt && ct == ct' == Filling && a.Control? && a.choice.WriteByte?
        && o' == Fill(o, a.choice.at, a.choice.value))
    || ((o', rt') == OutRtStep(o, rt) && ct' == ct)
    || ((o', ct') == OutCtStep(o, ct) && rt' == rt)
  }

  lemma OutputMove(s: State, a: Action)
    ensures var s' := Apply(s, a);
            OutputMoves(s.output, OutRtAt(s), OutCtAt(s), a, s'.output, OutRtAt(s'), OutCtAt(s'))
  {
  }

  lemma OutputMoveKeepsInv(o: Output, rt: OutRt, ct: OutCt, a: Action, o': Output, rt': OutRt, ct': OutCt)
    requires OutInv(o, rt, ct) && FramesInv(o, rt)
    requires OutputMoves(o, rt, ct, a, o', rt', ct')
    ensures OutInv(o', rt', ct') && FramesInv(o', rt')
  {
    if (o', rt') == OutRtStep(o, rt) && ct' == ct {
      OutRtKeepsInv(o, rt, ct);
      OutRtKeepsFrames(o, rt, ct);
    } else if o' == o && rt' == LoadRx {
      FramesOnHistories(o, o', rt, rt');
    } else {
      FramesOnHistories(o, o', rt, rt');
      OutCtKeepsInv(o, rt, ct);
    }
  }

  predicate InputMoves(n: Input, rt: InRt, ct: InCt, a: Action, n': Input, rt': InRt, ct': InCt) {
    || (n' == n && rt' == rt && ct' == ct)
    || (n' == n && rt == InAway && rt' == ReceivePd && ct' == ct)
    || (n' == n && rt' == rt && ct == InIdle && ct' == RaiseTx)
    || (a.Realtime? && (n', rt') == InRtStep(n, rt, a.io) && ct' == ct)
    || ((n', ct') == InCtStep(n, ct) && rt' == rt)
  }

  lemma InputMove(s: State, a: Action)
    ensures var s' := Apply(s, a);
            InputMoves(s.input, InRtAt(s), InCtAt(s), a, s'.input, InRtAt(s'), InCtAt(s'))
  {
  }

  lemma InputMoveKeepsInv(n: Input, rt: InRt, ct: InCt, a: Action, n': Input, rt': InRt, ct': InCt)
    requires InInv(n, rt, ct) && FreshInv(n, rt)
    requires InputMoves(n, rt, ct, a, n', rt', ct')
    ensures InInv(n', rt', ct') && FreshInv(n', rt')
  {
    if a.Realtime? && (n', rt') == InRtStep(n, rt, a.io) && ct' == ct {
      InRtKeepsInv(n, rt, ct, a.io);
      InRtKeepsFresh(n, rt, ct, a.io);
    } else {
      InCtKeepsInv(n, rt, ct);
    }
  }

  lemma HandoffsKept(s: State, a: Action)
    requires OutputInv(s) && InputInv(s)
    ensures OutputInv(Apply(s, a)) && InputInv(Apply(s, a))
  {
    var s' := Apply(s, a);
    OutputMove(s, a);
    OutputMoveKeepsInv(s.output, OutRtAt(s), OutCtAt(s), a, s'.output, OutRtAt(s'), OutCtAt(s'));
    InputMove(s, a);
    InputMoveKeepsInv(s.input, InRtAt(s), InCtAt(s), a, s'.input, InRtAt(s'), InCtAt(s'));
  }

  lemma PlacesKept(s: State, a: Action)
    requires PlacesInv(s)
    ensures PlacesInv(Apply(s, a))
  {
  }

  lemma StepKeepsInv(s: State, a: Action)
    requires Inv(s)
    ensures Inv(Apply(s, a))
  {
    PlacesKept(s, a);
    BoxesKept(s, a);
    HandoffsKept(s, a);
  }

  lemma {:induction false} RunKeepsInv(s: State, schedule: seq<Action>)
    requires Inv(s)
    ensures Inv(Exec(s, schedule))
    decreases |schedule|
  {
    if schedule != [] {
      StepKeepsInv(s, schedule[0]);
      RunKeepsInv(Apply(s, schedule[0]), schedule[1..]);
    }
  }

  /// What holds in every run

  /** No buffer is accessed by both threads at once. */
  ghost predicate Exclusive(s: State) {
    && !(OutRtAt(s).CopyOut? && s.ct.Visit? && s.ct.m.SlaveWrite?)                   // RxPDO_working
    && !(InRtAt(s).CopyIn? && s.ct.Visit? && s.ct.m.SlaveRead?)                      // TxPDO_working
    && (forall k | 0 <= k < |s.boxes| ::
          && !(RtAt(s, k).CopySend? && CtAt(s, k).CopyMessage?)                      // SMbx
          && !(RtAt(s, k).CopyReceived? && CtAt(s, k).CopyUnread?))                  // RMbx
  }

  lemma InvExclusive(s: State)
    requires Inv(s)
    ensures Exclusive(s)
  {
    forall k | 0 <= k < |s.boxes|
      ensures !(RtAt(s, k).CopySend? && CtAt(s, k).CopyMessage?)
      ensures !(RtAt(s, k).CopyReceived? && CtAt(s, k).CopyUnread?)
    {
      assert Mailbox.Inv(s.size, s.boxes[k], RtAt(s, k), CtAt(s, k));
    }
  }

  /** In every interleaving the two threads never access the same buffer at once. */
  lemma BuffersAreOwned(s: State, schedule: seq<Action>)
    requires Init(s)
    ensures Exclusive(Exec(s, schedule))
  {
    InitInv(s);
    RunKeepsInv(s, schedule);
    InvExclusive(Exec(s, schedule));
  }

  /** Accepted messages are sent in order, fetched replies consumed in order, at slave `k`. */
  ghost predicate HistoriesAgree(e: State, k: nat)
    requires k < |e.boxes|
  {
    var b := e.boxes[k];
    var sent := |PayloadsOf(b.log)|;
    var due := sent + if SendDue(b, RtAt(e, k), CtAt(e, k)) then 1 else 0;
    && due <= |b.accepted|
    && b.accepted == b.accepted[..due] + b.sendQueue
    && (forall j | 0 <= j < sent ::
          Carries(PayloadsOf(b.log)[j], b.accepted[j].msg, Min(|b.smbx|, e.size)))
    && ImagesOf(b.log) == b.consumed + b.receiveQueue + Unread(b, CtAt(e, k))
    && |ImagesOf(b.log)| + (if FetchDue(b, RtAt(e, k), CtAt(e, k)) then 1 else 0)
       == Responses(RequestsOf(b.log))
  }

  lemma InvHistories(e: State, k: nat)
    requires Inv(e) && k < |e.boxes|
    ensures HistoriesAgree(e, k)
  {
    AcceptedInOrder(e.size, e.boxes[k], RtAt(e, k), CtAt(e, k));
    RepliesInOrder(e.size, e.boxes[k], RtAt(e, k), CtAt(e, k));
  }

  /** In every interleaving and for every slave, accepted messages are sent in order, replies are
      neither lost, overwritten nor duplicated, and there is one for every request that asked for
      one, but for the one still outstanding. */
  lemma MailboxHistories(s: State, schedule: seq<Action>, k: nat)
    requires Init(s) && k < |Exec(s, schedule).boxes|
    ensures HistoriesAgree(Exec(s, schedule), k)
  {
    InitInv(s);
    RunKeepsInv(s, schedule);
    InvHistories(Exec(s, schedule), k);
  }

  /** In every interleaving, between two consecutive dequeues of a slave's requests lie exactly
      one successful send and, if the first asked for a reply, exactly one completed fetch. */
  lemma MailboxExchanges(s: State, schedule: seq<Action>, k: nat, i: nat, j: nat)
    requires Init(s) && k < |Exec(s, schedule).boxes|
    requires var log := Exec(s, schedule).boxes[k].log;
             i < j < |log| && log[i].Dequeued? && log[j].Dequeued? && NoDequeue(log[i + 1..j])
    ensures var e := Exec(s, schedule);
            var log := e.boxes[k].log;
            && Sends(log[i + 1..j]) == 1
            && Fetches(log[i + 1..j]) == (if log[i].request.response then 1 else 0)
            && Serves(log[i + 1..j], log[i].request, Min(|e.boxes[k].smbx|, e.size))
  {
    InitInv(s);
    RunKeepsInv(s, schedule);
    var e := Exec(s, schedule);
    OneExchangePerDequeue(e.size, e.boxes[k], RtAt(e, k), CtAt(e, k), i, j);
  }

  /** In every interleaving the frames put on the bus are a stuttering of the images handed
      over: frame i is the whole image number `frameOf[i]`, numbers never fall and never skip. */
  lemma FramesFollowWrites(s: State, schedule: seq<Action>)
    requires Init(s)
    ensures var o := Exec(s, schedule).output;
            && |o.frames| == |o.frameOf|
            && |o.captured| <= |o.handed| <= |o.captured| + 1
            && (forall i | 0 <= i < |o.frames| ::
                  && o.frameOf[i] <= |o.handed|
                  && o.frames[i] == if o.frameOf[i] == 0 then o.initial else o.handed[o.frameOf[i] - 1])
            && (forall i | 0 < i < |o.frames| :: o.frameOf[i - 1] <= o.frameOf[i] <= o.frameOf[i - 1] + 1)
            && (o.frames != [] ==> o.frameOf[0] <= 1)
  {
    InitInv(s);
    RunKeepsInv(s, schedule);
    var e := Exec(s, schedule);
    assert OutInv(e.output, OutRtAt(e), OutCtAt(e)) && FramesInv(e.output, OutRtAt(e));
  }

  /** In every interleaving, with or without a stop, each image taken over from `write` is put
      on the bus at least once before the realtime thread looks at the terminate flag again. */
  lemma NoImageIsDropped(s: State, schedule: seq<Action>, n: nat) returns (i: nat)
    requires Init(s)
    requires var e := Exec(s, schedule);
             n < |e.output.captured| && (n + 1 < |e.output.captured| || e.rt != Outputs(SendPd))
    ensures var o := Exec(s, schedule).output;
            n < |o.handed| && i < |o.frames| && o.frames[i] == o.handed[n]
  {
    InitInv(s);
    RunKeepsInv(s, schedule);
    var e := Exec(s, schedule);
    i := EveryImageIsSent(e.output, OutRtAt(e), OutCtAt(e), n);
  }

  /** In every interleaving, outside a pending transfer the plugins' input working set is the whole
      image some receive call left, the last delivered one, and deliveries only move forward. */
  lemma InputsAreWholeAndFresh(s: State, schedule: seq<Action>)
    requires Init(s)
    ensures var e := Exec(s, schedule);
            var n := e.input;
            && |n.delivered| == |n.deliveredAt|
            && (e.ct != AwaitInput(WaitTx) ==> n.working == LastOr(n.delivered, n.initial))
            && (forall i | 0 <= i < |n.delivered| ::
                  1 <= n.deliveredAt[i] <= |n.received| && n.delivered[i] == n.received[n.deliveredAt[i] - 1])
            && (forall i | 0 < i < |n.delivered| :: n.deliveredAt[i - 1] < n.deliveredAt[i])
  {
    InitInv(s);
    RunKeepsInv(s, schedule);
    var e := Exec(s, schedule);
    assert InInv(e.input, InRtAt(e), InCtAt(e)) && FreshInv(e.input, InRtAt(e));
  }
}
