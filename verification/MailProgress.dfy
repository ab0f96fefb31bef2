/** Progress of the mailboxes: a requested send is made, and a wanted fetch completed, within a
    bounded number of steps of the realtime thread (soem_master.cpp), if nobody stops it and the bus
    does not fail that slave. */
module MailProgress {
  import opened Mailbox
  import opened ProcessData
  import opened Bus
  import opened Progress
  import Order

  /** What is outstanding at a slave. */
  datatype Duty = DutySend | DutyFetch

  /** The send is requested, or the fetch wanted and the receive buffer free; and not just done. */
  predicate Pending(d: Duty, b: Box, m: Mailbox.RtPc) {
    match d
    case DutySend => b.sendRequest && !m.ClearSend?
    case DutyFetch => b.receive && !b.hasUnread && !m.ClearReceive?
  }

  /** In its visit of the slave, the realtime thread has not come past the duty. */
  predicate Before(d: Duty, m: Mailbox.RtPc) {
    match d
    case DutySend => m.LoadSend? || m.CopySend? || m.Send?
    case DutyFetch => !m.RtAway? && !m.ClearReceive?
  }

  /** The step that does it. */
  predicate Does(d: Duty, m: Mailbox.RtPc, io: BusIo) {
    match d
    case DutySend => m.Send? && 0 < io.wkc
    case DutyFetch => m.SetUnread?
  }

  /** The bus does not fail it. */
  predicate Works(d: Duty, m: Mailbox.RtPc, io: BusIo) {
    match d
    case DutySend => m.Send? ==> 0 < io.wkc
    case DutyFetch => m.Receive? ==> if m.raw then 0 <= io.wkc else 0 < io.wkc
  }

  /// At one slave

  lemma RtStaysBefore(d: Duty, size: nat, b: Box, m: Mailbox.RtPc, io: BusIo)
    requires Pending(d, b, m) && Before(d, m) && Works(d, m, io) && !Does(d, m, io)
    ensures var (b', m') := RtStep(size, b, m, io); Pending(d, b', m') && Before(d, m')
  {
  }

  lemma RtStaysPending(d: Duty, size: nat, b: Box, m: Mailbox.RtPc, io: BusIo, b': Box, m': Mailbox.RtPc)
    requires Pending(d, b, m) && Works(d, m, io) && !Does(d, m, io) && RtMoves(size, b, m, io, b', m')
    ensures Pending(d, b', m')
  {
    if Before(d, m) && (b', m') == RtStep(size, b, m, io) {
      RtStaysBefore(d, size, b, m, io);
    }
  }

  lemma CtStaysPending(d: Duty, b: Box, m: Mailbox.RtPc, ct: Mailbox.CtPc, act: PluginAct, b': Box, ct': Mailbox.CtPc)
    requires FlagInv(b, m, ct) && Pending(d, b, m) && CtMoves(b, ct, act, b', ct')
    ensures Pending(d, b', m)
  {
  }

  lemma DoesLog(d: Duty, size: nat, b: Box, m: Mailbox.RtPc, io: BusIo)
    requires Does(d, m, io)
    ensures var b' := RtStep(size, b, m, io).0;
            && b'.log != [] && b'.log[..|b'.log| - 1] == b.log
            && (if d.DutySend? then b'.log[|b.log|].Sent? else b'.log[|b.log|].Fetched?)
  {
  }

  /// On the bus

  predicate PendingAt(d: Duty, s: State, k: nat) {
    k < |s.boxes| && Pending(d, s.boxes[k], RtAt(s, k))
  }

  /** The realtime thread comes to the duty in this cycle. */
  predicate Ahead(d: Duty, s: State, k: nat) {
    || s.rt.Outputs? || s.rt.Inputs?
    || (s.rt.Mail? && (s.rt.k < k || (s.rt.k == k && Before(d, s.rt.m))))
  }

  function FullCycle(s: State): nat {
    OutLeft(s, LoadRx) + InLeft(s, ReceivePd) + MailSteps(s.boxes, 0) + 1
  }

  /** An upper bound on the realtime steps until the duty is done. */
  function DutyRank(d: Duty, s: State, k: nat): nat
    requires s.rt.Mail? ==> s.rt.k < |s.boxes|
  {
    if Ahead(d, s, k) then CycleLeft(s)
    else if s.rt.Start? then 2 + FullCycle(s)
    else CycleLeft(s) + 1 + FullCycle(s)
  }

  /** The duty is pending, and the realtime thread comes to it in this cycle or a later one. */
  predicate OnDuty(d: Duty, s: State, k: nat) {
    Countable(s) && PendingAt(d, s, k) && (Ahead(d, s, k) || MoreCycles(s))
  }

  lemma AheadMoves(d: Duty, s: State, io: BusIo, k: nat)
    requires Countable(s) && PendingAt(d, s, k) && Ahead(d, s, k)
    requires Works(d, RtAt(s, k), io) && !Does(d, RtAt(s, k), io)
    ensures Ahead(d, RtApply(s, io), k)
  {
    if s.rt.Mail? && s.rt.k == k {
      RtStaysBefore(d, s.size, s.boxes[k], s.rt.m, io);
    }
  }

  lemma FullCycleKept(s: State, io: BusIo)
    requires Countable(s)
    ensures Countable(RtApply(s, io)) && FullCycle(RtApply(s, io)) == FullCycle(s)
  {
    CycleGetsCloser(s, io);
  }

  /** From where the thread is not ahead of the duty it comes closer to the next cycle. */
  lemma BehindMoves(d: Duty, s: State, io: BusIo, k: nat)
    requires Countable(s) && !Ahead(d, s, k) && MoreCycles(s)
    ensures var s' := RtApply(s, io);
            Countable(s') && MoreCycles(s') && DutyRank(d, s', k) < DutyRank(d, s, k)
  {
    FullCycleKept(s, io);
    TailGetsCloser(s, io);
  }

  lemma RtGetsCloser(d: Duty, s: State, io: BusIo, k: nat)
    requires OnDuty(d, s, k)
    requires Works(d, RtAt(s, k), io) && !Does(d, RtAt(s, k), io)
    ensures OnDuty(d, RtApply(s, io), k)
    ensures DutyRank(d, RtApply(s, io), k) < DutyRank(d, s, k)
  {
    var s' := RtApply(s, io);
    RtBoxMove(s, io, k);
    RtStaysPending(d, s.size, s.boxes[k], RtAt(s, k), io, s'.boxes[k], RtAt(s', k));
    if Ahead(d, s, k) {
      AheadMoves(d, s, io, k);
      FullCycleKept(s, io);
      TailGetsCloser(s, io);
    } else {
      BehindMoves(d, s, io, k);
    }
  }

  lemma CtKeepsSizes(b: Box, ct: Mailbox.CtPc, act: PluginAct)
    ensures var b' := CtStep(b, ct, act).0; |b'.rmbx| == |b.rmbx| && |b'.smbx| == |b.smbx|
  {
  }

  /** The control thread moves neither the realtime thread nor the sizes of what it copies. */
  lemma CtKeepsBoxes(s: State, choice: Choice)
    ensures var s' := CtApply(s, choice);
            && s'.rt == s.rt && s'.terminate == s.terminate && |s'.boxes| == |s.boxes|
            && forall k | 0 <= k < |s.boxes| ::
                 |s'.boxes[k].rmbx| == |s.boxes[k].rmbx| && |s'.boxes[k].smbx| == |s.boxes[k].smbx|
  {
    if s.ct.Visit? && s.ct.k < |s.boxes| {
      CtKeepsSizes(s.boxes[s.ct.k], s.ct.m, ActOf(choice));
    }
  }

  lemma CtKeepsImages(s: State, choice: Choice)
    ensures var s' := CtApply(s, choice);
            && |s'.output.region| == |s.output.region| && |s'.output.working| == |s.output.working|
            && |s'.input.region| == |s.input.region| && |s'.input.working| == |s.input.working|
  {
  }

  /** `s'` is `s` with other contents in buffers of the same sizes. */
  ghost predicate SameSizes(s: State, s': State) {
    && s'.rt == s.rt && |s'.boxes| == |s.boxes|
    && (forall j | 0 <= j < |s.boxes| ::
          |s'.boxes[j].rmbx| == |s.boxes[j].rmbx| && |s'.boxes[j].smbx| == |s.boxes[j].smbx|)
    && |s'.output.region| == |s.output.region| && |s'.input.region| == |s.input.region|
  }

  lemma SameSizesSameSteps(s: State, s': State, k: nat)
    requires SameSizes(s, s') && k <= |s.boxes|
    ensures MailSteps(s'.boxes, k) == MailSteps(s.boxes, k)
  {
    MailStepsOfSizes(s.boxes, s'.boxes, k);
  }

  lemma SameSizesSameCycle(s: State, s': State)
    requires Countable(s) && SameSizes(s, s')
    ensures FullCycle(s') == FullCycle(s) && CycleLeft(s') == CycleLeft(s)
  {
    SameSizesSameSteps(s, s', 0);
    if s.rt.Mail? {
      SameSizesSameSteps(s, s', s.rt.k + 1);
      assert MailLeft(s') == MailLeft(s);
    }
  }

  lemma SameSizesSameRank(d: Duty, s: State, s': State, k: nat)
    requires Countable(s) && SameSizes(s, s')
    ensures DutyRank(d, s', k) == DutyRank(d, s, k)
  {
    SameSizesSameCycle(s, s');
  }

  lemma CtStaysClose(d: Duty, s: State, choice: Choice, k: nat)
    requires OnDuty(d, s, k)
    requires FlagInv(s.boxes[k], RtAt(s, k), CtAt(s, k))
    ensures OnDuty(d, CtApply(s, choice), k)
    ensures DutyRank(d, CtApply(s, choice), k) == DutyRank(d, s, k)
  {
    var s' := CtApply(s, choice);
    CtBoxMove(s, choice, k);
    CtStaysPending(d, s.boxes[k], RtAt(s, k), CtAt(s, k), ActOf(choice), s'.boxes[k], CtAt(s', k));
    CtKeepsBoxes(s, choice);
    CtKeepsImages(s, choice);
    SameSizesSameRank(d, s, s', k);
  }

  /** One step either does the duty or leaves it pending, no farther away. */
  lemma DutyStep(d: Duty, s: State, a: Action, k: nat)
    requires Bus.Inv(s) && OnDuty(d, s, k) && !a.Stop?
    requires a.Realtime? ==> Works(d, RtAt(s, k), a.io) && !Does(d, RtAt(s, k), a.io)
    ensures OnDuty(d, Apply(s, a), k)
    ensures DutyRank(d, Apply(s, a), k) + (if a.Realtime? then 1 else 0) <= DutyRank(d, s, k)
  {
    if a.Realtime? {
      RtGetsCloser(d, s, a.io, k);
    } else {
      Order.FlagsHold(s, k);
      CtStaysClose(d, s, a.choice, k);
    }
  }

  /// In a schedule

  /** The bus fails none of the attempts at slave `k`. */
  ghost predicate BusWorks(d: Duty, s: State, schedule: seq<Action>, k: nat) {
    forall j | 0 <= j < |schedule| ::
      schedule[j].Realtime? ==> Works(d, RtAt(Order.StateAt(s, schedule, j), k), schedule[j].io)
  }

  /** Action `j` does the duty. */
  ghost predicate DoesAt(d: Duty, s: State, schedule: seq<Action>, k: nat, j: nat)
    requires j < |schedule|
  {
    schedule[j].Realtime? && Does(d, RtAt(Order.StateAt(s, schedule, j), k), schedule[j].io)
  }

  lemma DutyStepAt(d: Duty, s: State, schedule: seq<Action>, k: nat, j: nat)
    requires Bus.Inv(s) && NoStop(schedule) && BusWorks(d, s, schedule, k) && j < |schedule|
    requires OnDuty(d, Order.StateAt(s, schedule, j), k) && !DoesAt(d, s, schedule, k, j)
    ensures OnDuty(d, Order.StateAt(s, schedule, j + 1), k)
    ensures DutyRank(d, Order.StateAt(s, schedule, j + 1), k) + (if schedule[j].Realtime? then 1 else 0)
         <= DutyRank(d, Order.StateAt(s, schedule, j), k)
  {
    RunKeepsInv(s, schedule[..j]);
    Order.StatesFollow(s, schedule, j);
    assert schedule[j] in schedule;
    DutyStep(d, Order.StateAt(s, schedule, j), schedule[j], k);
  }

  /** A pending duty is done: in every schedule without a stop and without a failure of the bus at
      that slave, once the realtime thread has had `DutyRank` steps. */
  lemma {:induction false} DutyIsDone(d: Duty, s: State, schedule: seq<Action>, k: nat, j: nat) returns (n: nat)
    requires Bus.Inv(s) && NoStop(schedule) && BusWorks(d, s, schedule, k) && j <= |schedule|
    requires OnDuty(d, Order.StateAt(s, schedule, j), k)
    requires DutyRank(d, Order.StateAt(s, schedule, j), k) < RealtimeSteps(schedule[j..])
    ensures j <= n < |schedule| && DoesAt(d, s, schedule, k, n)
    decreases |schedule| - j
  {
    if DoesAt(d, s, schedule, k, j) {
      n := j;
    } else {
      DutyStepAt(d, s, schedule, k, j);
      assert schedule[j..][1..] == schedule[j + 1..];
      n := DutyIsDone(d, s, schedule, k, j + 1);
    }
  }

  /** From `s` to `s'` the log of slave `k` has grown by the send or the fetch. */
  ghost predicate Logged(d: Duty, s: State, s': State, k: nat) {
    && k < |s.boxes| && k < |s'.boxes|
    && var log, log' := s.boxes[k].log, s'.boxes[k].log;
       && |log'| == |log| + 1 && log'[..|log|] == log
       && (if d.DutySend? then log'[|log|].Sent? else log'[|log|].Fetched?)
  }

  lemma DoneIsLogged(d: Duty, s: State, a: Action, k: nat)
    requires k < |s.boxes| && a.Realtime? && Does(d, RtAt(s, k), a.io)
    ensures Logged(d, s, Apply(s, a), k)
  {
    DoesLog(d, s.size, s.boxes[k], s.rt.m, a.io);
  }

  /** In every run without a stop, whatever the interleaving: if the bus fails none of the attempts
      at slave `k`, a requested send is sent, and a wanted fetch is completed once the last reply has
      been taken over, within a bounded number of realtime steps. */
  lemma MailboxesProgress(d: Duty, s: State, schedule: seq<Action>, further: seq<Action>, k: nat) returns (n: nat)
    requires Init(s) && NoStop(schedule) && NoStop(further)
    requires var e := Exec(s, schedule);
             && PendingAt(d, e, k) && BusWorks(d, e, further, k)
             && (e.rt.Mail? ==> e.rt.k < |e.boxes|) && DutyRank(d, e, k) < RealtimeSteps(further)
    ensures n < |further|
    ensures Logged(d, Order.StateAt(Exec(s, schedule), further, n), Order.StateAt(Exec(s, schedule), further, n + 1), k)
  {
    InitInv(s);
    RunKeepsInv(s, schedule);
    NeverTerminates(s, schedule);
    var e := Exec(s, schedule);
    InvCountable(e);
    InvGoesOn(e);
    assert further[..0] == [] && further[0..] == further;
    n := DutyIsDone(d, e, further, k, 0);
    RunKeepsInv(e, further[..n]);
    Order.RunKeepsBoxes(e, further[..n]);
    Order.StatesFollow(e, further, n);
    DoneIsLogged(d, Order.StateAt(e, further, n), further[n], k);
  }

  lemma InvGoesOn(s: State)
    requires Bus.Inv(s) && !s.terminate
    ensures MoreCycles(s)
  {
  }
}
