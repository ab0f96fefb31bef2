/** What one call of the driver's `read` or `write` does (soem_driver.cpp): it comes to every
    slave's plugin, takes over replies, starts mailbox exchanges, transfers process data, and
    returns, however the realtime thread interleaves. */
module Calls {
  import opened Mailbox
  import opened ProcessData
  import opened Bus
  import opened Progress
  import opened Order

  /** The control thread is in a plugin's own `read` or `write`. */
  predicate AtPlugin(ct: Bus.CtPc) {
    ct.Visit? && (ct.m.SlaveRead? || ct.m.SlaveWrite?)
  }

  predicate Arrives(p: State, e: State) {
    AtPlugin(e.ct) && e.ct != p.ct
  }

  /** The slaves to whose plugin it comes between `a` and `b`, in order. */
  function Arrivals(s: State, schedule: seq<Action>, a: nat, b: nat): seq<nat>
    requires a <= b <= |schedule|
  {
    if a == b then []
    else
      Arrivals(s, schedule, a, b - 1)
      + if Arrives(StateAt(s, schedule, b - 1), StateAt(s, schedule, b)) then [StateAt(s, schedule, b).ct.k] else []
  }

  /** A call begins at `a` and has not returned before `b`. */
  ghost predicate InCall(s: State, schedule: seq<Action>, reading: bool, a: nat, b: nat) {
    && a < b <= |schedule| && StateAt(s, schedule, a).ct == Idle
    && schedule[a] == Control(if reading then CallRead else CallWrite)
    && forall x: nat | a < x < b :: StateAt(s, schedule, x).ct != Idle
  }

  function Slaves(n: nat): (r: seq<nat>)
    ensures |r| == n && forall i | 0 <= i < n :: r[i] == i
  {
    seq(n, i requires 0 <= i < n => i)
  }

  /// Every slave is visited

  /** Where a call stands that has come to the slaves in `arrivals`. */
  predicate CallInv(reading: bool, arrivals: seq<nat>, s: State) {
    match s.ct
    case Idle => arrivals == Slaves(|s.boxes|)
    case TestRunning(r) => r == reading && arrivals == Slaves(if r then 0 else |s.boxes|)
    case TestTerminate(r) => r == reading && arrivals == Slaves(if r then 0 else |s.boxes|)
    case AwaitInput(_) => reading && arrivals == []
    case AwaitOutput(_) => !reading && arrivals == Slaves(|s.boxes|)
    case Visit(r, k, m) =>
      r == reading && k < |s.boxes| && ReadHalf(m) == r && arrivals == Slaves(if r && !m.SlaveRead? then k else k + 1)
  }

  function MoreArrivals(arrivals: seq<nat>, p: State, e: State): seq<nat> {
    arrivals + if Arrives(p, e) then [e.ct.k] else []
  }

  lemma NextSlave(n: nat)
    ensures Slaves(n + 1) == Slaves(n) + [n]
  {
  }

  lemma CallBegins(s: State, reading: bool)
    requires s.ct == Idle
    ensures var e := CtApply(s, if reading then CallRead else CallWrite);
            CallInv(reading, MoreArrivals([], s, e), e)
  {
    NextSlave(0);
  }

  lemma ComesToVisit(s: State, reading: bool, k: nat, arrivals: seq<nat>, p: State)
    requires s.ct == NextVisit(s, reading, k) && k <= |s.boxes| && arrivals == Slaves(k)
    requires p.ct.Visit? ==> p.ct.k < k
    ensures CallInv(reading, MoreArrivals(arrivals, p, s), s)
  {
    NextSlave(k);
  }

  lemma VisitMoves(s: State, choice: Choice, reading: bool, arrivals: seq<nat>)
    requires s.ct.Visit? && CallInv(reading, arrivals, s)
    ensures CallInv(reading, MoreArrivals(arrivals, s, CtApply(s, choice)), CtApply(s, choice))
  {
    var s', k := CtApply(s, choice), s.ct.k;
    if !(s.ct.m.SlaveWrite? && choice.WriteByte?) {
      var m' := CtStep(s.boxes[k], s.ct.m, ActOf(choice)).1;
      if m'.CtAway? {
        ComesToVisit(s', reading, k + 1, arrivals, s);
      } else if m'.SlaveRead? && !s.ct.m.SlaveRead? {
        NextSlave(k);
      }
    }
  }

  lemma CallMoves(s: State, choice: Choice, reading: bool, arrivals: seq<nat>)
    requires s.ct != Idle && CallInv(reading, arrivals, s)
    ensures CallInv(reading, MoreArrivals(arrivals, s, CtApply(s, choice)), CtApply(s, choice))
  {
    if s.ct.Visit? {
      VisitMoves(s, choice, reading, arrivals);
    } else if CtApply(s, choice).ct == NextVisit(CtApply(s, choice), true, 0) {
      ComesToVisit(CtApply(s, choice), true, 0, [], s);
    }
  }

  lemma CallWaits(s: State, a: Action, reading: bool, arrivals: seq<nat>)
    requires CallInv(reading, arrivals, s) && !a.Control?
    ensures CallInv(reading, MoreArrivals(arrivals, s, Apply(s, a)), Apply(s, a))
  {
  }

  lemma CallGoesOn(s: State, a: Action, reading: bool, arrivals: seq<nat>)
    requires s.ct != Idle && CallInv(reading, arrivals, s)
    ensures CallInv(reading, MoreArrivals(arrivals, s, Apply(s, a)), Apply(s, a))
  {
    if a.Control? {
      CallMoves(s, a.choice, reading, arrivals);
    } else {
      CallWaits(s, a, reading, arrivals);
    }
  }

  lemma {:induction false} CallSoFar(s: State, schedule: seq<Action>, reading: bool, a: nat, b: nat)
    requires InCall(s, schedule, reading, a, b)
    ensures CallInv(reading, Arrivals(s, schedule, a, b), StateAt(s, schedule, b))
    decreases b
  {
    StatesFollow(s, schedule, b - 1);
    if b == a + 1 {
      CallBegins(StateAt(s, schedule, a), reading);
      assert Arrivals(s, schedule, a, a) == [];
    } else {
      CallSoFar(s, schedule, reading, a, b - 1);
      CallGoesOn(StateAt(s, schedule, b - 1), schedule[b - 1], reading, Arrivals(s, schedule, a, b - 1));
    }
  }

  /** A call of `read` that has returned has come to the `read` of every slave's plugin once, in
      order; a call of `write` to their `write`. */
  lemma EverySlaveIsVisited(s: State, schedule: seq<Action>, reading: bool, a: nat, b: nat)
    requires InCall(s, schedule, reading, a, b) && StateAt(s, schedule, b).ct == Idle
    ensures Arrivals(s, schedule, a, b) == Slaves(|s.boxes|)
    ensures forall x: nat | a < x < b && AtPlugin(StateAt(s, schedule, x).ct) ::
              StateAt(s, schedule, x).ct.m.SlaveRead? == reading
  {
    CallSoFar(s, schedule, reading, a, b);
    RunKeepsBoxes(s, schedule[..b]);
    forall x: nat | a < x < b
      ensures AtPlugin(StateAt(s, schedule, x).ct) ==> StateAt(s, schedule, x).ct.m.SlaveRead? == reading
    {
      CallSoFar(s, schedule, reading, a, x);
    }
  }

  /// Calls return

  function CtLeft(b: Box, m: Mailbox.CtPc): nat {
    match m
    case CtAway => 0
    case SlaveRead => 1
    case ClearUnread => 2
    case Push(_) => 3
    case CopyUnread(buf) => 4 + Monus(|b.rmbx|, |buf|)
    case TestUnread => 5 + |b.rmbx|
    case StoreSend => 1
    case StoreReceive(_) => 2
    case StoreRaw(_) => 3
    case CopyMessage(i, _) => 4 + Monus(|b.smbx|, i)
    case ConsumeOne => 5 + |b.smbx|
    case TestReceive => 6 + |b.smbx|
    case TestSend => 7 + |b.smbx|
    case SlaveWrite => 8 + |b.smbx|
  }

  function VisitSteps(boxes: seq<Box>, k: nat): nat
    requires k <= |boxes|
    decreases |boxes| - k
  {
    if k == |boxes| then 0 else 8 + |boxes[k].rmbx| + |boxes[k].smbx| + VisitSteps(boxes, k + 1)
  }

  /** What is left of a call after its process data have been transferred, or its slaves visited. */
  function CallRank(s: State): nat
    requires s.ct.Visit? ==> s.ct.k < |s.boxes|
  {
    match s.ct
    case Idle => 0
    case TestRunning(r) => 4 + if r then VisitSteps(s.boxes, 0) else 0
    case TestTerminate(r) => 3 + if r then VisitSteps(s.boxes, 0) else 0
    case AwaitInput(pc) => (if pc.RaiseTx? then 2 else 1) + VisitSteps(s.boxes, 0)
    case AwaitOutput(pc) => if pc.RaiseRx? then 2 else 1
    case Visit(r, k, m) => CtLeft(s.boxes[k], m) + VisitSteps(s.boxes, k + 1) + if r then 0 else 4
  }

  /** A plugin lets the driver go on. */
  predicate Returns(choice: Choice) {
    !choice.WriteByte? && ActOf(choice).Return?
  }

  /** A step of the control thread that is not spent waiting for a transfer or in a plugin. */
  predicate Effective(s: State, a: Action) {
    && a.Control? && !InputWaiting(s) && !OutputWaiting(s)
    && (AtPlugin(s.ct) ==> Returns(a.choice))
  }

  function EffectiveSteps(s: State, schedule: seq<Action>, a: nat): nat
    requires a <= |schedule|
    decreases |schedule| - a
  {
    if a == |schedule| then 0
    else (if Effective(StateAt(s, schedule, a), schedule[a]) then 1 else 0) + EffectiveSteps(s, schedule, a + 1)
  }

  lemma {:induction false} EffectiveStepsCount(s: State, schedule: seq<Action>, a: nat)
    requires a <= |schedule|
    ensures EffectiveSteps(s, schedule, a)
         == |set x: nat | a <= x < |schedule| && Effective(StateAt(s, schedule, x), schedule[x])|
    decreases |schedule| - a
  {
    var later := set x: nat | a + 1 <= x < |schedule| && Effective(StateAt(s, schedule, x), schedule[x]);
    var all := set x: nat | a <= x < |schedule| && Effective(StateAt(s, schedule, x), schedule[x]);
    if a < |schedule| {
      EffectiveStepsCount(s, schedule, a + 1);
      assert all == later + if Effective(StateAt(s, schedule, a), schedule[a]) then {a} else {};
    } else {
      assert all == {};
    }
  }

  predicate SameBoxSizes(boxes: seq<Box>, boxes': seq<Box>) {
    && |boxes'| == |boxes|
    && forall k | 0 <= k < |boxes| ::
         |boxes'[k].rmbx| == |boxes[k].rmbx| && |boxes'[k].smbx| == |boxes[k].smbx|
  }

  lemma {:induction false} SameVisitSteps(boxes: seq<Box>, boxes': seq<Box>, k: nat)
    requires SameBoxSizes(boxes, boxes') && k <= |boxes|
    ensures VisitSteps(boxes', k) == VisitSteps(boxes, k)
    decreases |boxes| - k
  {
    if k < |boxes| {
      SameVisitSteps(boxes, boxes', k + 1);
    }
  }

  lemma CtGetsCloser(b: Box, m: Mailbox.CtPc, act: PluginAct)
    requires !m.CtAway?
    ensures var (b', m') := CtStep(b, m, act);
            && |b'.rmbx| == |b.rmbx| && |b'.smbx| == |b.smbx|
            && CtLeft(b', m') <= CtLeft(b, m)
            && ((m.SlaveRead? || m.SlaveWrite? ==> act.Return?) ==> CtLeft(b', m') < CtLeft(b, m))
  {
  }

  lemma RtKeepsSizes(size: nat, b: Box, m: Mailbox.RtPc, io: BusIo)
    ensures var b' := RtStep(size, b, m, io).0; |b'.rmbx| == |b.rmbx| && |b'.smbx| == |b.smbx|
  {
  }

  lemma ApplyKeepsSizes(s: State, a: Action)
    ensures SameBoxSizes(s.boxes, Apply(s, a).boxes)
  {
    match a {
      case Realtime(io) =>
        if s.rt.Mail? && s.rt.k < |s.boxes| {
          RtKeepsSizes(s.size, s.boxes[s.rt.k], s.rt.m, io);
        }
      case Control(choice) =>
        if s.ct.Visit? && s.ct.k < |s.boxes| && !s.ct.m.CtAway? {
          CtGetsCloser(s.boxes[s.ct.k], s.ct.m, ActOf(choice));
        }
      case Stop =>
    }
  }

  /** What the countdown needs of the state. */
  predicate InPlace(s: State) {
    && (s.ct.Visit? ==> s.ct.k < |s.boxes| && !s.ct.m.CtAway? && s.ct.reading == ReadHalf(s.ct.m))
    && (s.ct.AwaitOutput? ==> !s.ct.o.Filling?)
  }

  lemma RankOfSizes(s: State, s': State)
    requires s'.ct == s.ct && SameBoxSizes(s.boxes, s'.boxes) && InPlace(s)
    ensures CallRank(s') == CallRank(s)
  {
    SameVisitSteps(s.boxes, s'.boxes, 0);
    if s.ct.Visit? {
      SameVisitSteps(s.boxes, s'.boxes, s.ct.k + 1);
    }
  }

  /** What the next visit, or what follows the last, takes. */
  lemma NextVisitRank(s: State, reading: bool, k: nat)
    requires k <= |s.boxes|
    ensures var s' := s.(ct := NextVisit(s, reading, k));
            InPlace(s') && CallRank(s') <= VisitSteps(s.boxes, k) + if reading then 0 else 4
  {
  }

  lemma VisitGoesOn(s: State, s': State, left: nat)
    requires InPlace(s) && s.ct.Visit? && s'.ct.Visit? && SameBoxSizes(s.boxes, s'.boxes)
    requires s'.ct.reading == s.ct.reading && s'.ct.k == s.ct.k && CtLeft(s'.boxes[s.ct.k], s'.ct.m) == left
    ensures CallRank(s') == CallRank(s) - CtLeft(s.boxes[s.ct.k], s.ct.m) + left
  {
    SameVisitSteps(s.boxes, s'.boxes, s.ct.k + 1);
  }

  lemma VisitEnds(s: State, s': State)
    requires InPlace(s) && s.ct.Visit? && SameBoxSizes(s.boxes, s'.boxes)
    requires s'.ct == NextVisit(s', s.ct.reading, s.ct.k + 1)
    ensures InPlace(s') && CallRank(s') < CallRank(s)
  {
    SameVisitSteps(s.boxes, s'.boxes, s.ct.k + 1);
    NextVisitRank(s', s.ct.reading, s.ct.k + 1);
    assert s' == s'.(ct := NextVisit(s', s.ct.reading, s.ct.k + 1));
  }

  lemma VisitStep(s: State, choice: Choice)
    requires InPlace(s) && s.ct.Visit?
    ensures InPlace(CtApply(s, choice)) && CallRank(CtApply(s, choice)) <= CallRank(s)
    ensures Effective(s, Control(choice)) ==> CallRank(CtApply(s, choice)) < CallRank(s)
  {
    var s', k := CtApply(s, choice), s.ct.k;
    ApplyKeepsSizes(s, Control(choice));
    if s.ct.m.SlaveWrite? && choice.WriteByte? {
      RankOfSizes(s, s');
    } else {
      CtGetsCloser(s.boxes[k], s.ct.m, ActOf(choice));
      var (b', m') := CtStep(s.boxes[k], s.ct.m, ActOf(choice));
      if m'.CtAway? {
        VisitEnds(s, s');
      } else {
        VisitGoesOn(s, s', CtLeft(b', m'));
      }
    }
  }

  lemma TransferStep(s: State, choice: Choice)
    requires InPlace(s) && s.ct != Idle && !s.ct.Visit?
    ensures InPlace(CtApply(s, choice)) && CallRank(CtApply(s, choice)) <= CallRank(s)
    ensures Effective(s, Control(choice)) ==> CallRank(CtApply(s, choice)) < CallRank(s)
  {
    var s' := CtApply(s, choice);
    NextVisitRank(s', true, 0);
  }

  lemma CallStep(s: State, a: Action)
    requires InPlace(s) && s.ct != Idle
    ensures InPlace(Apply(s, a)) && CallRank(Apply(s, a)) <= CallRank(s)
    ensures Effective(s, a) ==> CallRank(Apply(s, a)) < CallRank(s)
  {
    if !a.Control? {
      ApplyKeepsSizes(s, a);
      RankOfSizes(s, Apply(s, a));
    } else if s.ct.Visit? {
      VisitStep(s, a.choice);
    } else {
      TransferStep(s, a.choice);
    }
  }

  /** A call returns: in every schedule, once the control thread has had `CallRank` steps besides
      those it spends waiting for a transfer's service or in the plugins. */
  lemma {:induction false} CallReturns(s: State, schedule: seq<Action>, a: nat) returns (b: nat)
    requires a <= |schedule| && InPlace(StateAt(s, schedule, a)) && StateAt(s, schedule, a).ct != Idle
    requires CallRank(StateAt(s, schedule, a)) <= EffectiveSteps(s, schedule, a)
    ensures a < b <= |schedule| && StateAt(s, schedule, b).ct == Idle
    ensures forall x: nat | a <= x < b :: StateAt(s, schedule, x).ct != Idle
    decreases |schedule| - a
  {
    CallRankPositive(StateAt(s, schedule, a));
    StatesFollow(s, schedule, a);
    CallStep(StateAt(s, schedule, a), schedule[a]);
    if StateAt(s, schedule, a + 1).ct == Idle {
      b := a + 1;
    } else {
      b := CallReturns(s, schedule, a + 1);
    }
  }

  lemma {:induction false} RunKeepsBoxSizes(s: State, schedule: seq<Action>)
    ensures SameBoxSizes(s.boxes, Exec(s, schedule).boxes)
    decreases |schedule|
  {
    if schedule != [] {
      ApplyKeepsSizes(s, schedule[0]);
      RunKeepsBoxSizes(Apply(s, schedule[0]), schedule[1..]);
    }
  }

  lemma CallStarts(s: State, reading: bool)
    requires s.ct == Idle
    ensures var e := CtApply(s, if reading then CallRead else CallWrite);
            InPlace(e) && e.ct != Idle && CallRank(e) <= 4 + VisitSteps(s.boxes, 0)
  {
    NextVisitRank(s, false, 0);
  }

  /** Every call returns, and has then come to every slave's plugin once, in order: in every
      schedule in which the control thread gets enough steps that are not spent waiting for a
      transfer's service or in the plugins. */
  lemma EveryCallReturns(s: State, schedule: seq<Action>, reading: bool, a: nat) returns (b: nat)
    requires a < |schedule| && StateAt(s, schedule, a).ct == Idle
    requires schedule[a] == Control(if reading then CallRead else CallWrite)
    requires 4 + VisitSteps(s.boxes, 0) <= EffectiveSteps(s, schedule, a + 1)
    ensures InCall(s, schedule, reading, a, b) && StateAt(s, schedule, b).ct == Idle
    ensures Arrivals(s, schedule, a, b) == Slaves(|s.boxes|)
    ensures forall x: nat | a < x < b && AtPlugin(StateAt(s, schedule, x).ct) ::
              StateAt(s, schedule, x).ct.m.SlaveRead? == reading
  {
    StatesFollow(s, schedule, a);
    RunKeepsBoxSizes(s, schedule[..a]);
    SameVisitSteps(s.boxes, StateAt(s, schedule, a).boxes, 0);
    CallStarts(StateAt(s, schedule, a), reading);
    b := CallReturns(s, schedule, a + 1);
    EverySlaveIsVisited(s, schedule, reading, a, b);
  }

  lemma CallRankPositive(s: State)
    requires InPlace(s) && s.ct != Idle
    ensures CallRank(s) > 0
  {
  }

  /// Replies are taken over

  /** The control thread is taking over a reply of slave `k`. */
  predicate TakesOver(ct: Bus.CtPc, k: nat) {
    ct.Visit? && ct.k == k && ct.reading && (ct.m.CopyUnread? || ct.m.Push? || ct.m.ClearUnread?)
  }

  /** What has become of the box `b0` it began with. */
  ghost predicate TakingOver(b0: Box, b: Box, m: Mailbox.CtPc) {
    && b0.hasUnread && b.hasUnread && b.rmbx == b0.rmbx
    && (m.CopyUnread? ==> b.receiveQueue == b0.receiveQueue && m.buf <= b0.rmbx)
    && (m.Push? ==> b.receiveQueue == b0.receiveQueue && m.buf == b0.rmbx)
    && (m.ClearUnread? ==> |b0.receiveQueue| < 8 && b.receiveQueue == b0.receiveQueue + [b0.rmbx])
  }

  /** What `read` makes of a slave's box: an unread reply is queued if there is room, and only then
      is the mailbox free again. */
  ghost predicate TakenOver(b0: Box, b: Box) {
    if b0.hasUnread && |b0.receiveQueue| < 8
    then b.receiveQueue == b0.receiveQueue + [b0.rmbx] && !b.hasUnread
    else b.receiveQueue == b0.receiveQueue && b.hasUnread == b0.hasUnread
  }

  lemma RtLeavesReply(size: nat, b: Box, rt: Mailbox.RtPc, ct: Mailbox.CtPc, io: BusIo, b': Box, rt': Mailbox.RtPc)
    requires FlagInv(b, rt, ct) && RtMoves(size, b, rt, io, b', rt') && b.hasUnread
    ensures b'.hasUnread && b'.rmbx == b.rmbx && b'.receiveQueue == b.receiveQueue
  {
  }

  lemma CtTakesOver(b0: Box, b: Box, m: Mailbox.CtPc, act: PluginAct)
    requires (m.TestUnread? && b == b0) || ((m.CopyUnread? || m.Push? || m.ClearUnread?) && TakingOver(b0, b, m))
    ensures var (b', m') := CtStep(b, m, act);
            && (m'.SlaveRead? ==> TakenOver(b0, b'))
            && (m'.CopyUnread? || m'.Push? || m'.ClearUnread? ==> TakingOver(b0, b', m'))
            && (m'.SlaveRead? || m'.CopyUnread? || m'.Push? || m'.ClearUnread?)
  {
    if m.CopyUnread? && |m.buf| == |b.rmbx| {
      assert m.buf == b0.rmbx;
    }
  }

  predicate BeforeRead(ct: Bus.CtPc, k: nat) {
    TakesOver(ct, k) || ct == Visit(true, k, TestUnread)
  }

  /** One step of either thread while a reply is taken over. */
  lemma TakeOverStep(b0: Box, s: State, a: Action, k: nat)
    requires k < |s.boxes| && FlagInv(s.boxes[k], RtAt(s, k), CtAt(s, k)) && BeforeRead(s.ct, k)
    requires TakesOver(s.ct, k) ==> TakingOver(b0, s.boxes[k], s.ct.m)
    requires s.ct == Visit(true, k, TestUnread) && a.Control? ==> b0 == s.boxes[k]
    ensures k < |Apply(s, a).boxes|
    ensures var s' := Apply(s, a);
            if a.Control? then
              && (s'.ct == Visit(true, k, SlaveRead) ==> TakenOver(b0, s'.boxes[k]))
              && (TakesOver(s'.ct, k) ==> TakingOver(b0, s'.boxes[k], s'.ct.m))
              && (s'.ct == Visit(true, k, SlaveRead) || TakesOver(s'.ct, k))
            else s'.ct == s.ct && (TakesOver(s.ct, k) ==> TakingOver(b0, s'.boxes[k], s'.ct.m))
  {
    BoxesStay(s, a);
    match a {
      case Realtime(io) =>
        RtBoxMove(s, io, k);
        if TakesOver(s.ct, k) {
          RtLeavesReply(s.size, s.boxes[k], RtAt(s, k), CtAt(s, k), io, Apply(s, a).boxes[k], RtAt(Apply(s, a), k));
        }
      case Control(choice) => CtTakesOver(b0, s.boxes[k], s.ct.m, ActOf(choice));
      case Stop =>
    }
  }

  lemma BeforeTakeOver(s: State, a: Action, k: nat)
    requires InPlace(s)
    ensures TakesOver(Apply(s, a).ct, k) || (Apply(s, a).ct == Visit(true, k, SlaveRead) && s.ct != Apply(s, a).ct) ==>
              BeforeRead(s.ct, k)
  {
  }

  /** What every state of a run has, in the terms used here. */
  lemma {:induction false} StatesInPlace(s: State, schedule: seq<Action>, x: nat)
    requires Init(s) && x <= |schedule|
    ensures InPlace(StateAt(s, schedule, x))
    decreases x
  {
    if x == 0 {
      assert schedule[..0] == [];
    } else {
      StatesInPlace(s, schedule, x - 1);
      StatesFollow(s, schedule, x - 1);
      var p := StateAt(s, schedule, x - 1);
      if p.ct == Idle {
        NextVisitRank(p, false, 0);
      } else {
        CallStep(p, schedule[x - 1]);
      }
    }
  }

  /** The box of slave `k` in a state of a run. */
  function BoxAt(s: State, schedule: seq<Action>, x: nat, k: nat): Box
    requires x <= |schedule| && k < |StateAt(s, schedule, x).boxes|
  {
    StateAt(s, schedule, x).boxes[k]
  }

  lemma TakeOverBefore(b0: Box, s: State, schedule: seq<Action>, k: nat, x: nat)
    requires Init(s) && k < |s.boxes| && x < |schedule| && BeforeRead(StateAt(s, schedule, x).ct, k)
    requires k < |StateAt(s, schedule, x).boxes|
    requires var p := StateAt(s, schedule, x);
             && (TakesOver(p.ct, k) ==> TakingOver(b0, p.boxes[k], p.ct.m))
             && (p.ct == Visit(true, k, TestUnread) && schedule[x].Control? ==> b0 == p.boxes[k])
    ensures k < |StateAt(s, schedule, x + 1).boxes|
    ensures var p, e := StateAt(s, schedule, x), StateAt(s, schedule, x + 1);
            if schedule[x].Control? then
              && (e.ct == Visit(true, k, SlaveRead) ==> TakenOver(b0, e.boxes[k]))
              && (TakesOver(e.ct, k) ==> TakingOver(b0, e.boxes[k], e.ct.m))
            else e.ct == p.ct && (TakesOver(p.ct, k) ==> TakingOver(b0, e.boxes[k], e.ct.m))
  {
    StatesKeepInv(s, schedule, x);
    StatesFollow(s, schedule, x);
    FlagsHold(StateAt(s, schedule, x), k);
    TakeOverStep(b0, StateAt(s, schedule, x), schedule[x], k);
  }

  lemma CameFrom(s: State, schedule: seq<Action>, k: nat, x: nat)
    requires Init(s) && x < |schedule|
    requires var p, e := StateAt(s, schedule, x), StateAt(s, schedule, x + 1);
             TakesOver(e.ct, k) || (e.ct == Visit(true, k, SlaveRead) && p.ct != e.ct)
    ensures BeforeRead(StateAt(s, schedule, x).ct, k)
    ensures !schedule[x].Control? ==> StateAt(s, schedule, x + 1).ct == StateAt(s, schedule, x).ct
  {
    StatesInPlace(s, schedule, x);
    StatesFollow(s, schedule, x);
    BeforeTakeOver(StateAt(s, schedule, x), schedule[x], k);
  }

  /** Since its test at `a` the control thread has been taking over the reply of slave `k`. */
  ghost predicate TakingSince(s: State, schedule: seq<Action>, k: nat, a: nat, x: nat)
    requires x <= |schedule|
  {
    && a < x && StateAt(s, schedule, a).ct == Visit(true, k, TestUnread) && schedule[a].Control?
    && k < |StateAt(s, schedule, a).boxes| && k < |StateAt(s, schedule, x).boxes|
    && TakesOver(StateAt(s, schedule, x).ct, k)
    && TakingOver(BoxAt(s, schedule, a, k), BoxAt(s, schedule, x, k), StateAt(s, schedule, x).ct.m)
  }

  lemma TakingBegins(s: State, schedule: seq<Action>, k: nat, x: nat)
    requires Init(s) && k < |s.boxes| && x < |schedule|
    requires !TakesOver(StateAt(s, schedule, x).ct, k) && TakesOver(StateAt(s, schedule, x + 1).ct, k)
    ensures TakingSince(s, schedule, k, x, x + 1)
  {
    StatesKeepInv(s, schedule, x);
    CameFrom(s, schedule, k, x);
    TakeOverBefore(BoxAt(s, schedule, x, k), s, schedule, k, x);
  }

  lemma TakingGoesOn(s: State, schedule: seq<Action>, k: nat, a: nat, x: nat)
    requires Init(s) && k < |s.boxes| && x < |schedule| && TakingSince(s, schedule, k, a, x)
    requires TakesOver(StateAt(s, schedule, x + 1).ct, k)
    ensures TakingSince(s, schedule, k, a, x + 1)
  {
    TakeOverBefore(BoxAt(s, schedule, a, k), s, schedule, k, x);
  }

  lemma {:induction false} TakingOverSince(s: State, schedule: seq<Action>, k: nat, x: nat) returns (a: nat)
    requires Init(s) && k < |s.boxes| && x <= |schedule| && TakesOver(StateAt(s, schedule, x).ct, k)
    ensures TakingSince(s, schedule, k, a, x)
    decreases x
  {
    if x == 0 {
      NothingLogged(s, schedule, k);
    } else if TakesOver(StateAt(s, schedule, x - 1).ct, k) {
      a := TakingOverSince(s, schedule, k, x - 1);
      TakingGoesOn(s, schedule, k, a, x - 1);
    } else {
      a := x - 1;
      TakingBegins(s, schedule, k, x - 1);
    }
  }

  lemma TakeOverEnds(s: State, schedule: seq<Action>, k: nat, a: nat, x: nat)
    requires Init(s) && k < |s.boxes| && a <= x < |schedule|
    requires if TakesOver(StateAt(s, schedule, x).ct, k) then TakingSince(s, schedule, k, a, x) else a == x
    requires StateAt(s, schedule, x + 1).ct == Visit(true, k, SlaveRead) != StateAt(s, schedule, x).ct
    ensures StateAt(s, schedule, a).ct == Visit(true, k, TestUnread) && schedule[a].Control?
    ensures k < |StateAt(s, schedule, a).boxes| && k < |StateAt(s, schedule, x + 1).boxes|
    ensures TakenOver(BoxAt(s, schedule, a, k), BoxAt(s, schedule, x + 1, k))
  {
    StatesKeepInv(s, schedule, x);
    CameFrom(s, schedule, k, x);
    TakeOverBefore(BoxAt(s, schedule, a, k), s, schedule, k, x);
  }

  /** Whenever `read` comes to a plugin, it has tested that slave's unread flag before, and taken
      over the reply if there was one and room for it. */
  lemma ReplyIsTakenOver(s: State, schedule: seq<Action>, k: nat, b: nat) returns (a: nat)
    requires Init(s) && k < |s.boxes| && 0 < b <= |schedule|
    requires StateAt(s, schedule, b).ct == Visit(true, k, SlaveRead) != StateAt(s, schedule, b - 1).ct
    ensures a < b && StateAt(s, schedule, a).ct == Visit(true, k, TestUnread) && schedule[a].Control?
    ensures k < |StateAt(s, schedule, a).boxes| && k < |StateAt(s, schedule, b).boxes|
    ensures TakenOver(BoxAt(s, schedule, a, k), BoxAt(s, schedule, b, k))
  {
    a := b - 1;
    if TakesOver(StateAt(s, schedule, b - 1).ct, k) {
      a := TakingOverSince(s, schedule, k, b - 1);
    }
    TakeOverEnds(s, schedule, k, a, b - 1);
  }
}
