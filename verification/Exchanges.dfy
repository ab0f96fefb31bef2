/** When `write` starts a mailbox exchange (soem_driver.cpp): for every run and every slave,
    exactly when it finds both flags clear and a message queued. */
module Exchanges {
  import opened Mailbox
  import opened Bus
  import opened Order
  import opened Calls

  /** After its test for a pending send the control thread is still at slave `k`. */
  predicate Starts(ct: Bus.CtPc, k: nat) {
    ct.Visit? && ct.k == k && !ct.reading && (ct.m.TestReceive? || ct.m.ConsumeOne? || Publishing(ct.m))
  }

  predicate InWrite(ct: Bus.CtPc, k: nat) {
    Starts(ct, k) || ct == Visit(false, k, TestSend)
  }

  /** What has become of the box `b0` it tested. */
  ghost predicate Starting(b0: Box, b: Box, m: Mailbox.CtPc) {
    && b.accepted == b0.accepted && !b0.sendRequest && !b.sendRequest
    && (m.TestReceive? ==> b.sendQueue == b0.sendQueue)
    && (m.ConsumeOne? ==> b.sendQueue == b0.sendQueue && !b.receive)
    && (Publishing(m) ==> b0.sendQueue != [] && b.sendQueue == b0.sendQueue[1..])
  }

  /** What has become of it when the control thread leaves the slave from position `m`. */
  ghost predicate Left(b0: Box, b: Box, m: Mailbox.CtPc) {
    && b.accepted == b0.accepted
    && (m.StoreSend? ==> b.sendRequest && b0.sendQueue != [] && b.sendQueue == b0.sendQueue[1..])
    && (!m.StoreSend? ==> b.sendQueue == b0.sendQueue)
    && (m.ConsumeOne? ==> b0.sendQueue == [])
  }

  lemma RtLeavesStart(size: nat, b0: Box, b: Box, rt: Mailbox.RtPc, ct: Mailbox.CtPc, io: BusIo, b': Box, rt': Mailbox.RtPc)
    requires RtMoves(size, b, rt, io, b', rt') && FlagInv(b, rt, ct)
    requires Starting(b0, b, ct)
    ensures Starting(b0, b', ct)
  {
  }

  lemma CtStarts(b0: Box, b: Box, m: Mailbox.CtPc, act: PluginAct)
    requires (m.TestSend? && b == b0) || ((m.TestReceive? || m.ConsumeOne? || Publishing(m)) && Starting(b0, b, m))
    ensures var (b', m') := CtStep(b, m, act);
            && (m'.CtAway? || m'.TestReceive? || m'.ConsumeOne? || Publishing(m'))
            && (m'.CtAway? ==> Left(b0, b', m) && !CopyStage(m))
            && (!m'.CtAway? ==> Starting(b0, b', m'))
            && (m.TestSend? ==> (m'.CtAway? <==> b.sendRequest) && !m'.ConsumeOne? && !Publishing(m'))
            && (m.TestReceive? ==> (m'.CtAway? <==> b.receive) && !m'.TestReceive? && !Publishing(m'))
            && (m.ConsumeOne? ==> (m'.CtAway? <==> b.sendQueue == []) && (m'.CtAway? || Publishing(m')))
            && (Publishing(m) ==> m'.CtAway? || Publishing(m'))
  {
  }

  predicate CopyStage(m: Mailbox.CtPc) {
    m.CopyMessage? || m.StoreRaw? || m.StoreReceive?
  }

  /** The control thread comes to a position after its test only from one before. */
  lemma CameToStart(s: State, a: Action, k: nat)
    requires InPlace(s)
    ensures Starts(Apply(s, a).ct, k) ==> InWrite(s.ct, k) && (!a.Control? ==> Apply(s, a).ct == s.ct)
  {
  }

  lemma LeftFromWrite(s: State, a: Action, k: nat)
    requires InPlace(s) && s.ct.Visit? && !s.ct.reading && s.ct.k == k
    requires !(Apply(s, a).ct.Visit? && !Apply(s, a).ct.reading && Apply(s, a).ct.k == k)
    ensures InWrite(s.ct, k) && a.Control?
    ensures k < |s.boxes| && k < |Apply(s, a).boxes|
    ensures (Apply(s, a).boxes[k], CtAway) == CtStep(s.boxes[k], s.ct.m, ActOf(a.choice))
  {
  }

  lemma StartStep(b0: Box, s: State, a: Action, k: nat)
    requires k < |s.boxes| && FlagInv(s.boxes[k], RtAt(s, k), CtAt(s, k)) && InWrite(s.ct, k)
    requires Starts(s.ct, k) ==> Starting(b0, s.boxes[k], s.ct.m)
    requires s.ct == Visit(false, k, TestSend) ==> a.Control? && b0 == s.boxes[k]
    requires Starts(Apply(s, a).ct, k)
    ensures k < |Apply(s, a).boxes| && Starting(b0, Apply(s, a).boxes[k], Apply(s, a).ct.m)
    ensures !Apply(s, a).ct.m.TestReceive? && (s.ct.m.TestSend? || s.ct.m.TestReceive?) ==>
              a.Control? && s.ct.m.TestReceive? && !s.boxes[k].receive
  {
    BoxesStay(s, a);
    match a {
      case Realtime(io) =>
        RtBoxMove(s, io, k);
        RtLeavesStart(s.size, b0, s.boxes[k], RtAt(s, k), CtAt(s, k), io, Apply(s, a).boxes[k], RtAt(Apply(s, a), k));
      case Control(choice) => CtStarts(b0, s.boxes[k], s.ct.m, ActOf(choice));
      case Stop =>
    }
  }

  /** `t` is the step at which the receive flag was found clear. */
  ghost predicate FoundClear(s: State, schedule: seq<Action>, k: nat, t: nat)
    requires t < |schedule|
  {
    && StateAt(s, schedule, t).ct == Visit(false, k, TestReceive) && schedule[t].Control?
    && k < |StateAt(s, schedule, t).boxes| && !BoxAt(s, schedule, t, k).receive
  }

  /** Since its test at `a` the control thread has been at slave `k`; past its next test, that was `t`. */
  ghost predicate StartingAt(s: State, schedule: seq<Action>, k: nat, a: nat, t: nat, x: nat)
    requires x <= |schedule|
  {
    && a < x && StateAt(s, schedule, a).ct == Visit(false, k, TestSend) && schedule[a].Control?
    && k < |StateAt(s, schedule, a).boxes| && k < |StateAt(s, schedule, x).boxes|
    && Starts(StateAt(s, schedule, x).ct, k)
    && Starting(BoxAt(s, schedule, a, k), BoxAt(s, schedule, x, k), StateAt(s, schedule, x).ct.m)
    && (!StateAt(s, schedule, x).ct.m.TestReceive? ==> a < t < x && FoundClear(s, schedule, k, t))
  }

  lemma StartBegins(s: State, schedule: seq<Action>, k: nat, x: nat)
    requires Init(s) && k < |s.boxes| && x < |schedule|
    requires !Starts(StateAt(s, schedule, x).ct, k) && Starts(StateAt(s, schedule, x + 1).ct, k)
    ensures StartingAt(s, schedule, k, x, x, x + 1)
  {
    StatesKeepInv(s, schedule, x);
    StatesInPlace(s, schedule, x);
    StatesFollow(s, schedule, x);
    CameToStart(StateAt(s, schedule, x), schedule[x], k);
    FlagsHold(StateAt(s, schedule, x), k);
    StartStep(BoxAt(s, schedule, x, k), StateAt(s, schedule, x), schedule[x], k);
  }

  lemma StartGoesOn(s: State, schedule: seq<Action>, k: nat, a: nat, t: nat, x: nat) returns (t': nat)
    requires Init(s) && k < |s.boxes| && x < |schedule| && StartingAt(s, schedule, k, a, t, x)
    requires Starts(StateAt(s, schedule, x + 1).ct, k)
    ensures StartingAt(s, schedule, k, a, t', x + 1)
  {
    StatesKeepInv(s, schedule, x);
    StatesInPlace(s, schedule, x);
    StatesFollow(s, schedule, x);
    FlagsHold(StateAt(s, schedule, x), k);
    StartStep(BoxAt(s, schedule, a, k), StateAt(s, schedule, x), schedule[x], k);
    t' := if StateAt(s, schedule, x).ct.m.TestReceive? then x else t;
  }

  lemma {:induction false} StartingSince(s: State, schedule: seq<Action>, k: nat, x: nat) returns (a: nat, t: nat)
    requires Init(s) && k < |s.boxes| && x <= |schedule| && Starts(StateAt(s, schedule, x).ct, k)
    ensures StartingAt(s, schedule, k, a, t, x)
    decreases x
  {
    if x == 0 {
      NothingLogged(s, schedule, k);
    } else if Starts(StateAt(s, schedule, x - 1).ct, k) {
      a, t := StartingSince(s, schedule, k, x - 1);
      t := StartGoesOn(s, schedule, k, a, t, x - 1);
    } else {
      a, t := x - 1, x - 1;
      StartBegins(s, schedule, k, x - 1);
    }
  }

  lemma Consumed(b0: Box, b: Box, r0: seq<Request>, r: seq<Request>)
    requires b0.accepted == r0 + b0.sendQueue && b.accepted == r + b.sendQueue && b.accepted == b0.accepted
    requires b0.sendQueue != [] && b.sendQueue == b0.sendQueue[1..]
    ensures r == r0 + [b0.sendQueue[0]]
  {
    var q := b0.sendQueue;
    assert r0 + q == r0 + [q[0]] + q[1..];
    assert |r| == |r0| + 1;
    assert r == b.accepted[..|r|] == (r0 + [q[0]] + q[1..])[..|r|];
  }

  lemma NotConsumed(b0: Box, b: Box, r0: seq<Request>, r: seq<Request>)
    requires b0.accepted == r0 + b0.sendQueue && b.accepted == r + b.sendQueue && b.accepted == b0.accepted
    requires b.sendQueue == b0.sendQueue
    ensures r == r0
  {
    assert r == b.accepted[..|r|] && r0 == b.accepted[..|r0|];
  }

  /** The box when the control thread has left the slave: a message has been taken from the queue,
      and is in `SMbx` with its send requested, or nothing has happened. */
  ghost predicate Outcome(b0: Box, b: Box, starts: bool) {
    if starts then
      && b0.sendQueue != [] && b.sendQueue == b0.sendQueue[1..]
      && RequestsOf(b.log) == RequestsOf(b0.log) + [b0.sendQueue[0]]
      && b.sendRequest && Carries(b.smbx, b0.sendQueue[0].msg, |b.smbx|)
    else b.sendQueue == b0.sendQueue && RequestsOf(b.log) == RequestsOf(b0.log)
  }

  lemma LedgerHolds(s: State, k: nat)
    requires Bus.Inv(s) && k < |s.boxes|
    ensures s.boxes[k].accepted == RequestsOf(s.boxes[k].log) + s.boxes[k].sendQueue
  {
    assert Mailbox.Inv(s.size, s.boxes[k], RtAt(s, k), CtAt(s, k));
  }

  /** The message of the last request taken is in `SMbx`. */
  predicate RequestInBuffer(b: Box) {
    var requests := RequestsOf(b.log);
    requests != [] && Carries(b.smbx, requests[|requests| - 1].msg, |b.smbx|)
  }

  /** A requested send is that of the last request taken, whose message is in `SMbx`. */
  lemma RequestedHolds(s: State, k: nat)
    requires Bus.Inv(s) && k < |s.boxes| && s.boxes[k].sendRequest
    ensures RequestInBuffer(s.boxes[k])
  {
    var b := s.boxes[k];
    assert Mailbox.Inv(s.size, b, RtAt(s, k), CtAt(s, k));
    ReplayedCounts(b.log, Min(|b.smbx|, s.size));
  }

  lemma LeftOutcome(b0: Box, b: Box, m: Mailbox.CtPc)
    requires b0.accepted == RequestsOf(b0.log) + b0.sendQueue && b.accepted == RequestsOf(b.log) + b.sendQueue
    requires Left(b0, b, m)
    requires m.StoreSend? ==> RequestInBuffer(b)
    ensures Outcome(b0, b, m.StoreSend?)
  {
    if m.StoreSend? {
      Consumed(b0, b, RequestsOf(b0.log), RequestsOf(b.log));
    } else {
      NotConsumed(b0, b, RequestsOf(b0.log), RequestsOf(b.log));
    }
  }

  /** The step with which the control thread leaves slave `k`, after its test at `a`. */
  lemma LeaveStep(s: State, schedule: seq<Action>, k: nat, a: nat, x: nat)
    requires Init(s) && k < |s.boxes| && a <= x < |schedule| && k < |StateAt(s, schedule, a).boxes|
    requires var ct := StateAt(s, schedule, x).ct; ct.Visit? && !ct.reading && ct.k == k
    requires var ct := StateAt(s, schedule, x + 1).ct; !(ct.Visit? && !ct.reading && ct.k == k)
    requires k < |StateAt(s, schedule, x).boxes|
    requires var ct := StateAt(s, schedule, x).ct;
             if Starts(ct, k) then Starting(BoxAt(s, schedule, a, k), BoxAt(s, schedule, x, k), ct.m) else a == x
    ensures var m := StateAt(s, schedule, x).ct.m;
            && k < |StateAt(s, schedule, x + 1).boxes| && schedule[x].Control? && InWrite(StateAt(s, schedule, x).ct, k)
            && Left(BoxAt(s, schedule, a, k), BoxAt(s, schedule, x + 1, k), m) && !CopyStage(m)
            && (m.TestSend? ==> BoxAt(s, schedule, x, k).sendRequest)
            && (m.TestReceive? ==> BoxAt(s, schedule, x, k).receive)
  {
    StatesInPlace(s, schedule, x);
    StatesFollow(s, schedule, x);
    LeftFromWrite(StateAt(s, schedule, x), schedule[x], k);
    CtStarts(BoxAt(s, schedule, a, k), BoxAt(s, schedule, x, k), StateAt(s, schedule, x).ct.m, ActOf(schedule[x].choice));
  }

  /** Whenever `write` leaves a slave, it has tested for a pending send (`a`) and, finding none, for a
      wanted reply (`t`), and it has started an exchange of the oldest queued message if and only
      if both were found clear and a message was queued. */
  lemma WriteStartsExchangeIff(s: State, schedule: seq<Action>, k: nat, b: nat) returns (a: nat, t: nat)
    requires Init(s) && k < |s.boxes| && 0 < b <= |schedule|
    requires StateAt(s, schedule, b - 1).ct.Visit? && !StateAt(s, schedule, b - 1).ct.reading
             && StateAt(s, schedule, b - 1).ct.k == k
    requires var ct := StateAt(s, schedule, b).ct; !(ct.Visit? && !ct.reading && ct.k == k)
    ensures a < b && StateAt(s, schedule, a).ct == Visit(false, k, TestSend) && schedule[a].Control?
    ensures k < |StateAt(s, schedule, a).boxes| && k < |StateAt(s, schedule, b).boxes|
    ensures !BoxAt(s, schedule, a, k).sendRequest ==>
              && a < t < b && StateAt(s, schedule, t).ct == Visit(false, k, TestReceive) && schedule[t].Control?
              && k < |StateAt(s, schedule, t).boxes|
    ensures var b0 := BoxAt(s, schedule, a, k);
            Outcome(b0, BoxAt(s, schedule, b, k),
                    !b0.sendRequest && !BoxAt(s, schedule, t, k).receive && b0.sendQueue != [])
  {
    var m := StateAt(s, schedule, b - 1).ct.m;
    StatesKeepInv(s, schedule, b - 1);
    a, t := b - 1, b - 1;
    if Starts(StateAt(s, schedule, b - 1).ct, k) {
      a, t := StartingSince(s, schedule, k, b - 1);
      if m.TestReceive? {
        t := b - 1;
      }
    }
    LeaveStep(s, schedule, k, a, b - 1);
    StatesKeepInv(s, schedule, a);
    StatesKeepInv(s, schedule, b);
    LedgerHolds(StateAt(s, schedule, a), k);
    LedgerHolds(StateAt(s, schedule, b), k);
    if m.StoreSend? {
      RequestedHolds(StateAt(s, schedule, b), k);
    }
    LeftOutcome(BoxAt(s, schedule, a, k), BoxAt(s, schedule, b, k), m);
  }
}
