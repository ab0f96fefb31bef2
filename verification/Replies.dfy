/** What the mailbox logs and the received images hold is what the bus calls took and gave
    (soem_master.cpp): for every run, and every event in it, the call it comes from. */
module Replies {
  import opened Mailbox
  import opened ProcessData
  import opened Bus
  import opened Order

  /** `image` holds `n` bytes: those the bus call gave, and zeros where it gave none. */
  predicate Gives(io: BusIo, image: seq<Byte>, n: nat) {
    |image| == n && forall x | 0 <= x < n :: image[x] == if x < |io.image| then io.image[x] else 0
  }

  /** The bus call has delivered a reply. */
  predicate Answers(raw: bool, io: BusIo) {
    if raw then 0 <= io.wkc else 0 < io.wkc
  }

  lemma PadGives(io: BusIo, n: nat)
    ensures Gives(io, Pad(io.image, n), n)
  {
  }

  lemma SizeStays(s: State, a: Action)
    ensures Apply(s, a).size == s.size
  {
  }

  lemma {:induction false} RunKeepsSize(s: State, schedule: seq<Action>)
    ensures Exec(s, schedule).size == s.size
    decreases |schedule|
  {
    if schedule != [] {
      SizeStays(s, schedule[0]);
      RunKeepsSize(Apply(s, schedule[0]), schedule[1..]);
    }
  }

  /// Replies

  /** The realtime thread holds bytes it has received. */
  predicate Holding(m: Mailbox.RtPc) {
    m.CopyReceived? || m.SetUnread?
  }

  lemma HoldingRtMove(size: nat, b: Box, m: Mailbox.RtPc, io: BusIo, b': Box, m': Mailbox.RtPc)
    requires RtMoves(size, b, m, io, b', m') && Holding(m')
    ensures || (Holding(m) && m'.raw == m.raw && m'.buf == m.buf)
            || (m == Receive(m'.raw) && Answers(m'.raw, io) && Gives(io, m'.buf, size))
  {
    PadGives(io, size);
  }

  /** Bytes held now were held before this step, or are those of the receive call made in it. */
  lemma HoldingStep(s: State, schedule: seq<Action>, k: nat, n: nat)
    requires Init(s) && k < |s.boxes| && n < |schedule| && Holding(RtAt(StateAt(s, schedule, n + 1), k))
    ensures var m, m' := RtAt(StateAt(s, schedule, n), k), RtAt(StateAt(s, schedule, n + 1), k);
            || (Holding(m) && m'.raw == m.raw && m'.buf == m.buf)
            || (schedule[n].Realtime? && m == Receive(m'.raw) && Answers(m'.raw, schedule[n].io)
                && Gives(schedule[n].io, m'.buf, s.size))
  {
    var p, e := StateAt(s, schedule, n), StateAt(s, schedule, n + 1);
    StatesKeepInv(s, schedule, n);
    StatesFollow(s, schedule, n);
    RunKeepsSize(s, schedule[..n]);
    match schedule[n] {
      case Realtime(io) =>
        RtBoxMove(p, io, k);
        HoldingRtMove(p.size, p.boxes[k], RtAt(p, k), io, e.boxes[k], RtAt(e, k));
      case Control(choice) => CtBoxMove(p, choice, k);
      case Stop =>
    }
  }

  /** Between receive call `j` and `n` the realtime thread is in one visit of slave `k`. */
  ghost predicate HoldingFrom(s: State, schedule: seq<Action>, k: nat, j: nat, n: nat)
    requires n <= |schedule|
  {
    forall x: nat | j < x <= n :: Holding(RtAt(StateAt(s, schedule, x), k))
  }

  lemma {:induction false} HeldSince(s: State, schedule: seq<Action>, k: nat, n: nat) returns (j: nat)
    requires Init(s) && k < |s.boxes| && n <= |schedule| && Holding(RtAt(StateAt(s, schedule, n), k))
    ensures j < n && schedule[j].Realtime? && HoldingFrom(s, schedule, k, j, n)
    ensures var m := RtAt(StateAt(s, schedule, n), k);
            && RtAt(StateAt(s, schedule, j), k) == Receive(m.raw) && Answers(m.raw, schedule[j].io)
            && Gives(schedule[j].io, m.buf, s.size)
    decreases n
  {
    if n == 0 {
      NothingLogged(s, schedule, k);
    } else {
      HoldingStep(s, schedule, k, n - 1);
      if Holding(RtAt(StateAt(s, schedule, n - 1), k)) {
        j := HeldSince(s, schedule, k, n - 1);
        HoldingLonger(s, schedule, k, j, n - 1);
      } else {
        j := n - 1;
      }
    }
  }

  lemma HoldingLonger(s: State, schedule: seq<Action>, k: nat, j: nat, n: nat)
    requires n < |schedule| && HoldingFrom(s, schedule, k, j, n) && Holding(RtAt(StateAt(s, schedule, n + 1), k))
    ensures HoldingFrom(s, schedule, k, j, n + 1)
  {
  }

  /** The step that reports a fetch reports the bytes held, as many as `RMbx` has. */
  lemma FetchedAre(s: State, io: BusIo, k: nat)
    requires Bus.Inv(s) && k < |s.boxes| && RtAt(s, k).SetUnread?
    ensures var m, b, b' := RtAt(s, k), s.boxes[k], RtApply(s, io).boxes[k];
            && |b.rmbx| <= |m.buf|
            && b'.log == b.log + [Fetched(m.raw, m.buf[..|b.rmbx|])]
  {
    assert Mailbox.Inv(s.size, s.boxes[k], RtAt(s, k), CtAt(s, k));
  }

  lemma FetchedAt(s: State, schedule: seq<Action>, k: nat, n: nat)
    requires Init(s) && n < |schedule| && k < |s.boxes| && schedule[n].Realtime?
    requires RtAt(StateAt(s, schedule, n), k).SetUnread?
    ensures k < |StateAt(s, schedule, n).boxes| && k < |StateAt(s, schedule, n + 1).boxes|
    ensures var m, b, b' := RtAt(StateAt(s, schedule, n), k), StateAt(s, schedule, n).boxes[k],
                            StateAt(s, schedule, n + 1).boxes[k];
            |b.rmbx| <= |m.buf| && b'.log == b.log + [Fetched(m.raw, m.buf[..|b.rmbx|])]
  {
    StatesKeepInv(s, schedule, n);
    StatesFollow(s, schedule, n);
    BoxesStay(StateAt(s, schedule, n), schedule[n]);
    FetchedAre(StateAt(s, schedule, n), schedule[n].io, k);
  }

  /** For every run and every fetch in a slave's log: the reply was delivered by a receive call of
      the same visit, in the request's mode, which the bus answered; it has as many bytes as `RMbx`,
      and they are the bytes the bus gave. */
  lemma FetchesAreReceived(s: State, schedule: seq<Action>, k: nat, i: nat) returns (j: nat, n: nat)
    requires Init(s) && k < |s.boxes| && k < |Exec(s, schedule).boxes|
    requires var log := Exec(s, schedule).boxes[k].log; i < |log| && log[i].Fetched?
    ensures j < n < |schedule| && schedule[j].Realtime? && HoldingFrom(s, schedule, k, j, n)
    ensures k < |StateAt(s, schedule, n).boxes|
            && StateAt(s, schedule, n).boxes[k].log == Exec(s, schedule).boxes[k].log[..i]
    ensures var Fetched(raw, image) := Exec(s, schedule).boxes[k].log[i];
            && RtAt(StateAt(s, schedule, j), k) == Receive(raw)
            && (if raw then 0 <= schedule[j].io.wkc else 0 < schedule[j].io.wkc)
            && Gives(schedule[j].io, image, |StateAt(s, schedule, n).boxes[k].rmbx|)
  {
    assert schedule[..|schedule|] == schedule;
    n := EventReported(s, schedule, k, i, |schedule|);
    LogBefore(s, schedule, k, n);
    j := HeldSince(s, schedule, k, n);
    FetchedAt(s, schedule, k, n);
  }

  /** A receive call the bus does not answer logs nothing, leaves the fetch wanted, and ends the
      visit. */
  lemma FailedReceiveWaits(s: State, schedule: seq<Action>, k: nat, j: nat)
    requires Init(s) && k < |s.boxes| && j < |schedule| && schedule[j].Realtime?
    requires var m := RtAt(StateAt(s, schedule, j), k);
             m.Receive? && if m.raw then schedule[j].io.wkc < 0 else schedule[j].io.wkc <= 0
    ensures k < |StateAt(s, schedule, j).boxes| && k < |StateAt(s, schedule, j + 1).boxes|
    ensures StateAt(s, schedule, j + 1).boxes[k] == StateAt(s, schedule, j).boxes[k]
    ensures StateAt(s, schedule, j + 1).boxes[k].receive && !StateAt(s, schedule, j + 1).boxes[k].hasUnread
    ensures RtAt(StateAt(s, schedule, j + 1), k).RtAway?
  {
    StatesKeepInv(s, schedule, j);
    StatesFollow(s, schedule, j);
    FlagsHold(StateAt(s, schedule, j), k);
  }

  /// Sends

  /** The buffer a send is made from was cleared, and is so behind what has been copied. */
  predicate Cleared(b: Box, m: Mailbox.RtPc) {
    && (m.CopySend? ==> m.i <= |b.smbx| && forall x | m.i <= x < |m.buf| :: m.buf[x] == 0)
    && (m.Send? ==> forall x | |b.smbx| <= x < |m.buf| :: m.buf[x] == 0)
  }

  lemma ClearedRtMove(size: nat, b: Box, m: Mailbox.RtPc, io: BusIo, b': Box, m': Mailbox.RtPc)
    requires RtMoves(size, b, m, io, b', m') && Cleared(b, m)
    ensures Cleared(b', m')
  {
  }

  lemma ClearedCtMove(b: Box, m: Mailbox.RtPc, ct: Mailbox.CtPc, act: PluginAct, b': Box, ct': Mailbox.CtPc)
    requires CtMoves(b, ct, act, b', ct') && Cleared(b, m)
    ensures Cleared(b', m)
  {
    assert |b'.smbx| == |b.smbx|;
  }

  lemma ClearedStep(s: State, a: Action, k: nat)
    requires k < |s.boxes| == |Apply(s, a).boxes| && Cleared(s.boxes[k], RtAt(s, k))
    ensures Cleared(Apply(s, a).boxes[k], RtAt(Apply(s, a), k))
  {
    var s' := Apply(s, a);
    match a {
      case Realtime(io) =>
        RtBoxMove(s, io, k);
        ClearedRtMove(s.size, s.boxes[k], RtAt(s, k), io, s'.boxes[k], RtAt(s', k));
      case Control(choice) =>
        CtBoxMove(s, choice, k);
        ClearedCtMove(s.boxes[k], RtAt(s, k), CtAt(s, k), ActOf(choice), s'.boxes[k], CtAt(s', k));
      case Stop =>
    }
  }

  lemma {:induction false} ClearedAt(s: State, schedule: seq<Action>, k: nat, n: nat)
    requires Init(s) && n <= |schedule| && k < |s.boxes|
    ensures k < |StateAt(s, schedule, n).boxes|
    ensures Cleared(StateAt(s, schedule, n).boxes[k], RtAt(StateAt(s, schedule, n), k))
    decreases n
  {
    if n == 0 {
      NothingLogged(s, schedule, k);
    } else {
      ClearedAt(s, schedule, k, n - 1);
      StatesFollow(s, schedule, n - 1);
      BoxesStay(StateAt(s, schedule, n - 1), schedule[n - 1]);
      ClearedStep(StateAt(s, schedule, n - 1), schedule[n - 1], k);
    }
  }

  /** `payload` is a cleared buffer of `n` bytes with `smbx` in front, as far as it fits. */
  predicate Fills(payload: seq<Byte>, smbx: seq<Byte>, n: nat) {
    |payload| == n && forall x | 0 <= x < n :: payload[x] == if x < |smbx| then smbx[x] else 0
  }

  lemma SentAre(s: State, a: Action, k: nat)
    requires k < |s.boxes| == |Apply(s, a).boxes|
    requires PayloadInv(s.size, s.boxes[k], RtAt(s, k)) && Cleared(s.boxes[k], RtAt(s, k))
    ensures var log, log' := s.boxes[k].log, Apply(s, a).boxes[k].log;
            |log'| == |log| + 1 && log'[|log|].Sent? ==>
              && a.Realtime? && RtAt(s, k).Send? && 0 < a.io.wkc
              && Fills(log'[|log|].payload, s.boxes[k].smbx, s.size)
  {
    match a {
      case Realtime(io) =>
        RtBoxMove(s, io, k);
        SentByRt(s.size, s.boxes[k], RtAt(s, k), io, Apply(s, a).boxes[k], RtAt(Apply(s, a), k));
      case Control(choice) =>
        CtBoxMove(s, choice, k);
        CtLogMove(s.boxes[k], CtAt(s, k), ActOf(choice), Apply(s, a).boxes[k], CtAt(Apply(s, a), k));
      case Stop =>
    }
  }

  lemma SentByRt(size: nat, b: Box, m: Mailbox.RtPc, io: BusIo, b': Box, m': Mailbox.RtPc)
    requires RtMoves(size, b, m, io, b', m') && PayloadInv(size, b, m) && Cleared(b, m)
    ensures |b'.log| == |b.log| + 1 && b'.log[|b.log|].Sent? ==>
              m.Send? && 0 < io.wkc && Fills(b'.log[|b.log|].payload, b.smbx, size)
  {
    if m.Send? {
      forall x | 0 <= x < Min(|b.smbx|, size)
        ensures m.buf[x] == b.smbx[x]
      {
        assert m.buf[..Min(|b.smbx|, size)][x] == b.smbx[..Min(|b.smbx|, size)][x];
      }
    }
  }

  lemma PayloadHolds(s: State, k: nat)
    requires Bus.Inv(s) && k < |s.boxes|
    ensures PayloadInv(s.size, s.boxes[k], RtAt(s, k))
  {
    assert Mailbox.Inv(s.size, s.boxes[k], RtAt(s, k), CtAt(s, k));
  }

  lemma PayloadAt(s: State, schedule: seq<Action>, k: nat, n: nat)
    requires Init(s) && n <= |schedule| && k < |s.boxes|
    ensures var p := StateAt(s, schedule, n);
            k < |p.boxes| && p.size == s.size && PayloadInv(p.size, p.boxes[k], RtAt(p, k))
  {
    StatesKeepInv(s, schedule, n);
    RunKeepsSize(s, schedule[..n]);
    PayloadHolds(StateAt(s, schedule, n), k);
  }

  lemma SentAt(s: State, schedule: seq<Action>, k: nat, n: nat)
    requires Init(s) && n < |schedule|
    requires k < |s.boxes| && k < |StateAt(s, schedule, n).boxes| && k < |StateAt(s, schedule, n + 1).boxes|
    requires var log, log' := StateAt(s, schedule, n).boxes[k].log, StateAt(s, schedule, n + 1).boxes[k].log;
             |log'| == |log| + 1 && log'[|log|].Sent?
    ensures schedule[n].Realtime? && RtAt(StateAt(s, schedule, n), k).Send? && 0 < schedule[n].io.wkc
    ensures var p, log' := StateAt(s, schedule, n), StateAt(s, schedule, n + 1).boxes[k].log;
            Fills(log'[|p.boxes[k].log|].payload, p.boxes[k].smbx, s.size)
  {
    PayloadAt(s, schedule, k, n);
    ClearedAt(s, schedule, k, n);
    StatesFollow(s, schedule, n);
    BoxesStay(StateAt(s, schedule, n), schedule[n]);
    SentAre(StateAt(s, schedule, n), schedule[n], k);
  }

  /** For every run and every send in a slave's log: the bus has confirmed it, and what was sent is
      the whole of `SMbx` at that moment, in a buffer that is zero behind it. */
  lemma SendsAreConfirmed(s: State, schedule: seq<Action>, k: nat, i: nat) returns (n: nat)
    requires Init(s) && k < |s.boxes| && k < |Exec(s, schedule).boxes|
    requires var log := Exec(s, schedule).boxes[k].log; i < |log| && log[i].Sent?
    ensures n < |schedule| && schedule[n].Realtime? && RtAt(StateAt(s, schedule, n), k).Send?
    ensures 0 < schedule[n].io.wkc
    ensures k < |StateAt(s, schedule, n).boxes|
            && StateAt(s, schedule, n).boxes[k].log == Exec(s, schedule).boxes[k].log[..i]
    ensures var payload, smbx := Exec(s, schedule).boxes[k].log[i].payload, StateAt(s, schedule, n).boxes[k].smbx;
            Fills(payload, smbx, s.size)
  {
    assert schedule[..|schedule|] == schedule;
    n := EventReported(s, schedule, k, i, |schedule|);
    SentAt(s, schedule, k, n);
  }

  /** A send call that fails logs nothing and leaves the send requested. */
  lemma FailedSendWaits(s: State, schedule: seq<Action>, k: nat, j: nat)
    requires Init(s) && k < |s.boxes| && j < |schedule| && schedule[j].Realtime?
    requires RtAt(StateAt(s, schedule, j), k).Send? && schedule[j].io.wkc <= 0
    ensures k < |StateAt(s, schedule, j).boxes| && k < |StateAt(s, schedule, j + 1).boxes|
    ensures StateAt(s, schedule, j + 1).boxes[k] == StateAt(s, schedule, j).boxes[k]
    ensures StateAt(s, schedule, j + 1).boxes[k].sendRequest
  {
    StatesKeepInv(s, schedule, j);
    StatesFollow(s, schedule, j);
    FlagsHold(StateAt(s, schedule, j), k);
  }

  /// Input process data

  lemma InputStep(s: State, a: Action)
    ensures var n, n' := s.input, Apply(s, a).input;
            || n'.received == n.received
            || (a.Realtime? && s.rt == Inputs(ReceivePd) && n'.received[..|n'.received| - 1] == n.received
                && |n'.received| == |n.received| + 1 && Gives(a.io, n'.received[|n.received|], |n.region|))
  {
    if a.Realtime? {
      PadGives(a.io, |s.input.region|);
    }
  }

  lemma NothingReceived(s: State, schedule: seq<Action>)
    requires Init(s)
    ensures StateAt(s, schedule, 0) == s && s.input.received == []
  {
    assert schedule[..0] == [];
  }

  /** For every run: every received input image is what one receive call gave. */
  lemma {:induction false} InputsAreReceived(s: State, schedule: seq<Action>, i: nat, end: nat) returns (j: nat)
    requires Init(s) && end <= |schedule| && i < |StateAt(s, schedule, end).input.received|
    ensures j < end && schedule[j].Realtime? && StateAt(s, schedule, j).rt == Inputs(ReceivePd)
    ensures |StateAt(s, schedule, j).input.received| == i
    ensures Gives(schedule[j].io, StateAt(s, schedule, end).input.received[i], |StateAt(s, schedule, j).input.region|)
    decreases end
  {
    if end == 0 {
      NothingReceived(s, schedule);
    } else {
      StatesFollow(s, schedule, end - 1);
      InputStep(StateAt(s, schedule, end - 1), schedule[end - 1]);
      if i < |StateAt(s, schedule, end - 1).input.received| {
        j := InputsAreReceived(s, schedule, i, end - 1);
      } else {
        j := end - 1;
      }
    }
  }
}
