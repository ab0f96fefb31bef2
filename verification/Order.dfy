/** Whether a reply is fetched before or after its own request is sent. Either can happen:
    `receive_mbx` is set before `send_mbx_request` (soem_driver.cpp), the realtime thread reads them
    in the other order, and it goes on to the fetch even if the send has failed (soem_master.cpp).
    What decides is the moment at which the realtime thread finds `receive_mbx` set. */
module Order {
  import opened Mailbox
  import opened ProcessData
  import opened Bus

  lemma {:induction false} OneMore(s: State, schedule: seq<Action>, a: Action)
    ensures Exec(s, schedule + [a]) == Apply(Exec(s, schedule), a)
    decreases |schedule|
  {
    if schedule == [] {
      assert [] + [a] == [a] && [a][1..] == [];
    } else {
      assert (schedule + [a])[1..] == schedule[1..] + [a];
      OneMore(Apply(s, schedule[0]), schedule[1..], a);
    }
  }

  /** The state before action `j` of a schedule. */
  function StateAt(s: State, schedule: seq<Action>, j: nat): State
    requires j <= |schedule|
  {
    Exec(s, schedule[..j])
  }

  lemma StatesFollow(s: State, schedule: seq<Action>, j: nat)
    requires j < |schedule|
    ensures StateAt(s, schedule, j + 1) == Apply(StateAt(s, schedule, j), schedule[j])
  {
    assert schedule[..j + 1] == schedule[..j] + [schedule[j]];
    OneMore(s, schedule[..j], schedule[j]);
  }

  lemma BoxesStay(s: State, a: Action)
    ensures |Apply(s, a).boxes| == |s.boxes|
  {
  }

  lemma {:induction false} RunKeepsBoxes(s: State, schedule: seq<Action>)
    ensures |Exec(s, schedule).boxes| == |s.boxes|
    decreases |schedule|
  {
    if schedule != [] {
      BoxesStay(s, schedule[0]);
      RunKeepsBoxes(Apply(s, schedule[0]), schedule[1..]);
    }
  }

  lemma StatesKeepInv(s: State, schedule: seq<Action>, j: nat)
    requires Init(s) && j <= |schedule|
    ensures Bus.Inv(StateAt(s, schedule, j)) && |StateAt(s, schedule, j).boxes| == |s.boxes|
  {
    InitInv(s);
    RunKeepsInv(s, schedule[..j]);
    RunKeepsBoxes(s, schedule[..j]);
  }

  lemma FlagsHold(s: State, k: nat)
    requires Bus.Inv(s) && k < |s.boxes|
    ensures FlagInv(s.boxes[k], RtAt(s, k), CtAt(s, k))
  {
    assert Mailbox.Inv(s.size, s.boxes[k], RtAt(s, k), CtAt(s, k));
  }

  /// One step

  /** The realtime thread finds a fetch wanted at slave `k`. */
  predicate Passes(s: State, a: Action, k: nat) {
    a.Realtime? && s.rt == Mail(k, LoadReceive) && k < |s.boxes| && s.boxes[k].receive
  }

  predicate Due(s: State, k: nat)
    requires k < |s.boxes|
  {
    SendDue(s.boxes[k], RtAt(s, k), CtAt(s, k))
  }

  lemma FetchingRtMove(size: nat, b: Box, rt: Mailbox.RtPc, ct: Mailbox.CtPc, io: BusIo, b': Box, rt': Mailbox.RtPc)
    requires FlagInv(b, rt, ct) && RtMoves(size, b, rt, io, b', rt') && Fetching(rt')
    ensures Fetching(rt) || (rt.LoadReceive? && b.receive)
    ensures SendDue(b', rt', ct) == SendDue(b, rt, ct)
  {
    FetchKeepsSendDue(size, b, rt, ct, io, Return);
  }

  lemma FetchingCtMove(b: Box, rt: Mailbox.RtPc, ct: Mailbox.CtPc, act: PluginAct, b': Box, ct': Mailbox.CtPc)
    requires FlagInv(b, rt, ct) && CtMoves(b, ct, act, b', ct') && Fetching(rt)
    ensures SendDue(b', rt, ct') == SendDue(b, rt, ct)
  {
    FetchKeepsSendDue(0, b, rt, ct, BusIo(0, []), act);
  }

  lemma FetchingStep(s: State, a: Action, k: nat)
    requires k < |s.boxes| && FlagInv(s.boxes[k], RtAt(s, k), CtAt(s, k))
    requires Fetching(RtAt(Apply(s, a), k))
    ensures Passes(s, a, k) || Fetching(RtAt(s, k))
    ensures |Apply(s, a).boxes| == |s.boxes| && Due(Apply(s, a), k) == Due(s, k)
  {
    var s' := Apply(s, a);
    match a {
      case Realtime(io) =>
        RtBoxMove(s, io, k);
        FetchingRtMove(s.size, s.boxes[k], RtAt(s, k), CtAt(s, k), io, s'.boxes[k], RtAt(s', k));
      case Control(choice) =>
        CtBoxMove(s, choice, k);
        FetchingCtMove(s.boxes[k], RtAt(s, k), CtAt(s, k), ActOf(choice), s'.boxes[k], CtAt(s', k));
      case Stop =>
    }
  }

  lemma RtLogMove(size: nat, b: Box, rt: Mailbox.RtPc, io: BusIo, b': Box, rt': Mailbox.RtPc)
    requires RtMoves(size, b, rt, io, b', rt')
    ensures Extends(b.log, b'.log)
    ensures |b'.log| > |b.log| && b'.log[|b.log|].Fetched? ==> rt.SetUnread?
  {
  }

  lemma CtLogMove(b: Box, ct: Mailbox.CtPc, act: PluginAct, b': Box, ct': Mailbox.CtPc)
    requires CtMoves(b, ct, act, b', ct')
    ensures Extends(b.log, b'.log)
    ensures |b'.log| > |b.log| ==> b'.log[|b.log|].Dequeued?
  {
  }

  lemma LogStep(s: State, a: Action, k: nat)
    requires k < |s.boxes|
    ensures |Apply(s, a).boxes| == |s.boxes|
    ensures var log, log' := s.boxes[k].log, Apply(s, a).boxes[k].log;
            && Extends(log, log')
            && (|log'| > |log| && log'[|log|].Fetched? ==> a.Realtime? && RtAt(s, k).SetUnread?)
  {
    var s' := Apply(s, a);
    match a {
      case Realtime(io) =>
        RtBoxMove(s, io, k);
        RtLogMove(s.size, s.boxes[k], RtAt(s, k), io, s'.boxes[k], RtAt(s', k));
      case Control(choice) =>
        CtBoxMove(s, choice, k);
        CtLogMove(s.boxes[k], CtAt(s, k), ActOf(choice), s'.boxes[k], CtAt(s', k));
      case Stop =>
    }
  }

  /// The whole run

  /** From `m` on, up to `n`, the realtime thread is busy with a fetch at slave `k`. */
  ghost predicate FetchingFrom(s: State, schedule: seq<Action>, k: nat, m: nat, n: nat)
    requires n <= |schedule|
  {
    forall j: nat | m < j <= n :: Fetching(RtAt(StateAt(s, schedule, j), k))
  }

  lemma FetchingBefore(s: State, schedule: seq<Action>, k: nat, n: nat)
    requires Init(s) && k < |s.boxes| && n < |schedule|
    requires Fetching(RtAt(StateAt(s, schedule, n + 1), k))
    ensures |StateAt(s, schedule, n).boxes| == |StateAt(s, schedule, n + 1).boxes| == |s.boxes|
    ensures Passes(StateAt(s, schedule, n), schedule[n], k) || Fetching(RtAt(StateAt(s, schedule, n), k))
    ensures Due(StateAt(s, schedule, n), k) == Due(StateAt(s, schedule, n + 1), k)
  {
    StatesKeepInv(s, schedule, n);
    StatesFollow(s, schedule, n);
    FlagsHold(StateAt(s, schedule, n), k);
    FetchingStep(StateAt(s, schedule, n), schedule[n], k);
  }

  /** A fetch in progress began with a test of `receive`, since when nothing about the send has
      changed. */
  lemma {:induction false} FetchBegan(s: State, schedule: seq<Action>, k: nat, n: nat) returns (m: nat)
    requires Init(s) && k < |s.boxes| && n <= |schedule|
    requires Fetching(RtAt(StateAt(s, schedule, n), k))
    ensures m < n && Passes(StateAt(s, schedule, m), schedule[m], k) && FetchingFrom(s, schedule, k, m, n)
    ensures k < |StateAt(s, schedule, n).boxes|
    ensures Due(StateAt(s, schedule, m), k) == Due(StateAt(s, schedule, n), k)
    decreases n
  {
    if n == 0 {
      NothingLogged(s, schedule, k);
    } else {
      FetchingBefore(s, schedule, k, n - 1);
      if Passes(StateAt(s, schedule, n - 1), schedule[n - 1], k) {
        m := n - 1;
      } else {
        m := FetchBegan(s, schedule, k, n - 1);
        FetchingOneMore(s, schedule, k, m, n - 1);
      }
    }
  }

  lemma FetchingOneMore(s: State, schedule: seq<Action>, k: nat, m: nat, n: nat)
    requires m <= n < |schedule| && FetchingFrom(s, schedule, k, m, n)
    requires Fetching(RtAt(StateAt(s, schedule, n + 1), k))
    ensures FetchingFrom(s, schedule, k, m, n + 1)
  {
  }

  lemma NothingLogged(s: State, schedule: seq<Action>, k: nat)
    requires Init(s) && k < |s.boxes|
    ensures StateAt(s, schedule, 0) == s && s.boxes[k].log == []
  {
    assert schedule[..0] == [];
  }

  lemma LogBefore(s: State, schedule: seq<Action>, k: nat, n: nat)
    requires Init(s) && k < |s.boxes| && n < |schedule|
    ensures |StateAt(s, schedule, n).boxes| == |StateAt(s, schedule, n + 1).boxes| == |s.boxes|
    ensures var log, log' := StateAt(s, schedule, n).boxes[k].log, StateAt(s, schedule, n + 1).boxes[k].log;
            && Extends(log, log')
            && (|log'| > |log| && log'[|log|].Fetched? ==>
                  schedule[n].Realtime? && RtAt(StateAt(s, schedule, n), k).SetUnread?)
  {
    StatesKeepInv(s, schedule, n);
    StatesFollow(s, schedule, n);
    LogStep(StateAt(s, schedule, n), schedule[n], k);
  }

  /** Every event in the log was reported by one step. */
  lemma {:induction false} EventReported(s: State, schedule: seq<Action>, k: nat, i: nat, end: nat) returns (n: nat)
    requires Init(s) && k < |s.boxes| && end <= |schedule| && k < |StateAt(s, schedule, end).boxes|
    requires i < |StateAt(s, schedule, end).boxes[k].log|
    ensures n < end && k < |StateAt(s, schedule, n).boxes| && k < |StateAt(s, schedule, n + 1).boxes|
    ensures StateAt(s, schedule, n).boxes[k].log == StateAt(s, schedule, end).boxes[k].log[..i]
    ensures StateAt(s, schedule, n + 1).boxes[k].log == StateAt(s, schedule, end).boxes[k].log[..i + 1]
    decreases end
  {
    if end == 0 {
      NothingLogged(s, schedule, k);
    } else {
      LogBefore(s, schedule, k, end - 1);
      if i < |StateAt(s, schedule, end - 1).boxes[k].log| {
        n := EventReported(s, schedule, k, i, end - 1);
      } else {
        n := end - 1;
      }
    }
  }

  /** A fetch precedes the send of its own request if and only if, when the realtime thread found it
      wanted, `send_mbx_request` was set or the control thread was about to set it: for every run
      and every fetch in a slave's log, reported at step `n` and found wanted at step `m`. */
  lemma FetchPrecedesSendIff(s: State, schedule: seq<Action>, k: nat, i: nat) returns (m: nat, n: nat)
    requires Init(s) && k < |s.boxes| && k < |Exec(s, schedule).boxes|
    requires var log := Exec(s, schedule).boxes[k].log; i < |log| && log[i].Fetched?
    ensures m < n < |schedule| && Passes(StateAt(s, schedule, m), schedule[m], k)
    ensures schedule[n].Realtime? && RtAt(StateAt(s, schedule, n), k).SetUnread?
    ensures k < |StateAt(s, schedule, n).boxes|
            && StateAt(s, schedule, n).boxes[k].log == Exec(s, schedule).boxes[k].log[..i]
    ensures FetchingFrom(s, schedule, k, m, n)
    ensures Unsent(Exec(s, schedule).boxes[k].log[..i])
       <==> || StateAt(s, schedule, m).boxes[k].sendRequest
            || CtAt(StateAt(s, schedule, m), k).StoreSend?
  {
    assert schedule[..|schedule|] == schedule;
    n := EventReported(s, schedule, k, i, |schedule|);
    LogBefore(s, schedule, k, n);
    m := FetchBegan(s, schedule, k, n);
    StatesKeepInv(s, schedule, m);
    StatesKeepInv(s, schedule, n);
    DueMeansUnsent(StateAt(s, schedule, n), k);
    WantedDue(StateAt(s, schedule, m), k);
  }

  lemma DueMeansUnsent(s: State, k: nat)
    requires Bus.Inv(s) && k < |s.boxes|
    ensures Due(s, k) <==> Unsent(s.boxes[k].log)
  {
    assert Mailbox.Inv(s.size, s.boxes[k], RtAt(s, k), CtAt(s, k));
    UnsentIff(s.boxes[k].log, Min(|s.boxes[k].smbx|, s.size));
  }

  lemma WantedDue(s: State, k: nat)
    requires Bus.Inv(s) && k < |s.boxes| && s.rt == Mail(k, LoadReceive) && s.boxes[k].receive
    ensures Due(s, k) <==> s.boxes[k].sendRequest || CtAt(s, k).StoreSend?
  {
    assert Mailbox.Inv(s.size, s.boxes[k], RtAt(s, k), CtAt(s, k));
    PassingSendDue(s.boxes[k], CtAt(s, k));
  }

  /// When fetches do follow their sends

  /** Every attempted send to slave `k` succeeds. */
  ghost predicate SendsSucceed(s: State, schedule: seq<Action>, k: nat) {
    forall j | 0 <= j < |schedule| ::
      schedule[j].Realtime? && RtAt(StateAt(s, schedule, j), k).Send? ==> 0 < schedule[j].io.wkc
  }

  /** At no moment does the realtime thread stand between its two tests at slave `k` while the
      control thread is about to request the send. */
  ghost predicate NeverMeet(s: State, schedule: seq<Action>, k: nat) {
    forall j | 0 <= j <= |schedule| ::
      !(RtAt(StateAt(s, schedule, j), k).LoadReceive? && CtAt(StateAt(s, schedule, j), k).StoreSend?)
  }

  lemma RtNotRequested(size: nat, b: Box, rt: Mailbox.RtPc, io: BusIo, b': Box, rt': Mailbox.RtPc)
    requires RtMoves(size, b, rt, io, b', rt') && rt'.LoadReceive?
    requires (rt.LoadReceive? ==> !b.sendRequest) && (rt.Send? ==> 0 < io.wkc)
    ensures !b'.sendRequest
  {
  }

  lemma CtNotRequested(b: Box, ct: Mailbox.CtPc, act: PluginAct, b': Box, ct': Mailbox.CtPc)
    requires CtMoves(b, ct, act, b', ct') && !b.sendRequest && !ct.StoreSend?
    ensures !b'.sendRequest
  {
  }

  lemma NotRequestedStep(s: State, a: Action, k: nat)
    requires k < |s.boxes| == |Apply(s, a).boxes|
    requires RtAt(s, k).LoadReceive? ==> !s.boxes[k].sendRequest && !CtAt(s, k).StoreSend?
    requires a.Realtime? && RtAt(s, k).Send? ==> 0 < a.io.wkc
    ensures RtAt(Apply(s, a), k).LoadReceive? ==> !Apply(s, a).boxes[k].sendRequest
  {
    var s' := Apply(s, a);
    if RtAt(s', k).LoadReceive? {
      match a {
        case Realtime(io) =>
          RtBoxMove(s, io, k);
          RtNotRequested(s.size, s.boxes[k], RtAt(s, k), io, s'.boxes[k], RtAt(s', k));
        case Control(choice) =>
          CtBoxMove(s, choice, k);
          CtNotRequested(s.boxes[k], CtAt(s, k), ActOf(choice), s'.boxes[k], CtAt(s', k));
        case Stop =>
      }
    }
  }

  /** Where the realtime thread tests for a fetch, no send is requested. */
  predicate Unrequested(s: State, k: nat) {
    k < |s.boxes| && (RtAt(s, k).LoadReceive? ==> !s.boxes[k].sendRequest)
  }

  lemma NotRequestedAfter(s: State, schedule: seq<Action>, k: nat, j: nat)
    requires j < |schedule| && SendsSucceed(s, schedule, k) && NeverMeet(s, schedule, k)
    requires Unrequested(StateAt(s, schedule, j), k)
    ensures Unrequested(StateAt(s, schedule, j + 1), k)
  {
    var p := StateAt(s, schedule, j);
    StatesFollow(s, schedule, j);
    BoxesStay(p, schedule[j]);
    NotRequestedStep(p, schedule[j], k);
  }

  lemma {:induction false} NotRequested(s: State, schedule: seq<Action>, k: nat, j: nat)
    requires Init(s) && k < |s.boxes| && j <= |schedule|
    requires SendsSucceed(s, schedule, k) && NeverMeet(s, schedule, k)
    ensures Unrequested(StateAt(s, schedule, j), k)
    decreases j
  {
    if j == 0 {
      assert schedule[..0] == [];
    } else {
      NotRequested(s, schedule, k, j - 1);
      NotRequestedAfter(s, schedule, k, j - 1);
    }
  }

  /** If every attempted send succeeds and the threads never meet there, every fetch follows the
      send of its request. */
  lemma FetchesFollowSends(s: State, schedule: seq<Action>, k: nat)
    requires Init(s) && k < |s.boxes| && k < |Exec(s, schedule).boxes|
    requires SendsSucceed(s, schedule, k) && NeverMeet(s, schedule, k)
    ensures var log := Exec(s, schedule).boxes[k].log;
            forall i | 0 <= i < |log| && log[i].Fetched? :: !Unsent(log[..i])
  {
    var log := Exec(s, schedule).boxes[k].log;
    forall i | 0 <= i < |log| && log[i].Fetched?
      ensures !Unsent(log[..i])
    {
      var m, n := FetchPrecedesSendIff(s, schedule, k, i);
      NotRequested(s, schedule, k, m);
      assert RtAt(StateAt(s, schedule, m), k).LoadReceive?;
    }
  }

  /// Three runs in which a fetch precedes its send, on a bus of one slave without mailbox or
  /// process data

  /** A send succeeds if it is attempted, and no fetch is found wanted while the control thread is
      about to request the send. */
  predicate CleanStep(e: State, a: Action) {
    && (a.Realtime? && RtAt(e, 0).Send? ==> 0 < a.io.wkc)
    && !(Passes(e, a, 0) && CtAt(e, 0).StoreSend?)
  }

  ghost predicate Clean(s: State, schedule: seq<Action>) {
    forall j | 0 <= j < |schedule| :: CleanStep(StateAt(s, schedule, j), schedule[j])
  }

  /** `e` can be reached, by a clean schedule if so asked. */
  ghost predicate Reachable(s: State, e: State, clean: bool) {
    exists schedule :: Exec(s, schedule) == e && (clean ==> Clean(s, schedule))
  }

  lemma CleanGrows(s: State, schedule: seq<Action>, a: Action)
    requires Clean(s, schedule) && CleanStep(Exec(s, schedule), a)
    ensures Clean(s, schedule + [a])
  {
    var longer := schedule + [a];
    forall j | 0 <= j < |longer|
      ensures CleanStep(StateAt(s, longer, j), longer[j])
    {
      if j < |schedule| {
        assert longer[..j] == schedule[..j];
        assert CleanStep(StateAt(s, schedule, j), schedule[j]);
      } else {
        assert longer[..j] == schedule;
      }
    }
  }

  lemma Take(s: State, e: State, a: Action, clean: bool)
    requires Reachable(s, e, clean) && (clean ==> CleanStep(e, a))
    ensures Reachable(s, Apply(e, a), clean)
  {
    var schedule :| Exec(s, schedule) == e && (clean ==> Clean(s, schedule));
    OneMore(s, schedule, a);
    if clean {
      CleanGrows(s, schedule, a);
    }
    assert Exec(s, schedule + [a]) == Apply(e, a);
  }

  const EMPTY_BOX := Box([], [], [], [], false, false, false, false, [], [], [])
  const TICK := Realtime(BusIo(1, []))
  const REQUEST := Request([], true, false)

  function At(b: Box, o: Output, n: Input, rt: Bus.RtPc, ct: Bus.CtPc): State {
    State(0, true, false, o, n, [b], rt, ct)
  }

  function Created(): State {
    State(0, false, false, Output(false, [], [], [], [], [], [], []),
          Input(false, [], [], [], [], [], []), [EMPTY_BOX], Start, Idle)
  }

  lemma TakeRt(s: State, o: Output, n: Input, ct: Bus.CtPc, b: Box, pc: Mailbox.RtPc, wkc: int,
               b': Box, pc': Mailbox.RtPc, clean: bool)
    requires Reachable(s, At(b, o, n, Mail(0, pc), ct), clean)
    requires RtStep(0, b, pc, BusIo(wkc, [])) == (b', pc') && !pc'.RtAway?
    requires clean ==> (pc.Send? ==> 0 < wkc) && ct == TestRunning(false)
    ensures Reachable(s, At(b', o, n, Mail(0, pc'), ct), clean)
  {
    Take(s, At(b, o, n, Mail(0, pc), ct), Realtime(BusIo(wkc, [])), clean);
    assert Apply(At(b, o, n, Mail(0, pc), ct), Realtime(BusIo(wkc, []))) == At(b', o, n, Mail(0, pc'), ct);
  }

  lemma TakeCt(s: State, o: Output, n: Input, rt: Bus.RtPc, b: Box, pc: Mailbox.CtPc, act: PluginAct,
               b': Box, pc': Mailbox.CtPc, clean: bool)
    requires Reachable(s, At(b, o, n, rt, Visit(ReadHalf(pc), 0, pc)), clean)
    requires CtStep(b, pc, act) == (b', pc') && !pc'.CtAway? && ReadHalf(pc) == ReadHalf(pc')
    ensures Reachable(s, At(b', o, n, rt, Visit(ReadHalf(pc'), 0, pc')), clean)
  {
    var e := At(b, o, n, rt, Visit(ReadHalf(pc), 0, pc));
    Take(s, e, Control(Plugin(act)), clean);
    assert Apply(e, Control(Plugin(act))) == At(b', o, n, rt, Visit(ReadHalf(pc'), 0, pc'));
  }

  /** The realtime thread sends and receives process data, */
  lemma ReachInputs(clean: bool) returns (o: Output)
    ensures Reachable(Created(), At(EMPTY_BOX, o, Created().input, Inputs(ReceivePd), Idle), clean)
  {
    var s, b := Created(), EMPTY_BOX;
    var o0, n0 := s.output, s.input;
    assert Exec(s, []) == s && Clean(s, []);
    Take(s, s, TICK, clean);
    assert Apply(s, TICK) == At(b, o0, n0, Top, Idle);
    Take(s, At(b, o0, n0, Top, Idle), TICK, clean);
    Take(s, At(b, o0, n0, Outputs(LoadRx), Idle), TICK, clean);
    Take(s, At(b, o0, n0, Outputs(SendPd), Idle), TICK, clean);
    o := OutRtStep(o0, SendPd).0;
  }

  /** reaches the slave's mailboxes, */
  lemma ReachMail(clean: bool) returns (o: Output, n: Input)
    ensures Reachable(Created(), At(EMPTY_BOX, o, n, Mail(0, LoadSend), Idle), clean)
  {
    var s, b := Created(), EMPTY_BOX;
    o := ReachInputs(clean);
    Take(s, At(b, o, s.input, Inputs(ReceivePd), Idle), TICK, clean);
    n := InRtStep(s.input, ReceivePd, TICK.io).0;
    Take(s, At(b, o, n, Inputs(LoadTx), Idle), TICK, clean);
  }

  /** and finds nothing to send. */
  lemma NothingToSend(clean: bool) returns (o: Output, n: Input)
    ensures Reachable(Created(), At(EMPTY_BOX, o, n, Mail(0, LoadReceive), Idle), clean)
  {
    o, n := ReachMail(clean);
    Take(Created(), At(EMPTY_BOX, o, n, Mail(0, LoadSend), Idle), TICK, clean);
    assert Apply(At(EMPTY_BOX, o, n, Mail(0, LoadSend), Idle), TICK) == At(EMPTY_BOX, o, n, Mail(0, LoadReceive), Idle);
  }

  /** The box with the request still in the plugin's queue. */
  function Queued(): Box {
    EMPTY_BOX.(sendQueue := [REQUEST], accepted := [REQUEST])
  }

  /** The box once the request has been taken, up to `receive_mbx` or to `send_mbx_request`. */
  function Taken(requested: bool): Box {
    EMPTY_BOX.(accepted := [REQUEST], log := [Dequeued(REQUEST)], receive := true, sendRequest := requested)
  }

  lemma Enqueued(s: State, o: Output, n: Input, rt: Bus.RtPc, clean: bool)
    requires Reachable(s, At(EMPTY_BOX, o, n, rt, Idle), clean)
    ensures Reachable(s, At(Queued(), o, n, rt, Visit(false, 0, ConsumeOne)), clean)
  {
    var b, q := EMPTY_BOX, Queued();
    assert b.sendQueue + [REQUEST] == [REQUEST] && b.accepted + [REQUEST] == [REQUEST];
    Take(s, At(b, o, n, rt, Idle), Control(CallWrite), clean);
    TakeCt(s, o, n, rt, b, SlaveWrite, Enqueue(REQUEST), q, SlaveWrite, clean);
    TakeCt(s, o, n, rt, q, SlaveWrite, Return, q, TestSend, clean);
    TakeCt(s, o, n, rt, q, TestSend, Return, q, TestReceive, clean);
    TakeCt(s, o, n, rt, q, TestReceive, Return, q, ConsumeOne, clean);
  }

  lemma Dequeue(s: State, o: Output, n: Input, rt: Bus.RtPc, clean: bool)
    requires Reachable(s, At(Queued(), o, n, rt, Visit(false, 0, ConsumeOne)), clean)
    ensures Reachable(s, At(Taken(false).(receive := false), o, n, rt, Visit(false, 0, CopyMessage(0, REQUEST))), clean)
  {
    var q, p := Queued(), Taken(false).(receive := false);
    assert [REQUEST][1..] == [] && q.log + [Dequeued(REQUEST)] == p.log;
    TakeCt(s, o, n, rt, q, ConsumeOne, Return, p, CopyMessage(0, REQUEST), clean);
  }

  lemma Publish(s: State, o: Output, n: Input, rt: Bus.RtPc, p: Box, clean: bool)
    requires Reachable(s, At(p, o, n, rt, Visit(false, 0, CopyMessage(0, REQUEST))), clean)
    requires p == Taken(false).(receive := false)
    ensures Reachable(s, At(Taken(false), o, n, rt, Visit(false, 0, StoreSend)), clean)
  {
    TakeCt(s, o, n, rt, p, CopyMessage(0, REQUEST), Return, p, StoreRaw(REQUEST), clean);
    TakeCt(s, o, n, rt, p, StoreRaw(REQUEST), Return, p, StoreReceive(REQUEST), clean);
    TakeCt(s, o, n, rt, p, StoreReceive(REQUEST), Return, Taken(false), StoreSend, clean);
  }

  /** The control thread publishes a request, up to `receive_mbx`. */
  lemma HalfPublished(s: State, o: Output, n: Input, rt: Bus.RtPc, clean: bool)
    requires Reachable(s, At(EMPTY_BOX, o, n, rt, Idle), clean)
    ensures Reachable(s, At(Taken(false), o, n, rt, Visit(false, 0, StoreSend)), clean)
  {
    Enqueued(s, o, n, rt, clean);
    Dequeue(s, o, n, rt, clean);
    Publish(s, o, n, rt, Taken(false).(receive := false), clean);
  }

  /** And then `send_mbx_request`. */
  lemma Published(s: State, o: Output, n: Input, rt: Bus.RtPc, clean: bool)
    requires Reachable(s, At(EMPTY_BOX, o, n, rt, Idle), clean)
    ensures Reachable(s, At(Taken(true), o, n, rt, TestRunning(false)), clean)
  {
    HalfPublished(s, o, n, rt, clean);
    Take(s, At(Taken(false), o, n, rt, Visit(false, 0, StoreSend)), Control(Plugin(Return)), clean);
    assert Apply(At(Taken(false), o, n, rt, Visit(false, 0, StoreSend)), Control(Plugin(Return)))
        == At(Taken(true), o, n, rt, TestRunning(false));
  }

  /** A run that fetches a reply for a request it has not sent. */
  ghost predicate FetchesEarly(s: State, schedule: seq<Action>) {
    && Init(s) && |Exec(s, schedule).boxes| == 1
    && Exec(s, schedule).boxes[0].log == [Dequeued(REQUEST), Fetched(false, [])]
  }

  /** The realtime thread begins the fetch. */
  lemma Receives(s: State, o: Output, n: Input, ct: Bus.CtPc, b: Box, clean: bool)
    requires Reachable(s, At(b, o, n, Mail(0, LoadReceive), ct), clean) && (clean ==> ct == TestRunning(false))
    requires b.receive && !b.hasUnread && !b.receiveRaw
    ensures Reachable(s, At(b, o, n, Mail(0, CopyReceived(0, false, [])), ct), clean)
  {
    assert Pad([], 0) == [];
    TakeRt(s, o, n, ct, b, LoadReceive, 1, b, LoadUnread, clean);
    TakeRt(s, o, n, ct, b, LoadUnread, 1, b, LoadRaw, clean);
    TakeRt(s, o, n, ct, b, LoadRaw, 1, b, Receive(false), clean);
    TakeRt(s, o, n, ct, b, Receive(false), 1, b, CopyReceived(0, false, []), clean);
  }

  /** And completes it. */
  lemma Fetch(o: Output, n: Input, ct: Bus.CtPc, requested: bool, clean: bool) returns (schedule: seq<Action>)
    requires Reachable(Created(), At(Taken(requested), o, n, Mail(0, LoadReceive), ct), clean)
    requires clean ==> ct == TestRunning(false)
    ensures FetchesEarly(Created(), schedule) && (clean ==> Clean(Created(), schedule))
  {
    var s, b := Created(), Taken(requested);
    var b' := b.(hasUnread := true, log := [Dequeued(REQUEST), Fetched(false, [])]);
    assert b.log + [Fetched(false, [])] == b'.log;
    Receives(s, o, n, ct, b, clean);
    TakeRt(s, o, n, ct, b, CopyReceived(0, false, []), 1, b, SetUnread(false, []), clean);
    TakeRt(s, o, n, ct, b, SetUnread(false, []), 1, b', ClearReceive, clean);
    schedule :| Exec(s, schedule) == At(b', o, n, Mail(0, ClearReceive), ct) && (clean ==> Clean(s, schedule));
  }

  /** The fetch is found wanted while the control thread is about to request the send. */
  lemma FetchMayPrecedeSend() returns (s: State, schedule: seq<Action>)
    ensures FetchesEarly(s, schedule)
  {
    s := Created();
    var o, n := NothingToSend(false);
    HalfPublished(s, o, n, Mail(0, LoadReceive), false);
    schedule := Fetch(o, n, Visit(false, 0, StoreSend), false, false);
  }

  /** The send is requested after the realtime thread has tested for it, and before it tests for the
      fetch: the send is not even attempted. */
  lemma FetchMayOvertakeRequest() returns (s: State, schedule: seq<Action>)
    ensures FetchesEarly(s, schedule) && Clean(s, schedule)
  {
    s := Created();
    var o, n := NothingToSend(true);
    Published(s, o, n, Mail(0, LoadReceive), true);
    schedule := Fetch(o, n, TestRunning(false), true, true);
  }

  /** The send is requested in time, attempted and fails; the fetch follows all the same. */
  lemma FetchMayFollowFailedSend() returns (s: State, schedule: seq<Action>)
    ensures FetchesEarly(s, schedule)
  {
    s := Created();
    var b, ct := Taken(true), TestRunning(false);
    var o, n := ReachMail(false);
    Published(s, o, n, Mail(0, LoadSend), false);
    assert Pad([], 0) == [];
    TakeRt(s, o, n, ct, b, LoadSend, 1, b, CopySend(0, []), false);
    TakeRt(s, o, n, ct, b, CopySend(0, []), 1, b, Mailbox.RtPc.Send([]), false);
    TakeRt(s, o, n, ct, b, Mailbox.RtPc.Send([]), 0, b, LoadReceive, false);
    schedule := Fetch(o, n, ct, true, false);
  }
}
