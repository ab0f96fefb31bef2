/** The mailbox exchange of one slave, shared by the realtime thread (soem_master.cpp,
    `cyclic_task`) and the control thread (soem_driver.cpp, `read` and `write`).

    Every atomic load, atomic store and copied byte is one step. The two threads own
    private positions (`RtPc`, `CtPc`); everything else in `Box` is shared, apart from the
    histories at its end, which no step reads. */
module Mailbox {
  newtype Byte = b: int | 0 <= b < 256

  /** What a plugin enqueues: the message, `read_response` and `read_mbx_raw`. */
  datatype Request = Request(msg: seq<Byte>, response: bool, raw: bool)

  /** The externally visible moments of the exchange, in the order they happen. */
  datatype Event =
    | Dequeued(request: Request)
    | Sent(payload: seq<Byte>)
    | Fetched(raw: bool, image: seq<Byte>)

  datatype Box = Box(
    sendQueue: seq<Request>,
    receiveQueue: seq<seq<Byte>>,
    smbx: seq<Byte>,
    rmbx: seq<Byte>,
    sendRequest: bool,
    receive: bool,
    receiveRaw: bool,
    hasUnread: bool,
    // histories
    accepted: seq<Request>,
    log: seq<Event>,
    consumed: seq<seq<Byte>>)

  /** Both plugin queues are bounded. */
  const CAPACITY := 8

  /** The answer of a foreign bus call: a working counter and the bytes it delivers. */
  datatype BusIo = BusIo(wkc: int, image: seq<Byte>)

  function Min(a: nat, b: nat): nat {
    if a < b then a else b
  }

  /** A cleared buffer of `n` bytes overwritten from the front by `image`. */
  function Pad(image: seq<Byte>, n: nat): (r: seq<Byte>)
    ensures |r| == n
  {
    seq(n, i requires 0 <= i < n => if i < |image| then image[i] else 0 as Byte)
  }

  /// The realtime thread's half

  datatype RtPc =
    | RtAway
    | LoadSend
    | CopySend(i: nat, buf: seq<Byte>)
    | Send(buf: seq<Byte>)
    | ClearSend
    | LoadReceive
    | LoadUnread
    | LoadRaw
    | Receive(raw: bool)
    | CopyReceived(i: nat, raw: bool, buf: seq<Byte>)
    | SetUnread(raw: bool, buf: seq<Byte>)
    | ClearReceive

  function RtStep(size: nat, b: Box, pc: RtPc, io: BusIo): (Box, RtPc) {
    match pc
    case RtAway => (b, RtAway)
    case LoadSend => (b, if b.sendRequest then CopySend(0, Pad([], size)) else LoadReceive)
    case CopySend(i, buf) =>
      if i < |b.smbx| && i < |buf| then (b, CopySend(i + 1, buf[i := b.smbx[i]])) else (b, Send(buf))
    case Send(buf) =>
      if 0 < io.wkc then (b.(log := b.log + [Sent(buf)]), ClearSend) else (b, LoadReceive)
    case ClearSend => (b.(sendRequest := false), LoadReceive)
    case LoadReceive => (b, if b.receive then LoadUnread else RtAway)
    case LoadUnread => (b, if b.hasUnread then RtAway else LoadRaw)
    case LoadRaw => (b, Receive(b.receiveRaw))
    case Receive(raw) =>
      if (raw && 0 <= io.wkc) || (!raw && 0 < io.wkc)
      then (b, CopyReceived(0, raw, Pad(io.image, size)))
      else (b, RtAway)
    case CopyReceived(i, raw, buf) =>
      if i < |b.rmbx| && i < |buf|
      then (b.(rmbx := b.rmbx[i := buf[i]]), CopyReceived(i + 1, raw, buf))
      else (b, SetUnread(raw, buf))
    case SetUnread(raw, buf) =>
      (b.(hasUnread := true, log := b.log + [Fetched(raw, buf[..Min(|buf|, |b.rmbx|)])]), ClearReceive)
    case ClearReceive => (b.(receive := false), RtAway)
  }

  /// The control thread's half

  datatype CtPc =
    | CtAway
    | TestUnread
    | CopyUnread(buf: seq<Byte>)
    | Push(buf: seq<Byte>)
    | ClearUnread
    | SlaveRead
    | SlaveWrite
    | TestSend
    | TestReceive
    | ConsumeOne
    | CopyMessage(i: nat, request: Request)
    | StoreRaw(request: Request)
    | StoreReceive(request: Request)
    | StoreSend

  /** What a plugin's own `read` or `write` does next: enqueue a message, drain its incoming
      queue, or return to the driver. */
  datatype PluginAct = Enqueue(request: Request) | ConsumeAll | Return

  function PluginStep(b: Box, act: PluginAct): Box {
    match act
    case Enqueue(r) =>
      if |b.sendQueue| < CAPACITY
      then b.(sendQueue := b.sendQueue + [r], accepted := b.accepted + [r])
      else b
    case ConsumeAll => b.(consumed := b.consumed + b.receiveQueue, receiveQueue := [])
    case Return => b
  }

  function CtStep(b: Box, pc: CtPc, act: PluginAct): (Box, CtPc) {
    match pc
    case CtAway => (b, CtAway)
    case TestUnread => (b, if b.hasUnread then CopyUnread([]) else SlaveRead)
    case CopyUnread(buf) =>
      (b, if |buf| < |b.rmbx| then CopyUnread(buf + [b.rmbx[|buf|]]) else Push(buf))
    case Push(buf) =>
      if |b.receiveQueue| < CAPACITY
      then (b.(receiveQueue := b.receiveQueue + [buf]), ClearUnread)
      else (b, SlaveRead)
    case ClearUnread => (b.(hasUnread := false), SlaveRead)
    case SlaveRead => (PluginStep(b, act), if act.Return? then CtAway else SlaveRead)
    case SlaveWrite => (PluginStep(b, act), if act.Return? then TestSend else SlaveWrite)
    case TestSend => (b, if b.sendRequest then CtAway else TestReceive)
    case TestReceive => (b, if b.receive then CtAway else ConsumeOne)
    case ConsumeOne =>
      if b.sendQueue == [] then (b, CtAway)
      else
        (b.(sendQueue := b.sendQueue[1..], log := b.log + [Dequeued(b.sendQueue[0])]),
         CopyMessage(0, b.sendQueue[0]))
    case CopyMessage(i, r) =>
      if i < |r.msg| && i < |b.smbx|
      then (b.(smbx := b.smbx[i := r.msg[i]]), CopyMessage(i + 1, r))
      else (b, StoreRaw(r))
    case StoreRaw(r) => (b.(receiveRaw := r.raw), StoreReceive(r))
    case StoreReceive(r) => (b.(receive := r.response), StoreSend)
    case StoreSend => (b.(sendRequest := true), CtAway)
  }

  /// What the histories must look like

  function RequestsOf(log: seq<Event>): seq<Request> {
    if log == [] then []
    else
      var e := log[|log| - 1];
      RequestsOf(log[..|log| - 1]) + if e.Dequeued? then [e.request] else []
  }

  function PayloadsOf(log: seq<Event>): seq<seq<Byte>> {
    if log == [] then []
    else
      var e := log[|log| - 1];
      PayloadsOf(log[..|log| - 1]) + if e.Sent? then [e.payload] else []
  }

  function ImagesOf(log: seq<Event>): seq<seq<Byte>> {
    if log == [] then []
    else
      var e := log[|log| - 1];
      ImagesOf(log[..|log| - 1]) + if e.Fetched? then [e.image] else []
  }

  /** The payload starts with as much of the message as the buffers hold. */
  predicate Carries(payload: seq<Byte>, msg: seq<Byte>, fit: nat) {
    var n := Min(|msg|, fit);
    n <= |payload| && payload[..n] == msg[..n]
  }

  /** Which part of an exchange is still owed, or that the log is not a sequence of exchanges. */
  datatype Verdict = Broken | Free | Busy(request: Request, sendDue: bool, fetchDue: bool)

  function Advance(v: Verdict, e: Event, fit: nat): Verdict {
    match e
    case Dequeued(r) =>
      if v.Free? || (v.Busy? && !v.sendDue && !v.fetchDue) then Busy(r, true, r.response) else Broken
    case Sent(p) =>
      if v.Busy? && v.sendDue && Carries(p, v.request.msg, fit) then v.(sendDue := false) else Broken
    case Fetched(raw, _) =>
      if v.Busy? && v.fetchDue && raw == v.request.raw then v.(fetchDue := false) else Broken
  }

  function Replay(log: seq<Event>, fit: nat): Verdict {
    if log == [] then Free else Advance(Replay(log[..|log| - 1], fit), log[|log| - 1], fit)
  }

  /// The inductive invariant of the two threads at one slave

  /** The control thread holds a request it has dequeued but not yet published. */
  predicate Publishing(ct: CtPc) {
    ct.CopyMessage? || ct.StoreRaw? || ct.StoreReceive? || ct.StoreSend?
  }

  predicate SendDue(b: Box, rt: RtPc, ct: CtPc) {
    (b.sendRequest && !rt.ClearSend?) || Publishing(ct)
  }

  predicate FetchDue(b: Box, rt: RtPc, ct: CtPc) {
    || (b.receive && !rt.ClearReceive?)
    || (ct.CopyMessage? && ct.request.response)
    || (ct.StoreRaw? && ct.request.response)
    || (ct.StoreReceive? && ct.request.response)
  }

  function Unread(b: Box, ct: CtPc): seq<seq<Byte>> {
    if b.hasUnread && !ct.ClearUnread? then [b.rmbx] else []
  }

  ghost predicate FlagInv(b: Box, rt: RtPc, ct: CtPc) {
    && (rt.CopySend? || rt.Send? || rt.ClearSend? ==> b.sendRequest)
    && (rt.LoadUnread? || rt.LoadRaw? || rt.Receive? || rt.CopyReceived? || rt.SetUnread? || rt.ClearReceive?
        ==> b.receive)
    && (rt.LoadRaw? || rt.Receive? || rt.CopyReceived? || rt.SetUnread? ==> !b.hasUnread)
    && (ct.CopyUnread? || ct.Push? || ct.ClearUnread? ==> b.hasUnread)
    && (ct.TestReceive? || ct.ConsumeOne? || Publishing(ct) ==> !b.sendRequest)
    && (ct.ConsumeOne? || ct.CopyMessage? || ct.StoreRaw? || ct.StoreReceive? ==> !b.receive)
  }

  /** Every accepted request is in the log or still queued; every fetched image has been
      consumed, is queued, or is the unread one. */
  ghost predicate LedgerInv(requests: seq<Request>, images: seq<seq<Byte>>, b: Box, ct: CtPc) {
    && b.accepted == requests + b.sendQueue
    && images == b.consumed + b.receiveQueue + Unread(b, ct)
  }

  ghost predicate ReceiveInv(size: nat, b: Box, rt: RtPc, ct: CtPc) {
    && |b.rmbx| <= size
    && (rt.CopyReceived? ==> |rt.buf| == size && rt.i <= |b.rmbx| && b.rmbx[..rt.i] == rt.buf[..rt.i])
    && (rt.SetUnread? ==> |rt.buf| == size && b.rmbx == rt.buf[..|b.rmbx|])
    && (ct.CopyUnread? ==> ct.buf <= b.rmbx)
    && (ct.Push? ==> ct.buf == b.rmbx)
  }

  /** The bytes already in `SMbx` of the request being exchanged. */
  predicate Holds(smbx: seq<Byte>, msg: seq<Byte>, n: nat) {
    n <= |smbx| && n <= |msg| && smbx[..n] == msg[..n]
  }

  /** What is owed (`v`, as the log tells it) is what the flags and positions say. */
  ghost predicate DueInv(v: Verdict, b: Box, rt: RtPc, ct: CtPc) {
    && !v.Broken?
    && (SendDue(b, rt, ct) <==> v.Busy? && v.sendDue)
    && (FetchDue(b, rt, ct) <==> v.Busy? && v.fetchDue)
  }

  /** The mode and the bytes held by the control thread or in `SMbx` are those of the request
      being exchanged. */
  ghost predicate MessageInv(v: Verdict, b: Box, rt: RtPc, ct: CtPc) {
    && (b.sendRequest || ct.StoreRaw? || ct.StoreReceive? || ct.StoreSend? ==>
          v.Busy? && Holds(b.smbx, v.request.msg, Min(|v.request.msg|, |b.smbx|)))
    && (ct.CopyMessage? ==> Holds(b.smbx, ct.request.msg, ct.i))
    && (ct.CopyMessage? || ct.StoreRaw? || ct.StoreReceive? ==> v.Busy? && v.request == ct.request)
    && (b.receive || ct.StoreReceive? ==> v.Busy? && b.receiveRaw == v.request.raw)
    && (rt.Receive? || rt.CopyReceived? || rt.SetUnread? ==> v.Busy? && rt.raw == v.request.raw)
  }

  /** The realtime thread's private copy of `SMbx`. */
  ghost predicate PayloadInv(size: nat, b: Box, rt: RtPc) {
    && (rt.CopySend? ==>
          |rt.buf| == size && rt.i <= Min(|b.smbx|, size) && rt.buf[..rt.i] == b.smbx[..rt.i])
    && (rt.Send? ==>
          |rt.buf| == size && rt.buf[..Min(|b.smbx|, size)] == b.smbx[..Min(|b.smbx|, size)])
  }

  ghost predicate ExchangeInv(v: Verdict, size: nat, b: Box, rt: RtPc, ct: CtPc) {
    && FlagInv(b, rt, ct)
    && DueInv(v, b, rt, ct)
    && MessageInv(v, b, rt, ct)
    && PayloadInv(size, b, rt)
  }

  ghost predicate Inv(size: nat, b: Box, rt: RtPc, ct: CtPc) {
    && LedgerInv(RequestsOf(b.log), ImagesOf(b.log), b, ct)
    && ReceiveInv(size, b, rt, ct)
    && ExchangeInv(Replay(b.log, Min(|b.smbx|, size)), size, b, rt, ct)
  }

  /** A slave's mailboxes when the realtime thread is created: nothing exchanged, and queued what
      the plugin has enqueued while it was configured. */
  predicate Fresh(size: nat, b: Box) {
    && b.accepted == b.sendQueue && |b.sendQueue| <= CAPACITY && b.receiveQueue == []
    && !b.sendRequest && !b.receive && !b.receiveRaw && !b.hasUnread
    && b.log == [] && b.consumed == []
    && |b.rmbx| <= size
  }

  /** What a step that leaves the log at `log'` does to what is derived from it. */
  function Verdict'(v: Verdict, log: seq<Event>, log': seq<Event>, fit: nat): Verdict {
    if |log'| <= |log| then v else Advance(v, log'[|log'| - 1], fit)
  }

  function Requests'(requests: seq<Request>, log: seq<Event>, log': seq<Event>): seq<Request> {
    if |log'| <= |log| || !log'[|log'| - 1].Dequeued? then requests
    else requests + [log'[|log'| - 1].request]
  }

  function Images'(images: seq<seq<Byte>>, log: seq<Event>, log': seq<Event>): seq<seq<Byte>> {
    if |log'| <= |log| || !log'[|log'| - 1].Fetched? then images
    else images + [log'[|log'| - 1].image]
  }

  /** `log'` is `log`, or `log` and one more event. */
  predicate Extends(log: seq<Event>, log': seq<Event>) {
    log' == log || (|log'| == |log| + 1 && log'[..|log|] == log)
  }

  lemma LogGrows(log: seq<Event>, log': seq<Event>, fit: nat)
    requires Extends(log, log')
    ensures RequestsOf(log') == Requests'(RequestsOf(log), log, log')
    ensures ImagesOf(log') == Images'(ImagesOf(log), log, log')
    ensures Replay(log', fit) == Verdict'(Replay(log, fit), log, log', fit)
  {
  }

  lemma SentCarries(v: Verdict, size: nat, b: Box, rt: RtPc, ct: CtPc)
    requires ExchangeInv(v, size, b, rt, ct) && rt.Send?
    ensures v.Busy? && Carries(rt.buf, v.request.msg, Min(|b.smbx|, size))
  {
    var msg := v.request.msg;
    var m := Min(|b.smbx|, size);
    var n := Min(|msg|, m);
    assert rt.buf[..n] == rt.buf[..m][..n] == b.smbx[..m][..n];
    assert b.smbx[..n] == b.smbx[..Min(|msg|, |b.smbx|)][..n];
    assert msg[..n] == msg[..Min(|msg|, |b.smbx|)][..n];
  }

  lemma RtFlag(size: nat, b: Box, rt: RtPc, ct: CtPc, io: BusIo)
    requires FlagInv(b, rt, ct)
    ensures var (b', rt') := RtStep(size, b, rt, io); FlagInv(b', rt', ct)
  {
  }

  lemma RtReceive(size: nat, b: Box, rt: RtPc, ct: CtPc, io: BusIo)
    requires FlagInv(b, rt, ct) && ReceiveInv(size, b, rt, ct)
    ensures var (b', rt') := RtStep(size, b, rt, io); ReceiveInv(size, b', rt', ct)
  {
    if rt.CopyReceived? {
      var CopyReceived(i, _, buf) := rt;
      if i < |b.rmbx| {
        assert b.rmbx[i := buf[i]][..i + 1] == b.rmbx[..i] + [buf[i]];
        assert buf[..i + 1] == buf[..i] + [buf[i]];
      } else {
        assert b.rmbx[..i] == b.rmbx;
      }
    }
  }

  lemma RtLedger(requests: seq<Request>, images: seq<seq<Byte>>,
                 size: nat, b: Box, rt: RtPc, ct: CtPc, io: BusIo)
    requires FlagInv(b, rt, ct) && ReceiveInv(size, b, rt, ct) && LedgerInv(requests, images, b, ct)
    ensures var (b', rt') := RtStep(size, b, rt, io);
            LedgerInv(Requests'(requests, b.log, b'.log), Images'(images, b.log, b'.log), b', ct)
  {
  }

  lemma RtDue(v: Verdict, size: nat, b: Box, rt: RtPc, ct: CtPc, io: BusIo)
    requires ExchangeInv(v, size, b, rt, ct)
    ensures var (b', rt') := RtStep(size, b, rt, io);
            DueInv(Verdict'(v, b.log, b'.log, Min(|b.smbx|, size)), b', rt', ct)
  {
    if rt.Send? {
      SentCarries(v, size, b, rt, ct);
    }
  }

  lemma RtMessage(v: Verdict, size: nat, b: Box, rt: RtPc, ct: CtPc, io: BusIo)
    requires ExchangeInv(v, size, b, rt, ct)
    ensures var (b', rt') := RtStep(size, b, rt, io);
            MessageInv(Verdict'(v, b.log, b'.log, Min(|b.smbx|, size)), b', rt', ct)
  {
    if rt.Send? {
      SentCarries(v, size, b, rt, ct);
    }
  }

  lemma RtPayload(v: Verdict, size: nat, b: Box, rt: RtPc, ct: CtPc, io: BusIo)
    requires ExchangeInv(v, size, b, rt, ct)
    ensures var (b', rt') := RtStep(size, b, rt, io); PayloadInv(size, b', rt')
  {
    if rt.CopySend? && rt.i < Min(|b.smbx|, size) {
      assert rt.buf[rt.i := b.smbx[rt.i]][..rt.i + 1] == rt.buf[..rt.i] + [b.smbx[rt.i]];
      assert b.smbx[..rt.i + 1] == b.smbx[..rt.i] + [b.smbx[rt.i]];
    }
  }

  lemma RtExtends(size: nat, b: Box, rt: RtPc, io: BusIo)
    ensures var (b', _) := RtStep(size, b, rt, io); Extends(b.log, b'.log) && |b'.smbx| == |b.smbx|
  {
  }

  /** The realtime thread keeps the invariant, whatever the bus answers. */
  lemma RtKeepsInv(size: nat, b: Box, rt: RtPc, ct: CtPc, io: BusIo)
    requires Inv(size, b, rt, ct)
    ensures var (b', rt') := RtStep(size, b, rt, io); Inv(size, b', rt', ct)
  {
    var fit := Min(|b.smbx|, size);
    var v := Replay(b.log, fit);
    RtFlag(size, b, rt, ct, io);
    RtReceive(size, b, rt, ct, io);
    RtLedger(RequestsOf(b.log), ImagesOf(b.log), size, b, rt, ct, io);
    RtDue(v, size, b, rt, ct, io);
    RtMessage(v, size, b, rt, ct, io);
    RtPayload(v, size, b, rt, ct, io);
    RtExtends(size, b, rt, io);
    LogGrows(b.log, RtStep(size, b, rt, io).0.log, fit);
  }

  lemma CtFlag(b: Box, rt: RtPc, ct: CtPc, act: PluginAct)
    requires FlagInv(b, rt, ct)
    ensures var (b', ct') := CtStep(b, ct, act); FlagInv(b', rt, ct')
  {
  }

  lemma CtReceive(size: nat, b: Box, rt: RtPc, ct: CtPc, act: PluginAct)
    requires FlagInv(b, rt, ct) && ReceiveInv(size, b, rt, ct)
    ensures var (b', ct') := CtStep(b, ct, act); ReceiveInv(size, b', rt, ct')
  {
  }

  lemma CtLedger(requests: seq<Request>, images: seq<seq<Byte>>,
                 size: nat, b: Box, rt: RtPc, ct: CtPc, act: PluginAct)
    requires FlagInv(b, rt, ct) && ReceiveInv(size, b, rt, ct) && LedgerInv(requests, images, b, ct)
    ensures var (b', ct') := CtStep(b, ct, act);
            LedgerInv(Requests'(requests, b.log, b'.log), Images'(images, b.log, b'.log), b', ct')
  {
    var (b', ct') := CtStep(b, ct, act);
    if ct.ConsumeOne? && b.sendQueue != [] {
      assert b.accepted == requests + [b.sendQueue[0]] + b.sendQueue[1..];
      assert images == b'.consumed + b'.receiveQueue + Unread(b', ct');
    } else {
      assert b'.log == b.log;
      assert b'.accepted == requests + b'.sendQueue;
    }
  }

  lemma CtSendDue(v: Verdict, size: nat, b: Box, rt: RtPc, ct: CtPc, act: PluginAct)
    requires FlagInv(b, rt, ct) && DueInv(v, b, rt, ct)
    ensures var (b', ct') := CtStep(b, ct, act);
            var v' := Verdict'(v, b.log, b'.log, Min(|b.smbx|, size));
            && !v'.Broken?
            && (SendDue(b', rt, ct') <==> v'.Busy? && v'.sendDue)
  {
  }

  lemma CtFetchDue(v: Verdict, size: nat, b: Box, rt: RtPc, ct: CtPc, act: PluginAct)
    requires FlagInv(b, rt, ct) && DueInv(v, b, rt, ct)
    requires ct.StoreReceive? ==> v.Busy? && v.request == ct.request
    ensures var (b', ct') := CtStep(b, ct, act);
            var v' := Verdict'(v, b.log, b'.log, Min(|b.smbx|, size));
            FetchDue(b', rt, ct') <==> v'.Busy? && v'.fetchDue
  {
  }

  lemma CtDue(v: Verdict, size: nat, b: Box, rt: RtPc, ct: CtPc, act: PluginAct)
    requires ExchangeInv(v, size, b, rt, ct)
    ensures var (b', ct') := CtStep(b, ct, act);
            DueInv(Verdict'(v, b.log, b'.log, Min(|b.smbx|, size)), b', rt, ct')
  {
    CtSendDue(v, size, b, rt, ct, act);
    CtFetchDue(v, size, b, rt, ct, act);
  }

  lemma CtMessage(v: Verdict, size: nat, b: Box, rt: RtPc, ct: CtPc, act: PluginAct)
    requires ExchangeInv(v, size, b, rt, ct)
    ensures var (b', ct') := CtStep(b, ct, act);
            MessageInv(Verdict'(v, b.log, b'.log, Min(|b.smbx|, size)), b', rt, ct')
  {
    if ct.CopyMessage? && ct.i < |ct.request.msg| && ct.i < |b.smbx| {
      var msg := ct.request.msg;
      assert b.smbx[ct.i := msg[ct.i]][..ct.i + 1] == b.smbx[..ct.i] + [msg[ct.i]];
      assert msg[..ct.i + 1] == msg[..ct.i] + [msg[ct.i]];
    }
  }

  lemma CtPayload(v: Verdict, size: nat, b: Box, rt: RtPc, ct: CtPc, act: PluginAct)
    requires ExchangeInv(v, size, b, rt, ct)
    ensures var (b', ct') := CtStep(b, ct, act); PayloadInv(size, b', rt)
  {
  }

  lemma CtExtends(b: Box, ct: CtPc, act: PluginAct)
    ensures var (b', _) := CtStep(b, ct, act); Extends(b.log, b'.log) && |b'.smbx| == |b.smbx|
  {
  }

  /** The control thread keeps the invariant, whatever the plugin does. */
  lemma CtKeepsInv(size: nat, b: Box, rt: RtPc, ct: CtPc, act: PluginAct)
    requires Inv(size, b, rt, ct)
    ensures var (b', ct') := CtStep(b, ct, act); Inv(size, b', rt, ct')
  {
    var fit := Min(|b.smbx|, size);
    var v := Replay(b.log, fit);
    CtFlag(b, rt, ct, act);
    CtReceive(size, b, rt, ct, act);
    CtLedger(RequestsOf(b.log), ImagesOf(b.log), size, b, rt, ct, act);
    CtDue(v, size, b, rt, ct, act);
    CtMessage(v, size, b, rt, ct, act);
    CtPayload(v, size, b, rt, ct, act);
    CtExtends(b, ct, act);
    LogGrows(b.log, CtStep(b, ct, act).0.log, fit);
  }

  /// What the invariant says about the exchange

  function Responses(requests: seq<Request>): nat {
    if requests == [] then 0
    else Responses(requests[..|requests| - 1]) + if requests[|requests| - 1].response then 1 else 0
  }

  lemma ResponsesGrow(requests: seq<Request>, r: Request)
    ensures Responses(requests + [r]) == Responses(requests) + if r.response then 1 else 0
  {
    assert (requests + [r])[..|requests|] == requests;
  }

  /** All of `requests` are sent and fetched but for what `v` says is owed for the last one. */
  predicate Settled(v: Verdict, requests: seq<Request>, sent: nat, fetched: nat) {
    && sent + (if v.Busy? && v.sendDue then 1 else 0) == |requests|
    && fetched + (if v.Busy? && v.fetchDue then 1 else 0) == Responses(requests)
    && (v.Busy? ==> requests != [] && requests[|requests| - 1] == v.request)
  }

  lemma AdvanceSettles(v: Verdict, requests: seq<Request>, sent: nat, fetched: nat, e: Event, fit: nat)
    requires Settled(v, requests, sent, fetched) && !Advance(v, e, fit).Broken?
    ensures Settled(Advance(v, e, fit), requests + (if e.Dequeued? then [e.request] else []),
                    sent + (if e.Sent? then 1 else 0), fetched + (if e.Fetched? then 1 else 0))
    ensures e.Sent? ==> sent < |requests| && Carries(e.payload, requests[sent].msg, fit)
  {
    if e.Dequeued? {
      ResponsesGrow(requests, e.request);
    } else {
      assert requests + [] == requests;
    }
  }

  /** In a log that replays, at most the last request still owes its send or its fetch. */
  lemma {:induction false} ReplayedCounts(log: seq<Event>, fit: nat)
    requires !Replay(log, fit).Broken?
    ensures Settled(Replay(log, fit), RequestsOf(log), |PayloadsOf(log)|, |ImagesOf(log)|)
    decreases |log|
  {
    if log != [] {
      var before, e := log[..|log| - 1], log[|log| - 1];
      ReplayedCounts(before, fit);
      AdvanceSettles(Replay(before, fit), RequestsOf(before), |PayloadsOf(before)|, |ImagesOf(before)|, e, fit);
    }
  }

  /** A log that replays is a first-in first-out history: each payload carries its request's
      message. */
  lemma {:induction false} ReplayedInOrder(log: seq<Event>, fit: nat)
    requires !Replay(log, fit).Broken?
    ensures |PayloadsOf(log)| <= |RequestsOf(log)|
    ensures forall j | 0 <= j < |PayloadsOf(log)| ::
              Carries(PayloadsOf(log)[j], RequestsOf(log)[j].msg, fit)
    decreases |log|
  {
    if log != [] {
      var before, e := log[..|log| - 1], log[|log| - 1];
      ReplayedInOrder(before, fit);
      ReplayedCounts(before, fit);
      AdvanceSettles(Replay(before, fit), RequestsOf(before), |PayloadsOf(before)|, |ImagesOf(before)|, e, fit);
    }
  }

  function Sends(log: seq<Event>): nat {
    if log == [] then 0 else Sends(log[..|log| - 1]) + if log[|log| - 1].Sent? then 1 else 0
  }

  function Fetches(log: seq<Event>): nat {
    if log == [] then 0 else Fetches(log[..|log| - 1]) + if log[|log| - 1].Fetched? then 1 else 0
  }

  /** Every send and fetch in `log` belongs to the exchange of `r`. */
  predicate Serves(log: seq<Event>, r: Request, fit: nat) {
    forall e | e in log ::
      (e.Sent? ==> Carries(e.payload, r.msg, fit)) && (e.Fetched? ==> e.raw == r.raw)
  }

  predicate NoDequeue(log: seq<Event>) {
    forall e | e in log :: !e.Dequeued?
  }

  lemma SinceDequeueShrinks(log: seq<Event>, i: nat)
    requires i + 1 < |log| && NoDequeue(log[i + 1..])
    ensures var before, e := log[..|log| - 1], log[|log| - 1];
            && log[i + 1..] == before[i + 1..] + [e] && !e.Dequeued? && NoDequeue(before[i + 1..])
            && log[i + 1..][..|log[i + 1..]| - 1] == before[i + 1..]
  {
    var before, e := log[..|log| - 1], log[|log| - 1];
    assert log[i + 1..] == before[i + 1..] + [e];
    assert e in log[i + 1..];
  }

  lemma {:induction false} ReplayedServes(log: seq<Event>, i: nat, fit: nat)
    requires i < |log| && log[i].Dequeued? && NoDequeue(log[i + 1..])
    requires !Replay(log, fit).Broken?
    ensures var v := Replay(log, fit);
            v.Busy? && v.request == log[i].request && Serves(log[i + 1..], log[i].request, fit)
    decreases |log|
  {
    if i + 1 == |log| {
      assert log[i + 1..] == [];
    } else {
      SinceDequeueShrinks(log, i);
      ReplayedServes(log[..|log| - 1], i, fit);
    }
  }

  /** After a dequeue and before the next one, what has happened and what is still owed add up
      to one send, and one fetch if the request asked for a reply. */
  lemma {:induction false} ReplayedSinceDequeue(log: seq<Event>, i: nat, fit: nat)
    requires i < |log| && log[i].Dequeued? && NoDequeue(log[i + 1..])
    requires !Replay(log, fit).Broken?
    ensures var v := Replay(log, fit);
            && v.Busy?
            && Sends(log[i + 1..]) + (if v.sendDue then 1 else 0) == 1
            && Fetches(log[i + 1..]) + (if v.fetchDue then 1 else 0) == (if log[i].request.response then 1 else 0)
    decreases |log|
  {
    if i + 1 == |log| {
      assert log[i + 1..] == [];
    } else {
      SinceDequeueShrinks(log, i);
      ReplayedSinceDequeue(log[..|log| - 1], i, fit);
    }
  }

  lemma ReplayedPrefix(log: seq<Event>, n: nat, fit: nat)
    requires n <= |log| && !Replay(log, fit).Broken?
    ensures !Replay(log[..n], fit).Broken?
    decreases |log|
  {
    if n < |log| {
      assert log[..|log| - 1][..n] == log[..n];
      ReplayedPrefix(log[..|log| - 1], n, fit);
    } else {
      assert log[..n] == log;
    }
  }

  /** Between two consecutive dequeues there is exactly one successful send, and exactly one
      completed fetch if and only if the first request asked for a reply; the send carries that
      request's message and the fetch uses its mode. */
  lemma OneExchangePerDequeue(size: nat, b: Box, rt: RtPc, ct: CtPc, i: nat, j: nat)
    requires Inv(size, b, rt, ct)
    requires i < j < |b.log| && b.log[i].Dequeued? && b.log[j].Dequeued? && NoDequeue(b.log[i + 1..j])
    ensures Sends(b.log[i + 1..j]) == 1
    ensures Fetches(b.log[i + 1..j]) == if b.log[i].request.response then 1 else 0
    ensures Serves(b.log[i + 1..j], b.log[i].request, Min(|b.smbx|, size))
  {
    var fit := Min(|b.smbx|, size);
    var seen := b.log[..j];
    ReplayedPrefix(b.log, j + 1, fit);
    assert b.log[..j + 1][..j] == seen;
    assert seen[i + 1..] == b.log[i + 1..j];
    ReplayedPrefix(b.log, j, fit);
    ReplayedSinceDequeue(seen, i, fit);
    ReplayedServes(seen, i, fit);
  }

  /** Accepted messages are those sent, then at most one in flight, then those still queued, in
      the order they were accepted, and each sent payload starts with its message. */
  lemma AcceptedInOrder(size: nat, b: Box, rt: RtPc, ct: CtPc)
    requires Inv(size, b, rt, ct)
    ensures var sent := |PayloadsOf(b.log)|;
            var inFlight := if SendDue(b, rt, ct) then 1 else 0;
            && sent + inFlight <= |b.accepted|
            && b.accepted == b.accepted[..sent + inFlight] + b.sendQueue
            && forall j | 0 <= j < sent ::
                 Carries(PayloadsOf(b.log)[j], b.accepted[j].msg, Min(|b.smbx|, size))
  {
    ReplayedCounts(b.log, Min(|b.smbx|, size));
    ReplayedInOrder(b.log, Min(|b.smbx|, size));
  }

  /** Fetched images are those the plugin consumed, then those in its queue, then the unread
      one in `RMbx`, and there is one for every reply asked for and not still outstanding. */
  lemma RepliesInOrder(size: nat, b: Box, rt: RtPc, ct: CtPc)
    requires Inv(size, b, rt, ct)
    ensures ImagesOf(b.log) == b.consumed + b.receiveQueue + Unread(b, ct)
    ensures |ImagesOf(b.log)| + (if FetchDue(b, rt, ct) then 1 else 0) == Responses(RequestsOf(b.log))
  {
    ReplayedCounts(b.log, Min(|b.smbx|, size));
  }

  /// The order of send and fetch within an exchange

  /** The last request taken from the queue has not been sent. */
  predicate Unsent(log: seq<Event>) {
    log != [] && (log[|log| - 1].Dequeued? || (!log[|log| - 1].Sent? && Unsent(log[..|log| - 1])))
  }

  lemma {:induction false} UnsentIff(log: seq<Event>, fit: nat)
    requires !Replay(log, fit).Broken?
    ensures Unsent(log) <==> Replay(log, fit).Busy? && Replay(log, fit).sendDue
    decreases |log|
  {
    if log != [] {
      UnsentIff(log[..|log| - 1], fit);
    }
  }

  /** The realtime thread has found `receive` set and has not reported a reply yet. */
  predicate Fetching(rt: RtPc) {
    rt.LoadUnread? || rt.LoadRaw? || rt.Receive? || rt.CopyReceived? || rt.SetUnread?
  }

  /** From the test of `receive` to the report of the reply neither thread changes whether the
      request still has to be sent. */
  lemma FetchKeepsSendDue(size: nat, b: Box, rt: RtPc, ct: CtPc, io: BusIo, act: PluginAct)
    requires FlagInv(b, rt, ct)
    ensures var (b', rt') := RtStep(size, b, rt, io);
            Fetching(rt) || (rt.LoadReceive? && b.receive) ==> SendDue(b', rt', ct) == SendDue(b, rt, ct)
    ensures var (b', ct') := CtStep(b, ct, act);
            Fetching(rt) ==> SendDue(b', rt, ct') == SendDue(b, rt, ct)
  {
  }

  /** At that test, the request still has to be sent if it is requested or about to be. */
  lemma PassingSendDue(b: Box, ct: CtPc)
    requires FlagInv(b, LoadReceive, ct) && b.receive
    ensures SendDue(b, LoadReceive, ct) <==> b.sendRequest || ct.StoreSend?
  {
  }
}
