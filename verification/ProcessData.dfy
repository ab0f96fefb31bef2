/** The two process-data handoffs between the control thread and the realtime thread
    (soem_master.cpp, `transfer_RxPDO`, `transfer_TxPDO` and `cyclic_task`), each guarded by one
    atomic flag, one step per atomic access and per copied byte. */
module ProcessData {
  import opened Mailbox

  type Image = seq<Byte>

  function LastOr<T>(xs: seq<T>, default: T): T {
    if xs == [] then default else xs[|xs| - 1]
  }

  /// Outputs: from the plugins to the bus

  datatype Output = Output(
    transfer: bool,
    working: Image,         // RxPDO_working
    region: Image,          // output region of the IOmap
    // histories
    initial: Image,
    handed: seq<Image>,     // `working` when a transfer was requested
    captured: seq<Image>,   // `region` when a transfer was served
    frames: seq<Image>,     // `region` at every send attempt
    frameOf: seq<nat>)      // transfers served before that attempt

  datatype OutRt = OutAway | LoadRx | CopyOut(i: nat) | StoreRx | SendPd

  datatype OutCt = OutIdle | Filling | RaiseRx | WaitRx

  function OutRtStep(o: Output, pc: OutRt): (Output, OutRt) {
    match pc
    case OutAway => (o, OutAway)
    case LoadRx => (o, if o.transfer then CopyOut(0) else SendPd)
    case CopyOut(i) =>
      if i < |o.working| && i < |o.region|
      then (o.(region := o.region[i := o.working[i]]), CopyOut(i + 1))
      else (o, StoreRx)
    case StoreRx => (o.(transfer := false, captured := o.captured + [o.region]), SendPd)
    case SendPd =>
      (o.(frames := o.frames + [o.region], frameOf := o.frameOf + [|o.captured|]), OutAway)
  }

  /** A plugin writes one byte of its part of the working set. */
  function Fill(o: Output, at: nat, value: Byte): Output {
    if at < |o.working| then o.(working := o.working[at := value]) else o
  }

  function OutCtStep(o: Output, pc: OutCt): (Output, OutCt) {
    match pc
    case OutIdle => (o, OutIdle)
    case Filling => (o, Filling)
    case RaiseRx => (o.(transfer := true, handed := o.handed + [o.working]), WaitRx)
    case WaitRx => (o, if o.transfer then WaitRx else OutIdle)
  }

  ghost predicate OutInv(o: Output, rt: OutRt, ct: OutCt) {
    && |o.working| == |o.region|
    && (o.transfer ==> ct == WaitRx)
    && (rt.CopyOut? || rt.StoreRx? ==> o.transfer)
    && (rt.CopyOut? ==> rt.i <= |o.region| && o.region[..rt.i] == o.working[..rt.i])
    && (rt.StoreRx? ==> o.region == o.working)
    && o.handed == o.captured + (if o.transfer then [o.working] else [])
    && (!rt.CopyOut? && !rt.StoreRx? ==> o.region == LastOr(o.captured, o.initial))
  }

  /** Image 0 is what the IOmap held at the start, image n the n-th one captured. */
  function ImageNo(o: Output, n: nat): Image
    requires n <= |o.captured|
  {
    if n == 0 then o.initial else o.captured[n - 1]
  }

  /** The frames sent so far walk through the captured images without skipping one. */
  ghost predicate FramesInv(o: Output, rt: OutRt) {
    && |o.frames| == |o.frameOf|
    && (forall i | 0 <= i < |o.frames| ::
          o.frameOf[i] <= |o.captured| && o.frames[i] == ImageNo(o, o.frameOf[i]))
    && (forall i | 0 < i < |o.frames| :: o.frameOf[i - 1] <= o.frameOf[i] <= o.frameOf[i - 1] + 1)
    && (o.frames != [] ==> o.frameOf[0] <= 1)
    && LastOr(o.frameOf, 0) <= |o.captured|
    && |o.captured| <= LastOr(o.frameOf, 0) + (if rt.SendPd? then 1 else 0)
  }

  lemma OutRtKeepsInv(o: Output, rt: OutRt, ct: OutCt)
    requires OutInv(o, rt, ct)
    ensures var (o', rt') := OutRtStep(o, rt); OutInv(o', rt', ct)
  {
    var (o', rt') := OutRtStep(o, rt);
    if rt.CopyOut? && rt'.CopyOut? {
      assert o'.region[..rt'.i] == o.region[..rt.i] + [o.working[rt.i]];
      assert o.working[..rt'.i] == o.working[..rt.i] + [o.working[rt.i]];
    }
  }

  lemma SendKeepsFrames(o: Output, ct: OutCt)
    requires OutInv(o, SendPd, ct) && FramesInv(o, SendPd)
    ensures FramesInv(OutRtStep(o, SendPd).0, OutAway)
  {
    var o' := OutRtStep(o, SendPd).0;
    var last := |o.frames|;
    assert o'.frames[last] == ImageNo(o', |o.captured|);
    forall i | 0 <= i < |o'.frames|
      ensures o'.frameOf[i] <= |o'.captured| && o'.frames[i] == ImageNo(o', o'.frameOf[i])
    {
      assert i < last ==> o'.frameOf[i] == o.frameOf[i] && o'.frames[i] == o.frames[i];
    }
    forall i | 0 < i < |o'.frames|
      ensures o'.frameOf[i - 1] <= o'.frameOf[i] <= o'.frameOf[i - 1] + 1
    {
      assert o'.frameOf[i - 1] == o.frameOf[i - 1];
      assert i < last ==> o'.frameOf[i] == o.frameOf[i];
    }
  }

  lemma StoreKeepsFrames(o: Output)
    requires FramesInv(o, StoreRx)
    ensures FramesInv(OutRtStep(o, StoreRx).0, SendPd)
  {
    var o' := OutRtStep(o, StoreRx).0;
    assert forall n | 0 <= n <= |o.captured| :: ImageNo(o', n) == ImageNo(o, n);
  }

  lemma FramesOnHistories(o: Output, o': Output, rt: OutRt, rt': OutRt)
    requires FramesInv(o, rt) && (rt.SendPd? ==> rt'.SendPd?)
    requires o'.captured == o.captured && o'.initial == o.initial
    requires o'.frames == o.frames && o'.frameOf == o.frameOf
    ensures FramesInv(o', rt')
  {
    assert forall n | 0 <= n <= |o.captured| :: ImageNo(o', n) == ImageNo(o, n);
  }

  lemma OutRtKeepsFrames(o: Output, rt: OutRt, ct: OutCt)
    requires OutInv(o, rt, ct) && FramesInv(o, rt)
    ensures var (o', rt') := OutRtStep(o, rt); FramesInv(o', rt')
  {
    if rt.SendPd? {
      SendKeepsFrames(o, ct);
    } else if rt.StoreRx? {
      StoreKeepsFrames(o);
    } else {
      var (o', rt') := OutRtStep(o, rt);
      FramesOnHistories(o, o', rt, rt');
    }
  }

  lemma OutCtKeepsInv(o: Output, rt: OutRt, ct: OutCt)
    requires OutInv(o, rt, ct)
    ensures var (o', ct') := OutCtStep(o, ct); OutInv(o', rt, ct')
  {
  }

  lemma FillKeepsInv(o: Output, rt: OutRt, at: nat, value: Byte)
    requires OutInv(o, rt, Filling)
    ensures OutInv(Fill(o, at, value), rt, Filling)
  {
  }

  /** `frameOf` climbs from at most 1 in steps of at most 1, so it meets every value. */
  lemma {:induction false} NoFrameSkipped(o: Output, rt: OutRt, n: nat) returns (i: nat)
    requires FramesInv(o, rt)
    requires 1 <= n <= LastOr(o.frameOf, 0)
    ensures i < |o.frameOf| && o.frameOf[i] == n
  {
    i := |o.frameOf| - 1;
    while o.frameOf[i] > n
      invariant i < |o.frameOf| && n <= o.frameOf[i]
      decreases i
    {
      i := i - 1;
    }
  }

  /** Every image handed over by a served `transfer_RxPDO` reaches at least one send attempt,
      whole and in order; only the image being sent right now may still wait for its first. */
  lemma EveryImageIsSent(o: Output, rt: OutRt, ct: OutCt, n: nat) returns (i: nat)
    requires OutInv(o, rt, ct) && FramesInv(o, rt)
    requires n < |o.captured| && (n + 1 < |o.captured| || !rt.SendPd?)
    ensures n < |o.handed| && i < |o.frames| && o.frames[i] == o.handed[n]
  {
    i := NoFrameSkipped(o, rt, n + 1);
  }

  /// Inputs: from the bus to the plugins

  datatype Input = Input(
    transfer: bool,
    working: Image,          // TxPDO_working
    region: Image,           // input region of the IOmap
    // histories
    initial: Image,
    received: seq<Image>,    // `region` after every receive call, whether it succeeded or not
    delivered: seq<Image>,   // `working` when a transfer was served
    deliveredAt: seq<nat>)   // receives done before that

  datatype InRt = InAway | ReceivePd | LoadTx | CopyIn(i: nat) | StoreTx

  datatype InCt = InIdle | RaiseTx | WaitTx

  function InRtStep(n: Input, pc: InRt, io: BusIo): (Input, InRt) {
    match pc
    case InAway => (n, InAway)
    case ReceivePd =>
      var image := Pad(io.image, |n.region|);
      (n.(region := image, received := n.received + [image]), LoadTx)
    case LoadTx => (n, if n.transfer then CopyIn(0) else InAway)
    case CopyIn(i) =>
      if i < |n.region| && i < |n.working|
      then (n.(working := n.working[i := n.region[i]]), CopyIn(i + 1))
      else (n, StoreTx)
    case StoreTx =>
      (n.(transfer := false, delivered := n.delivered + [n.working],
          deliveredAt := n.deliveredAt + [|n.received|]), InAway)
  }

  function InCtStep(n: Input, pc: InCt): (Input, InCt) {
    match pc
    case InIdle => (n, InIdle)
    case RaiseTx => (n.(transfer := true), WaitTx)
    case WaitTx => (n, if n.transfer then WaitTx else InIdle)
  }

  ghost predicate InInv(n: Input, rt: InRt, ct: InCt) {
    && |n.working| == |n.region|
    && (n.transfer ==> ct == WaitTx)
    && (rt.CopyIn? || rt.StoreTx? ==> n.transfer)
    && (rt.CopyIn? ==> rt.i <= |n.region| && n.working[..rt.i] == n.region[..rt.i])
    && (rt.StoreTx? ==> n.working == n.region)
    && (n.received != [] ==> n.region == n.received[|n.received| - 1])
    && (!rt.CopyIn? && !rt.StoreTx? ==> n.working == LastOr(n.delivered, n.initial))
  }

  /** Each delivered image is what some receive call left (a failed one leaves any image), and the
      call is a later one each time. */
  ghost predicate FreshInv(n: Input, rt: InRt) {
    && |n.delivered| == |n.deliveredAt|
    && LastOr(n.deliveredAt, 0) <= |n.received|
    && (rt.LoadTx? || rt.CopyIn? || rt.StoreTx? ==> LastOr(n.deliveredAt, 0) < |n.received|)
    && (forall i | 0 <= i < |n.delivered| ::
          1 <= n.deliveredAt[i] <= |n.received| && n.delivered[i] == n.received[n.deliveredAt[i] - 1])
    && (forall i | 0 < i < |n.delivered| :: n.deliveredAt[i - 1] < n.deliveredAt[i])
  }

  lemma InRtKeepsInv(n: Input, rt: InRt, ct: InCt, io: BusIo)
    requires InInv(n, rt, ct)
    ensures var (n', rt') := InRtStep(n, rt, io); InInv(n', rt', ct)
  {
    var (n', rt') := InRtStep(n, rt, io);
    if rt.CopyIn? && rt'.CopyIn? {
      assert n'.working[..rt'.i] == n.working[..rt.i] + [n.region[rt.i]];
      assert n.region[..rt'.i] == n.region[..rt.i] + [n.region[rt.i]];
    }
  }

  lemma StoreKeepsFresh(n: Input, ct: InCt)
    requires InInv(n, StoreTx, ct) && FreshInv(n, StoreTx)
    ensures FreshInv(n.(transfer := false, delivered := n.delivered + [n.working],
                        deliveredAt := n.deliveredAt + [|n.received|]), InAway)
  {
  }

  lemma ReceiveKeepsFresh(n: Input, image: Image)
    requires FreshInv(n, ReceivePd)
    ensures FreshInv(n.(region := image, received := n.received + [image]), LoadTx)
  {
  }

  lemma InRtKeepsFresh(n: Input, rt: InRt, ct: InCt, io: BusIo)
    requires InInv(n, rt, ct) && FreshInv(n, rt)
    ensures var (n', rt') := InRtStep(n, rt, io); FreshInv(n', rt')
  {
    match rt {
      case StoreTx => StoreKeepsFresh(n, ct);
      case ReceivePd => ReceiveKeepsFresh(n, Pad(io.image, |n.region|));
      case _ =>
    }
  }

  lemma InCtKeepsInv(n: Input, rt: InRt, ct: InCt)
    requires InInv(n, rt, ct)
    ensures var (n', ct') := InCtStep(n, ct); InInv(n', rt, ct')
  {
  }
}
