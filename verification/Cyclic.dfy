/** The accounting of `SOEMMaster::cyclic_task` (soem_master.cpp): error counters, published
    status and deadline, updated in place once per cycle and proved to be functions of the whole
    cycle history. */
module Cyclic {
  datatype MasterState = UNINITIALIZED | INITIALIZED | STARTING | IDLE | RUNNING | ERROR

  datatype Status = Status(
    errorCount: nat,
    rxErrorCount: nat,
    txErrorCount: nat,
    rxConsecutive: nat,
    txConsecutive: nat,
    otherConsecutive: nat,
    missedDeadlines: nat,
    cycleCount: nat,
    state: MasterState)

  datatype ErrorType = MbxError | Emergency | OtherType

  /** One entry of the bus library's error list. */
  datatype EcError = EcError(slave: int, etype: ErrorType)

  /** What happens to that list while the bus is served: a call reports an error, or a raw mailbox
      read of a slave has been completed. */
  datatype Report = Reported(error: EcError) | RawRead(position: int)

  /** What the bus, the clock and the diagnostics reader do in one cycle: the results of sending
      and receiving process data, what happens to the error list, the clock after the work is
      done, and whether the reader has emptied the status queue since the last push. */
  datatype Cycle = Cycle(sendWkc: int, receiveWkc: int, reports: seq<Report>, now: int, popped: bool)

  /// The error list

  /** An error that a raw mailbox read of the slave may have caused. */
  predicate OfMailbox(e: EcError, position: int) {
    e.slave == position && (e.etype == MbxError || e.etype == Emergency)
  }

  /** After a raw mailbox read the oldest error is taken from the list, and put back at its end
      unless it is one of that slave's mailbox. */
  function AfterRawRead(errors: seq<EcError>, position: int): seq<EcError> {
    if errors == [] then []
    else errors[1..] + if OfMailbox(errors[0], position) then [] else [errors[0]]
  }

  function AfterReport(errors: seq<EcError>, r: Report): seq<EcError> {
    match r
    case Reported(e) => errors + [e]
    case RawRead(p) => AfterRawRead(errors, p)
  }

  /** The error list, empty before, after `reports`. */
  function ErrorList(reports: seq<Report>): seq<EcError> {
    if reports == [] then []
    else
      AfterReport(ErrorList(reports[..|reports| - 1]), reports[|reports| - 1])
  }

  lemma ErrorListGrows(reports: seq<Report>, r: Report)
    ensures ErrorList(reports + [r]) == AfterReport(ErrorList(reports), r)
  {
    assert (reports + [r])[..|reports|] == reports;
  }

  /** Errors that are in the list already, as if they were reported now. */
  function Pending(errors: seq<EcError>): seq<Report> {
    seq(|errors|, i requires 0 <= i < |errors| => Reported(errors[i]))
  }

  lemma {:induction false} PendingList(errors: seq<EcError>)
    ensures ErrorList(Pending(errors)) == errors
    decreases |errors|
  {
    if errors != [] {
      var init := errors[..|errors| - 1];
      PendingList(init);
      assert Pending(errors)[..|errors| - 1] == Pending(init);
    }
  }

  /** Cycle `x`, beginning with a list that holds `errors`. */
  function Begin(errors: seq<EcError>, x: Cycle): Cycle {
    x.(reports := Pending(errors) + x.reports)
  }

  /** The cycles of a task that finds `errors` in the list: they count as reported in its first. */
  function History(errors: seq<EcError>, cycles: seq<Cycle>): (h: seq<Cycle>)
    ensures |h| == |cycles|
  {
    if cycles == [] then [] else [Begin(errors, cycles[0])] + cycles[1..]
  }

  lemma HistoryAt(errors: seq<EcError>, cycles: seq<Cycle>, k: nat)
    requires k < |cycles|
    ensures History(errors, cycles)[k] == Begin(if k == 0 then errors else [], cycles[k])
  {
    if k > 0 {
      assert Pending([]) + cycles[k].reports == cycles[k].reports;
    }
  }

  /** The errors found by the check at the end of a cycle. */
  function Found(c: Cycle): seq<EcError> {
    ErrorList(c.reports)
  }

  function ReportedErrors(reports: seq<Report>): multiset<EcError> {
    if reports == [] then multiset{}
    else
      var r := reports[|reports| - 1];
      ReportedErrors(reports[..|reports| - 1]) + if r.Reported? then multiset{r.error} else multiset{}
  }

  /** What a raw mailbox read drops. */
  function DroppedBy(errors: seq<EcError>, position: int): seq<EcError> {
    if errors != [] && OfMailbox(errors[0], position) then [errors[0]] else []
  }

  /** The errors dropped after raw mailbox reads. */
  function Dropped(reports: seq<Report>): seq<EcError> {
    if reports == [] then []
    else
      var init, r := reports[..|reports| - 1], reports[|reports| - 1];
      Dropped(init) + if r.RawRead? then DroppedBy(ErrorList(init), r.position) else []
  }

  lemma RawReadConserves(errors: seq<EcError>, position: int)
    ensures multiset(AfterRawRead(errors, position)) + multiset(DroppedBy(errors, position)) == multiset(errors)
  {
    if errors != [] {
      assert errors == [errors[0]] + errors[1..];
    }
  }

  /** Every reported error is found by the check or dropped. */
  lemma {:induction false} ErrorsAreConserved(reports: seq<Report>)
    ensures multiset(ErrorList(reports)) + multiset(Dropped(reports)) == ReportedErrors(reports)
    decreases |reports|
  {
    if reports != [] {
      var init, r := reports[..|reports| - 1], reports[|reports| - 1];
      ErrorsAreConserved(init);
      if r.RawRead? {
        RawReadConserves(ErrorList(init), r.position);
      }
    }
  }

  /** Only mailbox errors of slaves whose mailbox has been read raw are dropped. */
  lemma {:induction false} OnlyMailboxErrorsAreDropped(reports: seq<Report>)
    ensures forall e | e in Dropped(reports) ::
              (e.etype == MbxError || e.etype == Emergency) && RawRead(e.slave) in reports
    decreases |reports|
  {
    if reports != [] {
      var init, r := reports[..|reports| - 1], reports[|reports| - 1];
      OnlyMailboxErrorsAreDropped(init);
      assert reports == init + [r];
    }
  }

  /** A raw read that reports an error of its own leaves the list as long as it was exactly if the
      list was empty or began with such an error; otherwise an older error is only moved to the
      end, and the new one stays. */
  lemma RawReadHidesItsErrorIff(reports: seq<Report>, e: EcError)
    requires OfMailbox(e, e.slave)
    ensures var before, after := ErrorList(reports), ErrorList(reports + [Reported(e), RawRead(e.slave)]);
            && (|after| == |before| <==> before == [] || OfMailbox(before[0], e.slave))
            && (|after| != |before| ==> after == before[1..] + [e, before[0]])
  {
    var longer := reports + [Reported(e)];
    assert longer[..|reports|] == reports;
    assert (longer + [RawRead(e.slave)])[..|longer|] == longer;
    assert reports + [Reported(e), RawRead(e.slave)] == longer + [RawRead(e.slave)];
    var before := ErrorList(reports);
    assert ErrorList(longer) == before + [e];
    if before != [] {
      assert (before + [e])[1..] == before[1..] + [e];
    }
  }

  /** For example: after an error of slave 1, the mailbox error of slave 2 stays. */
  lemma RawReadMayKeepItsError()
    ensures var older, own := EcError(1, OtherType), EcError(2, MbxError);
            ErrorList([Reported(older), Reported(own), RawRead(2)]) == [own, older]
  {
    var older, own := EcError(1, OtherType), EcError(2, MbxError);
    RawReadHidesItsErrorIff([Reported(older)], own);
    assert [Reported(older)][..0] == [];
    assert [Reported(older)] + [Reported(own), RawRead(2)] == [Reported(older), Reported(own), RawRead(2)];
  }

  datatype Fault = TxFault | RxFault | OtherFault

  predicate Failed(c: Cycle, f: Fault) {
    match f
    case TxFault => c.sendWkc <= 0
    case RxFault => c.receiveWkc <= 0
    case OtherFault => Found(c) != []
  }

  /// What the counters mean

  /** The last `n` cycles failed, and the one before them did not. */
  ghost predicate FailingSuffix(h: seq<Cycle>, f: Fault, n: nat) {
    && n <= |h|
    && (forall i | |h| - n <= i < |h| :: Failed(h[i], f))
    && (n < |h| ==> !Failed(h[|h| - n - 1], f))
  }

  lemma FailingSuffixIsUnique(h: seq<Cycle>, f: Fault, m: nat, n: nat)
    requires FailingSuffix(h, f, m) && FailingSuffix(h, f, n)
    ensures m == n
  {
  }

  predicate Faulty(c: Cycle) {
    Failed(c, TxFault) || Failed(c, RxFault) || Failed(c, OtherFault)
  }

  function Failures(h: seq<Cycle>, f: Fault): nat {
    if h == [] then 0 else Failures(h[..|h| - 1], f) + if Failed(h[|h| - 1], f) then 1 else 0
  }

  /** Errors taken out of the bus library's list over `h`. */
  function Drained(h: seq<Cycle>): nat {
    if h == [] then 0 else Drained(h[..|h| - 1]) + |Found(h[|h| - 1])|
  }

  /** The k-th deadline, as the loop advances it. */
  function Deadline(c: int, start: int, h: seq<Cycle>): int {
    if h == [] then start
    else
      var next := Deadline(c, start, h[..|h| - 1]) + c;
      if h[|h| - 1].now > next then h[|h| - 1].now else next
  }

  predicate Missed(c: int, start: int, h: seq<Cycle>, k: nat)
    requires k < |h|
  {
    h[k].now > Deadline(c, start, h[..k]) + c
  }

  function Misses(c: int, start: int, h: seq<Cycle>): set<nat> {
    set k | 0 <= k < |h| && Missed(c, start, h, k)
  }

  const TWO31 := 0x8000_0000
  const TWO32 := 0x1_0000_0000
  const TWO64 := 0x1_0000_0000_0000_0000

  /** `n` increments of a 32-bit signed atomic that starts at 0. */
  function Int32(n: nat): int {
    if n % TWO32 < TWO31 then n % TWO32 else n % TWO32 - TWO32
  }

  /** An `int` assigned to a `size_t`. */
  function SizeT(i: int): nat
    requires -TWO31 <= i < TWO31
  {
    if i < 0 then i + TWO64 else i
  }

  /** The consecutive counters of `s` count over the maximal failing suffixes of `h`. */
  ghost predicate CountsSuffixes(s: Status, h: seq<Cycle>) {
    && FailingSuffix(h, TxFault, s.txConsecutive)
    && FailingSuffix(h, RxFault, s.rxConsecutive)
    && (exists n :: FailingSuffix(h, OtherFault, n) && s.otherConsecutive == Drained(h[|h| - n..]))
  }

  /** The totals of `s` are those of `s0` and every failure, drained error and miss in `h`. */
  ghost predicate CountsAll(s0: Status, s: Status, c: int, start: int, h: seq<Cycle>) {
    && s.txErrorCount == s0.txErrorCount + Failures(h, TxFault)
    && s.rxErrorCount == s0.rxErrorCount + Failures(h, RxFault)
    && s.errorCount == s0.errorCount + Failures(h, TxFault) + Failures(h, RxFault) + Drained(h)
    && s.missedDeadlines == s0.missedDeadlines + |Misses(c, start, h)|
  }

  /// One more cycle

  lemma SuffixGrows(h: seq<Cycle>, x: Cycle, f: Fault, n: nat)
    requires FailingSuffix(h, f, n)
    ensures FailingSuffix(h + [x], f, if Failed(x, f) then n + 1 else 0)
  {
  }

  lemma DrainedGrows(h: seq<Cycle>, x: Cycle)
    ensures Drained(h + [x]) == Drained(h) + |Found(x)|
    ensures Failures(h + [x], TxFault) == Failures(h, TxFault) + if Failed(x, TxFault) then 1 else 0
    ensures Failures(h + [x], RxFault) == Failures(h, RxFault) + if Failed(x, RxFault) then 1 else 0
  {
    assert (h + [x])[..|h|] == h;
  }

  lemma OtherGrows(h: seq<Cycle>, x: Cycle, n: nat)
    requires FailingSuffix(h, OtherFault, n)
    ensures var m := if Failed(x, OtherFault) then n + 1 else 0;
            && FailingSuffix(h + [x], OtherFault, m)
            && Drained((h + [x])[|h + [x]| - m..])
               == if Failed(x, OtherFault) then Drained(h[|h| - n..]) + |Found(x)| else 0
  {
    SuffixGrows(h, x, OtherFault, n);
    if Failed(x, OtherFault) {
      assert (h + [x])[|h| - n..] == h[|h| - n..] + [x];
      DrainedGrows(h[|h| - n..], x);
    } else {
      assert (h + [x])[|h| + 1..] == [];
    }
  }

  lemma DeadlineGrows(c: int, start: int, h: seq<Cycle>, x: Cycle)
    ensures var next := Deadline(c, start, h) + c;
            && Deadline(c, start, h + [x]) == (if x.now > next then x.now else next)
            && |Misses(c, start, h + [x])| == |Misses(c, start, h)| + if x.now > next then 1 else 0
  {
    var h' := h + [x];
    assert h'[..|h|] == h;
    forall k | 0 <= k < |h|
      ensures Missed(c, start, h', k) == Missed(c, start, h, k)
    {
      assert h'[..k] == h[..k];
    }
    if Missed(c, start, h', |h|) {
      assert Misses(c, start, h') == Misses(c, start, h) + {|h|};
    } else {
      assert Misses(c, start, h') == Misses(c, start, h);
    }
  }

  /** What one cycle does to the status, given the deadline before it and its number. */
  function NextStatus(b: Status, x: Cycle, missed: bool, cycleCount: nat): Status {
    var tx := if Failed(x, TxFault) then 1 else 0;
    var rx := if Failed(x, RxFault) then 1 else 0;
    Status(
      b.errorCount + tx + rx + |Found(x)|,
      b.rxErrorCount + rx,
      b.txErrorCount + tx,
      if Failed(x, RxFault) then b.rxConsecutive + 1 else 0,
      if Failed(x, TxFault) then b.txConsecutive + 1 else 0,
      if Failed(x, OtherFault) then b.otherConsecutive + |Found(x)| else 0,
      b.missedDeadlines + (if missed then 1 else 0),
      cycleCount,
      if Faulty(x) then ERROR else RUNNING)
  }

  /** The status after the cycles `h` of a task that found `s0`. */
  function StatusAfter(s0: Status, c: int, start: int, h: seq<Cycle>): Status {
    if h == [] then s0.(state := RUNNING, rxConsecutive := 0, txConsecutive := 0, otherConsecutive := 0)
    else
      NextStatus(StatusAfter(s0, c, start, h[..|h| - 1]), h[|h| - 1], Missed(c, start, h, |h| - 1),
                 SizeT(Int32(|h|)))
  }

  /** The statuses the cycles of `h` push, in order. */
  function Statuses(s0: Status, c: int, start: int, h: seq<Cycle>): seq<Status> {
    if h == [] then [] else Statuses(s0, c, start, h[..|h| - 1]) + [StatusAfter(s0, c, start, h)]
  }

  function Deadlines(c: int, start: int, h: seq<Cycle>): seq<int> {
    if h == [] then [] else Deadlines(c, start, h[..|h| - 1]) + [Deadline(c, start, h)]
  }

  /** The status queue after the cycles of `h`, if it held `q0` before. */
  function QueueAfter(q0: seq<Status>, s0: Status, c: int, start: int, h: seq<Cycle>): seq<Status> {
    if h == [] then q0
    else
      var q := QueueAfter(q0, s0, c, start, h[..|h| - 1]);
      if h[|h| - 1].popped || q == [] then [StatusAfter(s0, c, start, h)] else q
  }

  lemma CounterSteps(n: nat)
    ensures Int32(n + 1) == if Int32(n) + 1 == TWO31 then -TWO31 else Int32(n) + 1
  {
  }

  lemma HistoryGrows(q0: seq<Status>, s0: Status, c: int, start: int, h: seq<Cycle>, k: nat)
    requires k < |h|
    ensures var d := Deadline(c, start, h[..k]) + c;
            && Deadline(c, start, h[..k + 1]) == (if h[k].now > d then h[k].now else d)
            && StatusAfter(s0, c, start, h[..k + 1])
               == NextStatus(StatusAfter(s0, c, start, h[..k]), h[k], h[k].now > d, SizeT(Int32(k + 1)))
            && Statuses(s0, c, start, h[..k + 1])
               == Statuses(s0, c, start, h[..k]) + [StatusAfter(s0, c, start, h[..k + 1])]
            && QueueAfter(q0, s0, c, start, h[..k + 1])
               == (if h[k].popped || QueueAfter(q0, s0, c, start, h[..k]) == []
                   then [StatusAfter(s0, c, start, h[..k + 1])] else QueueAfter(q0, s0, c, start, h[..k]))
            && Deadlines(c, start, h[..k + 1]) == Deadlines(c, start, h[..k]) + [Deadline(c, start, h[..k + 1])]
  {
    assert h[..k + 1][..k] == h[..k];
  }

  lemma NextCountsSuffixes(b: Status, h: seq<Cycle>, x: Cycle, missed: bool, cycleCount: nat)
    requires CountsSuffixes(b, h)
    ensures CountsSuffixes(NextStatus(b, x, missed, cycleCount), h + [x])
  {
    var n :| FailingSuffix(h, OtherFault, n) && b.otherConsecutive == Drained(h[|h| - n..]);
    SuffixGrows(h, x, TxFault, b.txConsecutive);
    SuffixGrows(h, x, RxFault, b.rxConsecutive);
    OtherGrows(h, x, n);
  }

  lemma NextCountsAll(s0: Status, b: Status, c: int, start: int, h: seq<Cycle>, x: Cycle, cycleCount: nat)
    requires CountsAll(s0, b, c, start, h)
    ensures CountsAll(s0, NextStatus(b, x, x.now > Deadline(c, start, h) + c, cycleCount), c, start, h + [x])
  {
    DrainedGrows(h, x);
    DeadlineGrows(c, start, h, x);
  }

  /** After every history, each consecutive counter is the count over the maximal failing suffix
      since the task started. */
  lemma {:induction false} ConsecutiveCountersMeanSuffixes(s0: Status, c: int, start: int, h: seq<Cycle>)
    ensures CountsSuffixes(StatusAfter(s0, c, start, h), h)
    decreases |h|
  {
    if h == [] {
      assert FailingSuffix(h, OtherFault, 0) && h[|h| - 0..] == [];
    } else {
      var before, x := h[..|h| - 1], h[|h| - 1];
      assert before + [x] == h;
      ConsecutiveCountersMeanSuffixes(s0, c, start, before);
      NextCountsSuffixes(StatusAfter(s0, c, start, before), before, x,
                         Missed(c, start, h, |h| - 1), SizeT(Int32(|h|)));
    }
  }

  /** After every history, total errors are send failures, receive failures and drained bus
      errors, and the miss counter counts exactly the cycles that missed their deadline. */
  lemma {:induction false} TotalsCountEverything(s0: Status, c: int, start: int, h: seq<Cycle>)
    ensures CountsAll(s0, StatusAfter(s0, c, start, h), c, start, h)
    decreases |h|
  {
    if h == [] {
      assert Misses(c, start, h) == {};
    } else {
      var before, x := h[..|h| - 1], h[|h| - 1];
      assert before + [x] == h;
      TotalsCountEverything(s0, c, start, before);
      NextCountsAll(s0, StatusAfter(s0, c, start, before), c, start, before, x, SizeT(Int32(|h|)));
    }
  }

  /// What a reader of the statuses may rely on

  lemma {:induction false} StatusesAt(s0: Status, c: int, start: int, h: seq<Cycle>, k: nat)
    requires k < |h|
    ensures |Statuses(s0, c, start, h)| == |h| && |Deadlines(c, start, h)| == |h|
    ensures Statuses(s0, c, start, h)[k] == StatusAfter(s0, c, start, h[..k + 1])
    ensures Deadlines(c, start, h)[k] == Deadline(c, start, h[..k + 1])
    decreases |h|
  {
    var before := h[..|h| - 1];
    if k + 1 < |h| {
      StatusesAt(s0, c, start, before, k);
      assert before[..k + 1] == h[..k + 1];
    } else {
      assert h[..k + 1] == h;
      if before != [] {
        StatusesAt(s0, c, start, before, 0);
      }
    }
  }

  /** The published cycle count is the number of cycles until the 32-bit counter wraps. */
  lemma StatusesCountCycles(s0: Status, c: int, start: int, h: seq<Cycle>, k: nat)
    requires k < |h| && k + 1 < 0x8000_0000
    ensures |Statuses(s0, c, start, h)| == |h| && Statuses(s0, c, start, h)[k].cycleCount == k + 1
  {
    StatusesAt(s0, c, start, h, k);
    CycleCountIsExactIff(k + 1);
  }

  datatype Level = LevelOk | LevelWarn | LevelError

  /** The summary `build_master_status_diagnostics_ros` gives a status: the worst that applies. */
  function Diagnose(s: Status): Level {
    if s.rxConsecutive != 0 || s.txConsecutive != 0 || s.otherConsecutive != 0 then LevelError
    else if s.missedDeadlines != 0 then LevelWarn
    else LevelOk
  }

  /** Every status pushed inside the loop says ERROR exactly when the diagnostics built from it
      report an error, which is exactly when something failed in that very cycle. */
  lemma PushedStateMatchesDiagnostics(s0: Status, c: int, start: int, h: seq<Cycle>, k: nat)
    requires k < |h|
    ensures |Statuses(s0, c, start, h)| == |h|
    ensures var s := Statuses(s0, c, start, h)[k];
            && (s.state == ERROR <==> Diagnose(s) == LevelError)
            && (s.state == ERROR <==> Faulty(h[k]))
            && (s.state != ERROR ==> s.state == RUNNING)
            && (Diagnose(s) == LevelWarn <==> s.state == RUNNING && s.missedDeadlines > 0)
  {
    StatusesAt(s0, c, start, h, k);
    assert h[..k + 1][|h[..k + 1]| - 1] == h[k];
  }

  /** The queue keeps the oldest status since the reader last emptied it: the one pushed in the
      last cycle before which it was emptied, or, if it never was, what was there before. */
  lemma {:induction false} QueueKeepsOldest(q0: seq<Status>, s0: Status, c: int, start: int, h: seq<Cycle>, k: nat)
    requires k < |h| && (h[k].popped || (k == 0 && q0 == []))
    requires forall j | k < j < |h| :: !h[j].popped
    ensures QueueAfter(q0, s0, c, start, h) == [StatusAfter(s0, c, start, h[..k + 1])]
    decreases |h|
  {
    var before := h[..|h| - 1];
    if k + 1 < |h| {
      QueueKeepsOldest(q0, s0, c, start, before, k);
      assert before[..k + 1] == h[..k + 1];
    } else {
      assert h[..k + 1] == h;
    }
  }

  /** The published cycle count is the number of cycles exactly until the 32-bit counter wraps
      (and again, far out of reach, while the sign-extended value catches up). */
  lemma CycleCountIsExactIff(n: nat)
    ensures SizeT(Int32(n)) == n <==> n < TWO31 || TWO64 - TWO31 <= n < TWO64
  {
  }

  /** The first cycle whose published count is wrong. */
  lemma CycleCountWraps()
    ensures SizeT(Int32(TWO31)) == TWO64 - TWO31 && SizeT(Int32(TWO31 - 1)) == TWO31 - 1
  {
  }

  /// Deadlines in closed form

  /** The deadline the clock reading of cycle j alone would give cycle |h|; reading 0 is the
      start time. */
  function Term(c: int, start: int, h: seq<Cycle>, j: nat): int
    requires j <= |h|
  {
    (if j == 0 then start else h[j - 1].now) + (|h| - j) * c
  }

  /** The k-th deadline is the maximum over j <= k of n_j + (k - j) * c. */
  lemma {:induction false} DeadlineIsMaxPlus(c: int, start: int, h: seq<Cycle>)
    ensures forall j | 0 <= j <= |h| :: Term(c, start, h, j) <= Deadline(c, start, h)
    ensures exists j :: 0 <= j <= |h| && Term(c, start, h, j) == Deadline(c, start, h)
    decreases |h|
  {
    if h == [] {
      assert Term(c, start, h, 0) == start;
    } else {
      var before := h[..|h| - 1];
      DeadlineIsMaxPlus(c, start, before);
      forall j | 0 <= j < |h|
        ensures Term(c, start, h, j) == Term(c, start, before, j) + c
      {
        assert (|h| - j) * c == (|h| - 1 - j) * c + c;
      }
      assert Term(c, start, h, |h|) == h[|h| - 1].now;
      var j :| 0 <= j <= |before| && Term(c, start, before, j) == Deadline(c, start, before);
      assert Term(c, start, h, j) == Deadline(c, start, before) + c;
    }
  }

  /** No cycle of `h` from number `from` on misses its deadline. */
  predicate OnTime(c: int, start: int, h: seq<Cycle>, from: nat) {
    || |h| <= from
    || (OnTime(c, start, h[..|h| - 1], from) && h[|h| - 1].now <= Deadline(c, start, h[..|h| - 1]) + c)
  }

  lemma {:induction false} OnTimeMeansNoMiss(c: int, start: int, h: seq<Cycle>, from: nat)
    ensures OnTime(c, start, h, from) <==> forall k | from <= k < |h| :: !Missed(c, start, h, k)
    decreases |h|
  {
    if from < |h| {
      var before := h[..|h| - 1];
      OnTimeMeansNoMiss(c, start, before, from);
      forall k | from <= k < |before|
        ensures Missed(c, start, h, k) == Missed(c, start, before, k)
      {
        assert before[..k] == h[..k];
      }
      assert Missed(c, start, h, |h| - 1) <==> h[|h| - 1].now > Deadline(c, start, before) + c;
    }
  }

  lemma {:induction false} DeadlineDriftOnTime(c: int, start: int, h: seq<Cycle>, i: nat)
    requires i <= |h|
    ensures Deadline(c, start, h) >= Deadline(c, start, h[..i]) + (|h| - i) * c
    ensures Deadline(c, start, h) == Deadline(c, start, h[..i]) + (|h| - i) * c <==> OnTime(c, start, h, i)
    decreases |h|
  {
    if i == |h| {
      assert h[..i] == h;
    } else {
      var before := h[..|h| - 1];
      DeadlineDriftOnTime(c, start, before, i);
      assert before[..i] == h[..i];
      assert (|h| - i) * c == (|before| - i) * c + c;
    }
  }

  /** Deadlines are never closer than the cycle time allows, never lie before the reading just
      taken, and over any stretch advance by exactly the cycle time if and only if no cycle of
      that stretch misses its deadline. */
  lemma DeadlineDrift(c: int, start: int, h: seq<Cycle>, i: nat)
    requires i <= |h|
    ensures Deadline(c, start, h) >= Deadline(c, start, h[..i]) + (|h| - i) * c
    ensures Deadline(c, start, h) == Deadline(c, start, h[..i]) + (|h| - i) * c
       <==> forall k | i <= k < |h| :: !Missed(c, start, h, k)
    ensures h != [] ==> h[|h| - 1].now <= Deadline(c, start, h)
  {
    DeadlineDriftOnTime(c, start, h, i);
    OnTimeMeansNoMiss(c, start, h, i);
  }

  class SOEMMaster {
    var status: Status
    var statusQueue: seq<Status>    // holds at most one
    var cycleCounter: int           // atomic_int
    var running: bool
    var errors: seq<EcError>        // the bus library's error list

    ghost predicate Valid()
      reads this
    {
      |statusQueue| <= 1 && -TWO31 <= cycleCounter < TWO31
    }

    constructor ()
      ensures Valid() && !running && statusQueue == [] && cycleCounter == 0
      ensures status == Status(0, 0, 0, 0, 0, 0, 0, 0, UNINITIALIZED)
    {
      status := Status(0, 0, 0, 0, 0, 0, 0, 0, UNINITIALIZED);
      statusQueue, cycleCounter, running, errors := [], 0, false, [];
    }

    /** Push to the status queue; fails, leaving the older status in place, if it is full. */
    method PushStatus()
      requires Valid()
      modifies this`statusQueue
      ensures Valid()
      ensures statusQueue == if old(statusQueue) == [] then [status] else old(statusQueue)
    {
      if |statusQueue| < 1 {
        statusQueue := statusQueue + [status];
      }
    }

    /** Empty the error list, counting its entries. */
    method DrainErrors() returns (count: nat)
      modifies this`errors
      ensures count == |old(errors)| && errors == []
    {
      count := 0;
      while errors != []
        invariant count + |errors| == |old(errors)|
        decreases |errors|
      {
        errors := errors[1..];
        count := count + 1;
      }
    }

    /** What the mailbox handling of a cycle does to the error list. */
    method ServeMailboxes(reports: seq<Report>)
      modifies this`errors
      ensures errors == ErrorList(Pending(old(errors)) + reports)
    {
      ghost var found := Pending(errors);
      PendingList(errors);
      assert found + reports[..0] == found;
      for i := 0 to |reports|
        invariant errors == ErrorList(found + reports[..i])
      {
        assert found + reports[..i + 1] == found + reports[..i] + [reports[i]];
        ErrorListGrows(found + reports[..i], reports[i]);
        match reports[i] {
          case Reported(e) => errors := errors + [e];
          case RawRead(position) =>
            if errors != [] {
              var e := errors[0];
              errors := errors[1..];
              if !(e.slave == position && (e.etype == MbxError || e.etype == Emergency)) {
                errors := errors + [e];
              }
            }
        }
      }
      assert reports[..|reports|] == reports;
    }

    /** The process-data and bus-error part of one cycle; says whether anything failed. */
    method Account(x: Cycle) returns (failed: bool)
      requires Valid()
      modifies this`status, this`errors
      ensures (failed <==> Faulty(Begin(old(errors), x))) && errors == []
      ensures status == NextStatus(old(status), Begin(old(errors), x), false, old(status.cycleCount)).(state := old(status.state))
    {
      failed := false;
      if x.sendWkc <= 0 {
        status := status.(txConsecutive := status.txConsecutive + 1, txErrorCount := status.txErrorCount + 1,
                          errorCount := status.errorCount + 1);
        failed := true;
      } else {
        status := status.(txConsecutive := 0);
      }
      if x.receiveWkc <= 0 {
        status := status.(rxConsecutive := status.rxConsecutive + 1, rxErrorCount := status.rxErrorCount + 1,
                          errorCount := status.errorCount + 1);
        failed := true;
      } else {
        status := status.(rxConsecutive := 0);
      }
      ServeMailboxes(x.reports);
      if errors != [] {
        var count := DrainErrors();
        status := status.(otherConsecutive := status.otherConsecutive + count,
                          errorCount := status.errorCount + count);
        failed := true;
      } else {
        status := status.(otherConsecutive := 0);
      }
    }

    /** One turn of the loop: its accounting, its deadline and its push. `y` is the cycle together
        with the errors found in the list. */
    method RunCycle(c: int, x: Cycle, deadline: int, ghost y: Cycle) returns (next: int)
      requires Valid() && y == Begin(errors, x)
      modifies this`status, this`errors, this`cycleCounter, this`statusQueue
      ensures Valid() && errors == []
      ensures cycleCounter == if old(cycleCounter) + 1 == TWO31 then -TWO31 else old(cycleCounter) + 1
      ensures status == NextStatus(old(status), y, y.now > deadline + c, SizeT(cycleCounter))
      ensures next == if y.now > deadline + c then y.now else deadline + c
      ensures statusQueue == if y.popped || old(statusQueue) == [] then [status] else old(statusQueue)
    {
      cycleCounter := if cycleCounter + 1 == TWO31 then -TWO31 else cycleCounter + 1;
      status := status.(cycleCount := SizeT(cycleCounter));
      var failed := Account(x);
      status := status.(state := if failed then ERROR else RUNNING);
      next := deadline + c;
      if x.now > next {
        status := status.(missedDeadlines := status.missedDeadlines + 1);
        next := x.now;
      }
      if x.popped {
        statusQueue := [];
      }
      PushStatus();
    }

    /** The whole realtime task, from its start to its end after `cycles`; `pushed` and
        `deadlines` are what it offers to the status queue and sleeps until, cycle by cycle.
        `poppedAtEnd` is what the reader does before the last push. Errors of the bring-up still in
        the list count in the first cycle. */
    method CyclicTask(c: int, start: int, cycles: seq<Cycle>, poppedAtEnd: bool)
      returns (pushed: seq<Status>, deadlines: seq<int>)
      requires Valid() && cycleCounter == 0
      modifies this
      ensures Valid() && !running
      ensures pushed == Statuses(old(status), c, start, History(old(errors), cycles))
      ensures deadlines == Deadlines(c, start, History(old(errors), cycles))
      ensures status == StatusAfter(old(status), c, start, History(old(errors), cycles)).(state := IDLE)
      ensures var q := QueueAfter(old(statusQueue), old(status), c, start, History(old(errors), cycles));
              statusQueue == if poppedAtEnd || q == [] then [status] else q
    {
      running := true;
      ghost var s0, q0, h := status, statusQueue, History(errors, cycles);
      status := status.(state := RUNNING, rxConsecutive := 0, txConsecutive := 0, otherConsecutive := 0);
      pushed, deadlines := RunCycles(c, start, cycles, s0);
      running := false;
      status := status.(state := IDLE);
      if poppedAtEnd {
        statusQueue := [];
      }
      PushStatus();
    }

    /** The loop of the task. */
    method RunCycles(c: int, start: int, cycles: seq<Cycle>, ghost s0: Status)
      returns (pushed: seq<Status>, deadlines: seq<int>)
      requires Valid() && cycleCounter == 0 && status == StatusAfter(s0, c, start, [])
      modifies this`status, this`errors, this`cycleCounter, this`statusQueue
      ensures Valid()
      ensures var h := History(old(errors), cycles);
              && pushed == Statuses(s0, c, start, h)
              && deadlines == Deadlines(c, start, h)
              && status == StatusAfter(s0, c, start, h)
              && statusQueue == QueueAfter(old(statusQueue), s0, c, start, h)
    {
      var deadline := start;
      ghost var q0, h := statusQueue, History(errors, cycles);
      pushed, deadlines := [], [];
      var k := 0;
      assert h[..k] == [];
      while k < |cycles|
        invariant 0 <= k <= |cycles| && Valid() && cycleCounter == Int32(k)
        invariant errors == if k == 0 then old(errors) else []
        invariant status == StatusAfter(s0, c, start, h[..k])
        invariant pushed == Statuses(s0, c, start, h[..k])
        invariant deadline == Deadline(c, start, h[..k])
        invariant deadlines == Deadlines(c, start, h[..k])
        invariant statusQueue == QueueAfter(q0, s0, c, start, h[..k])
      {
        HistoryAt(old(errors), cycles, k);
        deadline := RunCycle(c, cycles[k], deadline, h[k]);
        CounterSteps(k);
        HistoryGrows(q0, s0, c, start, h, k);
        pushed, deadlines := pushed + [status], deadlines + [deadline];
        k := k + 1;
      }
      assert h[..k] == h;
    }
  }
}
