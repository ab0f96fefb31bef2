/** When the realtime thread (soem_master.cpp, `cyclic_task`) says it is running, and that it ends
    once it is stopped. */
module Ending {
  import opened Mailbox
  import opened ProcessData
  import opened Bus
  import opened Progress
  import opened Order
  import MailProgress

  lemma RunningStep(s: State, a: Action)
    requires s.running <==> s.rt != Start && s.rt != Done
    ensures Apply(s, a).running <==> Apply(s, a).rt != Start && Apply(s, a).rt != Done
  {
  }

  /** In every run the master says it is running exactly from the start of the realtime thread to
      its end. */
  lemma {:induction false} RunningIff(s: State, schedule: seq<Action>, x: nat)
    requires Init(s) && x <= |schedule|
    ensures var e := StateAt(s, schedule, x); e.running <==> e.rt != Start && e.rt != Done
    decreases x
  {
    if x == 0 {
      assert schedule[..0] == [];
    } else {
      RunningIff(s, schedule, x - 1);
      StatesFollow(s, schedule, x - 1);
      RunningStep(StateAt(s, schedule, x - 1), schedule[x - 1]);
    }
  }

  /** An upper bound on the realtime steps to the end of the thread, once stopped. */
  function EndRank(s: State): nat
    requires s.rt.Mail? ==> s.rt.k < |s.boxes|
  {
    match s.rt
    case Done => 0
    case Exit => 1
    case Top => 2
    case Start => 3
    case _ => 2 + CycleLeft(s)
  }

  lemma EndGetsCloser(s: State, io: BusIo)
    requires Countable(s) && s.terminate && s.rt != Done
    ensures var s' := RtApply(s, io); Countable(s') && s'.terminate && EndRank(s') < EndRank(s)
  {
    CycleGetsCloser(s, io);
    TailGetsCloser(s, io);
  }

  lemma OthersKeepRank(s: State, a: Action)
    requires Countable(s) && s.terminate && !a.Realtime?
    ensures Countable(Apply(s, a)) && Apply(s, a).terminate && EndRank(Apply(s, a)) == EndRank(s)
    ensures Apply(s, a).rt == s.rt
  {
    if a.Control? {
      MailProgress.CtKeepsBoxes(s, a.choice);
      MailProgress.CtKeepsImages(s, a.choice);
      MailProgress.SameSizesSameCycle(s, Apply(s, a));
    }
  }

  /** The thread has been stopped, and what the countdown needs. */
  predicate Stopped(s: State) {
    Countable(s) && s.terminate
  }

  lemma StoppedStep(s: State, a: Action)
    requires Stopped(s) && s.rt != Done
    ensures Stopped(Apply(s, a))
    ensures EndRank(Apply(s, a)) + (if a.Realtime? then 1 else 0) <= EndRank(s)
  {
    if a.Realtime? {
      EndGetsCloser(s, a.io);
    } else {
      OthersKeepRank(s, a);
    }
  }

  lemma {:induction false} StoppedCountsDown(s: State, schedule: seq<Action>, a: nat) returns (n: nat)
    requires a <= |schedule| && Stopped(StateAt(s, schedule, a))
    requires EndRank(StateAt(s, schedule, a)) <= RealtimeSteps(schedule[a..])
    ensures a <= n <= |schedule| && StateAt(s, schedule, n).rt == Done
    decreases |schedule| - a
  {
    if StateAt(s, schedule, a).rt == Done {
      n := a;
    } else {
      RankPositive(StateAt(s, schedule, a));
      StatesFollow(s, schedule, a);
      StoppedStep(StateAt(s, schedule, a), schedule[a]);
      assert schedule[a..][1..] == schedule[a + 1..];
      n := StoppedCountsDown(s, schedule, a + 1);
    }
  }

  lemma RankPositive(s: State)
    requires Countable(s) && s.rt != Done
    ensures EndRank(s) > 0
  {
  }

  /** In every run, once another thread stops the master (step `a`), the realtime thread ends within a
      bounded number of its own steps, and the master no longer says it is running. */
  lemma StopEndsTask(s: State, schedule: seq<Action>, a: nat) returns (n: nat)
    requires Init(s) && a < |schedule| && schedule[a].Stop?
    requires var e := StateAt(s, schedule, a + 1);
             (e.rt.Mail? ==> e.rt.k < |e.boxes|) && EndRank(e) <= RealtimeSteps(schedule[a + 1..])
    ensures a < n <= |schedule| && StateAt(s, schedule, n).rt == Done && !StateAt(s, schedule, n).running
  {
    StatesFollow(s, schedule, a);
    StatesKeepInv(s, schedule, a + 1);
    InvCountable(StateAt(s, schedule, a + 1));
    n := StoppedCountsDown(s, schedule, a + 1);
    RunningIff(s, schedule, n);
  }
}
