/** The way of the TMCM1610 into motion, told in the fields of the events alone (tmcm1610.cpp). */
module Homing {
  import opened Tmcm1610

  /// The two questions

  /** The replies among `events`, in order. */
  function Answers(events: seq<Event>): seq<Reply> {
    if events == [] then []
    else
      var e := events[|events| - 1];
      Answers(events[..|events| - 1]) + if e.Message? then [e.m] else []
  }

  predicate FirmwareAnswer(m: Reply) {
    m.status == 100 && m.moduleAddress == 0 && m.command == 136
  }

  predicate TicksAnswer(m: Reply) {
    m.status == 100 && m.moduleAddress == 0 && m.command == 6
  }

  /** The first reply must answer the first question, the second reply the second; all others are
      ignored. */
  predicate AnsweredRight(answers: seq<Reply>) {
    (|answers| >= 1 ==> FirmwareAnswer(answers[0])) && (|answers| >= 2 ==> TicksAnswer(answers[1]))
  }

  /** How many questions `k` shown conditions have used up. */
  predicate InStep(cfg: Config, k: nat, answers: seq<Reply>) {
    if k < 2 then |answers| == k else |answers| >= 2
  }

  lemma {:induction false} DerailedIff(cfg: Config, events: seq<Event>)
    ensures Derailed(cfg, events) <==> !AnsweredRight(Answers(events))
    ensures !Derailed(cfg, events) ==> InStep(cfg, Shown(cfg, events), Answers(events))
    decreases |events|
  {
    if events != [] {
      var last := |events| - 1;
      DerailedIff(cfg, events[..last]);
      DerailedGrows(cfg, events);
    }
  }

  /// The chain

  /** What an event must carry to be condition number `k` of the chain. */
  predicate Evidence(e: Event, cfg: Config, k: nat) {
    match k
    case 0 => e.Message? && FirmwareAnswer(e.m)
    case 1 => e.Message? && TicksAnswer(e.m)
    case 2 => e.Read? && e.t.flags & 0x10000 == 0
    case 3 => e.Read? && e.t.flags & 0x8000 != 0
    case 4 => e.Read? && -cfg.haltEps < e.t.velocity < cfg.haltEps
    case 5 =>
      && e.Read?
      && (cfg.homingCurrentLimit > 0.0 ==> e.t.current as real >= 1000.0 * cfg.homingCurrentLimit)
      && (cfg.homingCurrentLimit < 0.0 ==> e.t.current as real <= 1000.0 * cfg.homingCurrentLimit)
    case 6 => e.Read? && -cfg.haltEps < e.t.velocity < cfg.haltEps
    case 7 => e.Read? && -cfg.zeroEps < e.t.position < cfg.zeroEps
    case 8 => e.Read? && e.t.flags & 0x4000 != 0
    case 9 => e.Read? && -cfg.haltEps < e.t.velocity < cfg.haltEps
    case _ => e.Read? && -cfg.zeroEps < e.t.position < cfg.zeroEps
  }

  lemma CurrentIsOriented(limit: real, current: int)
    requires limit != 0.0
    ensures OrientedGte(limit * 1000.0, current)
       <==> (limit > 0.0 ==> current as real >= 1000.0 * limit) && (limit < 0.0 ==> current as real <= 1000.0 * limit)
  {
  }

  lemma ShowsIsEvidence(e: Event, cfg: Config, k: nat)
    requires k < Length(cfg)
    ensures Shows(e, cfg, Awaited(k)) <==> Evidence(e, cfg, k)
  {
    if k == 5 && e.Read? {
      CurrentIsOriented(cfg.homingCurrentLimit, e.t.current);
    }
  }

  /** Events number `at[0] < at[1] < ...` carry the evidence for the whole chain: eleven conditions
      with homing configured, four without. */
  predicate Complete(cfg: Config, events: seq<Event>, at: seq<nat>) {
    && |at| == (if cfg.homingCurrentLimit != 0.0 && cfg.homingVelocity != 0 then 11 else 4)
    && (forall j | 0 <= j < |at| :: at[j] < |events| && Evidence(events[at[j]], cfg, j))
    && (forall j | 0 < j < |at| :: at[j - 1] < at[j])
  }

  lemma CompleteIsWitnessed(cfg: Config, events: seq<Event>, at: seq<nat>)
    ensures Complete(cfg, events, at) <==> |at| == Length(cfg) && Witnesses(cfg, events, at)
  {
    if |at| == Length(cfg) {
      forall j | 0 <= j < |at| && at[j] < |events|
        ensures Shows(events[at[j]], cfg, Awaited(j)) <==> Evidence(events[at[j]], cfg, j)
      {
        ShowsIsEvidence(events[at[j]], cfg, j);
      }
    }
  }

  /** In every run motion is enabled if and only if both questions were answered right and events in
      order carry the evidence for the whole chain. */
  lemma MotionIffEvidence(cfg: Config, events: seq<Event>)
    ensures InMotion(Run(cfg, events).fsm.leaf)
       <==> AnsweredRight(Answers(events)) && exists at :: Complete(cfg, events, at)
  {
    MotionIff(cfg, events);
    DerailedIff(cfg, events);
    forall at
      ensures Complete(cfg, events, at) <==> |at| == Length(cfg) && Witnesses(cfg, events, at)
    {
      CompleteIsWitnessed(cfg, events, at);
    }
  }

  /// Numbers in replies

  predicate Bytes(m: Reply) {
    m.value.0 < 0x100 && m.value.1 < 0x100 && m.value.2 < 0x100 && m.value.3 < 0x100
  }

  lemma NumberBytes(hi: nat, b: nat)
    requires b < 0x100
    ensures (hi * 0x100 + b) / 0x100 == hi && (hi * 0x100 + b) % 0x100 == b
  {
  }

  /** The encoder resolution is read most significant byte first, the module type likewise from the
      first two bytes. */
  lemma RepliesAreBigEndian(m: Reply)
    requires Bytes(m)
    ensures Number(m) % 0x100 == m.value.3
    ensures Number(m) / 0x100 % 0x100 == m.value.2
    ensures Number(m) / 0x100 / 0x100 % 0x100 == m.value.1
    ensures Number(m) / 0x100 / 0x100 / 0x100 == m.value.0
    ensures ModuleType(m) / 0x100 == m.value.0 && ModuleType(m) % 0x100 == m.value.1
  {
    var (b0, b1, b2, b3) := m.value;
    NumberBytes(b0, b1);
    NumberBytes(b0 * 0x100 + b1, b2);
    NumberBytes((b0 * 0x100 + b1) * 0x100 + b2, b3);
  }
}
