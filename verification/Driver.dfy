/** The hardware interface (soem_driver.cpp) around the claims resolver: it exports joint command
    interfaces, some behind transmissions, and translates mode switches back to them. */
module Driver {
  import opened Options
  import opened ModeSwitch
  import opened Claims
  import opened Routing
  import opened Resolver

  /// What the controllers see

  /** The value an exported interface points at: a slave's own, or one kept for a transmission. */
  datatype Place = Cell(cell: nat) | Slot(slot: nat)

  datatype Handle = Handle(prefix: string, name: string, place: Place)

  type ByJoint = map<string, seq<Alias>>

  /** The joint name a transmission (or its absence) shows for a joint. */
  function Outer(transmissions: map<string, string>, joint: string): string {
    if joint in transmissions then transmissions[joint] else joint
  }

  function HandleOf(transmissions: map<string, string>, joint: string, a: Alias, slot: nat): Handle {
    Handle(Outer(transmissions, joint), a.source.name,
           if joint in transmissions then Slot(slot) else Cell(a.source.cell))
  }

  function HandlesOf(transmissions: map<string, string>, joint: string, aliases: seq<Alias>, first: nat): seq<Handle> {
    if aliases == [] then []
    else
      var n := |aliases| - 1;
      HandlesOf(transmissions, joint, aliases[..n], first) + [HandleOf(transmissions, joint, aliases[n], first + n)]
  }

  /** The number of transmission values the joints in `order` need. */
  function SlotCount(order: seq<string>, exports: ByJoint, transmissions: map<string, string>): nat
    requires forall j | j in order :: j in exports
  {
    if order == [] then 0
    else
      var j := order[|order| - 1];
      SlotCount(order[..|order| - 1], exports, transmissions) + if j in transmissions then |exports[j]| else 0
  }

  function Handles(order: seq<string>, exports: ByJoint, transmissions: map<string, string>): seq<Handle>
    requires forall j | j in order :: j in exports
  {
    if order == [] then []
    else
      var init, j := order[..|order| - 1], order[|order| - 1];
      Handles(init, exports, transmissions)
      + HandlesOf(transmissions, j, exports[j], SlotCount(init, exports, transmissions))
  }

  /** The transmission map of one joint: name shown to the controllers, to name known inside. */
  function InnerNames(joint: string, outer: string, aliases: seq<Alias>): map<string, string> {
    if aliases == [] then map[]
    else
      var n := |aliases| - 1;
      InnerNames(joint, outer, aliases[..n])[Key(outer, aliases[n].source.name) := Key(joint, aliases[n].source.name)]
  }

  /** `transmission_command_interface_map` after exporting the joints in `order`: a later entry
      replaces an earlier one. */
  function AllInnerNames(order: seq<string>, exports: ByJoint, transmissions: map<string, string>): map<string, string>
    requires forall j | j in order :: j in exports
  {
    if order == [] then map[]
    else
      var init, j := order[..|order| - 1], order[|order| - 1];
      var before := AllInnerNames(init, exports, transmissions);
      if j in transmissions then before + InnerNames(j, transmissions[j], exports[j]) else before
  }

  /// Transmission values are allocated exactly

  function SlotsIn(handles: seq<Handle>): seq<nat> {
    if handles == [] then []
    else
      SlotsIn(handles[..|handles| - 1])
      + match handles[|handles| - 1].place
        case Slot(k) => [k]
        case Cell(_) => []
  }

  function UpTo(first: nat, n: nat): (r: seq<nat>)
    ensures |r| == n
  {
    seq(n, i requires 0 <= i < n => first + i)
  }

  lemma UpToFrom(m: nat, n: nat)
    ensures UpTo(0, m) + UpTo(m, n) == UpTo(0, m + n)
    ensures UpTo(m, 0) == []
  {
  }

  lemma {:induction false} SlotsOfAppended(a: seq<Handle>, b: seq<Handle>)
    ensures SlotsIn(a + b) == SlotsIn(a) + SlotsIn(b)
    decreases |b|
  {
    if b == [] {
      assert a + b == a;
    } else {
      assert (a + b)[..|a + b| - 1] == a + b[..|b| - 1];
      SlotsOfAppended(a, b[..|b| - 1]);
    }
  }

  lemma {:induction false} SlotsOfJoint(transmissions: map<string, string>, joint: string, aliases: seq<Alias>, first: nat)
    ensures SlotsIn(HandlesOf(transmissions, joint, aliases, first))
         == if joint in transmissions then UpTo(first, |aliases|) else []
    decreases |aliases|
  {
    if aliases != [] {
      var n := |aliases| - 1;
      SlotsOfJoint(transmissions, joint, aliases[..n], first);
      var init, last := HandlesOf(transmissions, joint, aliases[..n], first),
                        HandleOf(transmissions, joint, aliases[n], first + n);
      assert (init + [last])[..|init|] == init;
    }
  }

  /** Every transmission value is used by exactly one exported interface, in order, and no
      interface points beyond the values allocated. */
  lemma {:induction false} SlotsAreUsedOnce(order: seq<string>, exports: ByJoint, transmissions: map<string, string>)
    requires forall j | j in order :: j in exports
    ensures SlotsIn(Handles(order, exports, transmissions)) == UpTo(0, SlotCount(order, exports, transmissions))
    decreases |order|
  {
    if order != [] {
      var init, j := order[..|order| - 1], order[|order| - 1];
      var first := SlotCount(init, exports, transmissions);
      SlotsAreUsedOnce(init, exports, transmissions);
      SlotsOfJoint(transmissions, j, exports[j], first);
      SlotsOfAppended(Handles(init, exports, transmissions), HandlesOf(transmissions, j, exports[j], first));
      UpToFrom(first, if j in transmissions then |exports[j]| else 0);
    }
  }

  /// Requests find their way back

  /** An interface exported for a joint. */
  type Pick = (string, Alias)

  ghost predicate In(p: Pick, exports: ByJoint) {
    p.0 in exports && p.1 in exports[p.0]
  }

  /** The name the controllers see. */
  function ShownName(transmissions: map<string, string>, p: Pick): string {
    Key(Outer(transmissions, p.0), p.1.source.name)
  }

  /** The name known inside. */
  function OwnName(p: Pick): string {
    Key(p.0, p.1.source.name)
  }

  function Translate(inner: map<string, string>, request: string): string {
    if request in inner then inner[request] else request
  }

  lemma {:induction false} InnerNamesOfJoint(joint: string, outer: string, aliases: seq<Alias>)
    ensures forall a | a in aliases :: Key(outer, a.source.name) in InnerNames(joint, outer, aliases)
    decreases |aliases|
  {
    if aliases != [] {
      var n := |aliases| - 1;
      InnerNamesOfJoint(joint, outer, aliases[..n]);
      assert aliases == aliases[..n] + [aliases[n]];
    }
  }

  lemma {:induction false} InnerNamesAreOwn(joint: string, outer: string, aliases: seq<Alias>, k: string)
    requires k in InnerNames(joint, outer, aliases)
    ensures exists a | a in aliases ::
              k == Key(outer, a.source.name) && InnerNames(joint, outer, aliases)[k] == Key(joint, a.source.name)
    decreases |aliases|
  {
    var n := |aliases| - 1;
    if k == Key(outer, aliases[n].source.name) {
      assert aliases[n] in aliases;
    } else {
      InnerNamesAreOwn(joint, outer, aliases[..n], k);
    }
  }

  /** The transmission map has an entry for every interface shown behind a transmission. */
  lemma {:induction false} InnerNamesAreComplete(order: seq<string>, exports: ByJoint, transmissions: map<string, string>, p: Pick)
    requires (forall i | i in order :: i in exports)
    requires p.0 in order && p.0 in transmissions && In(p, exports)
    ensures ShownName(transmissions, p) in AllInnerNames(order, exports, transmissions)
    decreases |order|
  {
    var init, last := order[..|order| - 1], order[|order| - 1];
    if p.0 == last {
      InnerNamesOfJoint(last, transmissions[last], exports[last]);
    } else {
      InnerNamesAreComplete(init, exports, transmissions, p);
    }
  }

  /** Each entry leads from the name shown for some interface to that interface's own name. */
  lemma {:induction false} InnerNamesLeadBack(order: seq<string>, exports: ByJoint, transmissions: map<string, string>, k: string)
      returns (p: Pick)
    requires forall j | j in order :: j in exports
    requires k in AllInnerNames(order, exports, transmissions)
    ensures p.0 in order && p.0 in transmissions && In(p, exports)
    ensures k == ShownName(transmissions, p) && AllInnerNames(order, exports, transmissions)[k] == OwnName(p)
    decreases |order|
  {
    var init, last := order[..|order| - 1], order[|order| - 1];
    if last in transmissions && k in InnerNames(last, transmissions[last], exports[last]) {
      InnerNamesAreOwn(last, transmissions[last], exports[last], k);
      var a :| a in exports[last] && k == Key(transmissions[last], a.source.name)
               && InnerNames(last, transmissions[last], exports[last])[k] == Key(last, a.source.name);
      p := (last, a);
    } else {
      p := InnerNamesLeadBack(init, exports, transmissions, k);
    }
  }

  /** A shown name translates to the own name of an interface shown under it. */
  lemma TranslationOf(order: seq<string>, exports: ByJoint, transmissions: map<string, string>, p: Pick) returns (q: Pick)
    requires (forall j | j in order :: j in exports) && p.0 in order && In(p, exports)
    ensures q.0 in order && In(q, exports) && ShownName(transmissions, q) == ShownName(transmissions, p)
    ensures Translate(AllInnerNames(order, exports, transmissions), ShownName(transmissions, p)) == OwnName(q)
  {
    if ShownName(transmissions, p) in AllInnerNames(order, exports, transmissions) {
      q := InnerNamesLeadBack(order, exports, transmissions, ShownName(transmissions, p));
    } else {
      if p.0 in transmissions {
        InnerNamesAreComplete(order, exports, transmissions, p);
      }
      q := p;
    }
  }

  /** Interfaces shown under one name have one own name. */
  ghost predicate ShownApart(exports: ByJoint, transmissions: map<string, string>) {
    forall p, q | In(p, exports) && In(q, exports) ::
      ShownName(transmissions, p) == ShownName(transmissions, q) ==> OwnName(p) == OwnName(q)
  }

  /** Every request by a shown name is translated back to the interface's own name. */
  ghost predicate TranslatesBack(inner: map<string, string>, exports: ByJoint, transmissions: map<string, string>) {
    forall p | In(p, exports) :: Translate(inner, ShownName(transmissions, p)) == OwnName(p)
  }

  /** Translation undoes the export if and only if interfaces shown under one name have one own
      name. */
  lemma TranslationUndoesExportIff(order: seq<string>, exports: ByJoint, transmissions: map<string, string>)
    requires forall j :: j in order <==> j in exports
    ensures TranslatesBack(AllInnerNames(order, exports, transmissions), exports, transmissions)
       <==> ShownApart(exports, transmissions)
  {
    var inner := AllInnerNames(order, exports, transmissions);
    if ShownApart(exports, transmissions) {
      forall p | In(p, exports)
        ensures Translate(inner, ShownName(transmissions, p)) == OwnName(p)
      {
        var q := TranslationOf(order, exports, transmissions, p);
      }
    }
  }

  /** No slash in any interface name, or none in any joint name, own or shown. */
  ghost predicate SlashFreeExports(exports: ByJoint, transmissions: map<string, string>) {
    || (forall p | In(p, exports) :: SlashFree(p.1.source.name))
    || (forall p | In(p, exports) :: SlashFree(p.0) && SlashFree(Outer(transmissions, p.0)))
  }

  /** Joints shown under one name export different interface names. */
  ghost predicate NamesDisjoint(exports: ByJoint, transmissions: map<string, string>) {
    forall p, q | In(p, exports) && In(q, exports) ::
      p.0 != q.0 && Outer(transmissions, p.0) == Outer(transmissions, q.0) ==> p.1.source.name != q.1.source.name
  }

  lemma SlashFreeNamesDiffer(exports: ByJoint, transmissions: map<string, string>, p: Pick, q: Pick)
    requires SlashFreeExports(exports, transmissions) && In(p, exports) && In(q, exports)
    ensures OwnName(p) == OwnName(q) <==> p.0 == q.0 && p.1.source.name == q.1.source.name
    ensures ShownName(transmissions, p) == ShownName(transmissions, q)
       <==> Outer(transmissions, p.0) == Outer(transmissions, q.0) && p.1.source.name == q.1.source.name
  {
    KeysCollideIff(p.0, p.1.source.name, q.0, q.1.source.name);
    OverlapNeedsSlashes(p.0, p.1.source.name, q.0, q.1.source.name);
    KeysCollideIff(Outer(transmissions, p.0), p.1.source.name, Outer(transmissions, q.0), q.1.source.name);
    OverlapNeedsSlashes(Outer(transmissions, p.0), p.1.source.name, Outer(transmissions, q.0), q.1.source.name);
  }

  /** Unless slashes make names overlap, that condition says: any two different joints shown under
      the same name export disjoint interface names. */
  lemma ShownApartIff(exports: ByJoint, transmissions: map<string, string>)
    requires SlashFreeExports(exports, transmissions)
    ensures ShownApart(exports, transmissions) <==> NamesDisjoint(exports, transmissions)
  {
    forall p, q | In(p, exports) && In(q, exports)
      ensures (ShownName(transmissions, p) == ShownName(transmissions, q) ==> OwnName(p) == OwnName(q))
         <==> (p.0 != q.0 && Outer(transmissions, p.0) == Outer(transmissions, q.0)
               ==> p.1.source.name != q.1.source.name)
    {
      SlashFreeNamesDiffer(exports, transmissions, p, q);
    }
  }

  /// What is exported

  /** The interfaces of the joints in `order`, joint by joint. */
  function Picks(order: seq<string>, exports: ByJoint): seq<Pick>
    requires forall j | j in order :: j in exports
  {
    if order == [] then []
    else
      var j := order[|order| - 1];
      Picks(order[..|order| - 1], exports)
      + seq(|exports[j]|, i requires 0 <= i < |exports[j]| => (j, exports[j][i]))
  }

  /** A handle is the pick's: shown under the name of the joint, or of its transmission, and the name
      of the interface; pointing at the slave's own value unless there is a transmission. */
  predicate Stands(h: Handle, p: Pick, transmissions: map<string, string>) {
    && h.prefix == (if p.0 in transmissions then transmissions[p.0] else p.0)
    && h.name == p.1.source.name
    && (if p.0 in transmissions then h.place.Slot? else h.place == Cell(p.1.source.cell))
  }

  /** Handles and exported interfaces correspond one to one: each handle stands for the pick at its
      place, and the picks are the exported interfaces, each once. */
  ghost predicate Correspond(handles: seq<Handle>, picks: seq<Pick>, exports: ByJoint, transmissions: map<string, string>) {
    && AllStand(handles, picks, transmissions)
    && (forall i, j | 0 <= i < j < |picks| :: picks[i] != picks[j])
    && (forall p :: p in picks <==> In(p, exports))
  }

  lemma {:induction false} HandlesOfJoint(transmissions: map<string, string>, joint: string, aliases: seq<Alias>, first: nat)
    ensures |HandlesOf(transmissions, joint, aliases, first)| == |aliases|
    ensures forall i | 0 <= i < |aliases| ::
              Stands(HandlesOf(transmissions, joint, aliases, first)[i], (joint, aliases[i]), transmissions)
    decreases |aliases|
  {
    if aliases != [] {
      HandlesOfJoint(transmissions, joint, aliases[..|aliases| - 1], first);
    }
  }

  ghost predicate AllStand(handles: seq<Handle>, picks: seq<Pick>, transmissions: map<string, string>) {
    |handles| == |picks| && forall i | 0 <= i < |picks| :: Stands(handles[i], picks[i], transmissions)
  }

  lemma MoreStand(a: seq<Handle>, b: seq<Handle>, p: seq<Pick>, q: seq<Pick>, transmissions: map<string, string>)
    requires AllStand(a, p, transmissions) && AllStand(b, q, transmissions)
    ensures AllStand(a + b, p + q, transmissions)
  {
  }

  lemma {:induction false} HandlesStand(order: seq<string>, exports: ByJoint, transmissions: map<string, string>)
    requires forall j | j in order :: j in exports
    ensures AllStand(Handles(order, exports, transmissions), Picks(order, exports), transmissions)
    decreases |order|
  {
    if order != [] {
      var init, j := order[..|order| - 1], order[|order| - 1];
      var first := SlotCount(init, exports, transmissions);
      HandlesStand(init, exports, transmissions);
      HandlesOfJoint(transmissions, j, exports[j], first);
      MoreStand(Handles(init, exports, transmissions), HandlesOf(transmissions, j, exports[j], first),
                Picks(init, exports), seq(|exports[j]|, i requires 0 <= i < |exports[j]| => (j, exports[j][i])),
                transmissions);
    }
  }

  lemma {:induction false} PicksAreExports(order: seq<string>, exports: ByJoint)
    requires forall j | j in order :: j in exports
    ensures forall p :: p in Picks(order, exports) <==> p.0 in order && In(p, exports)
    decreases |order|
  {
    if order != [] {
      var init, j := order[..|order| - 1], order[|order| - 1];
      PicksAreExports(init, exports);
      var own := seq(|exports[j]|, i requires 0 <= i < |exports[j]| => (j, exports[j][i]));
      assert Picks(order, exports) == Picks(init, exports) + own;
      assert order == init + [j];
      forall p
        ensures p in own <==> p.0 == j && p.1 in exports[j]
      {
        if p.0 == j && p.1 in exports[j] {
          var i :| 0 <= i < |exports[j]| && exports[j][i] == p.1;
          assert own[i] == p;
        }
      }
    }
  }

  lemma {:induction false} PicksDiffer(order: seq<string>, exports: ByJoint)
    requires Distinct(order)
    requires forall j | j in order :: j in exports && DistinctNames(exports[j])
    ensures forall a, b | 0 <= a < b < |Picks(order, exports)| :: Picks(order, exports)[a] != Picks(order, exports)[b]
    decreases |order|
  {
    if order != [] {
      var init, j := order[..|order| - 1], order[|order| - 1];
      PicksDiffer(init, exports);
      PicksAreExports(init, exports);
      var before := Picks(init, exports);
      assert order == init + [j] && j !in init;
      forall a, b | 0 <= a < b < |Picks(order, exports)|
        ensures Picks(order, exports)[a] != Picks(order, exports)[b]
      {
        if b >= |before| && a < |before| {
          assert before[a] in before;
        }
      }
    }
  }

  /** The handles exported are those of the exported interfaces, each once: nothing is left out,
      and each points where it should. */
  lemma HandlesAreExports(order: seq<string>, exports: ByJoint, transmissions: map<string, string>)
    requires Visits(order, exports.Keys, {}) && forall j | j in exports :: DistinctNames(exports[j])
    ensures Correspond(Handles(order, exports, transmissions), Picks(order, exports), exports, transmissions)
  {
    HandlesStand(order, exports, transmissions);
    PicksAreExports(order, exports);
    PicksDiffer(order, exports);
    assert forall p: Pick :: In(p, exports) ==> p.0 in order;
  }

  /// A translation that fails

  lemma SharedName(x: Alias, y: Alias, exports: ByJoint)
    requires x.source.name == "v" && y.source.name == "v" && exports == map["a" := [x], "b" := [y]]
    ensures Translate(AllInnerNames(["a", "b"], exports, map["a" := "b"]), Key("b", "v")) == Key("a", "v")
  {
    var transmissions := map["a" := "b"];
    assert ["a", "b"][..1] == ["a"] && ["a"][..0] == [] && [x][..0] == [];
    assert InnerNames("a", "b", []) == map[];
    assert InnerNames("a", "b", [x]) == map[Key("b", "v") := Key("a", "v")];
    assert AllInnerNames(["a"], exports, transmissions) == map[Key("b", "v") := Key("a", "v")];
  }

  /** A joint that takes all of a slave with one interface. */
  lemma TakesOnlyInterface(joint: string, slave: string, x: Interface, joints: Joints, table: Table)
    requires joint in joints && joints[joint] == [Claim(slave, "x", "", "")]
    requires slave in table && table[slave].command == [x] && x.prefix == "x"
    ensures CommandsOf(joint, joints, table) == [Alias(slave, x)]
  {
    ResolveOne([], Claim(slave, "x", "", ""), Command, table);
    ScanOne([], Claim(slave, "x", "", ""), x);
  }

  lemma WholeClaim(slave: string) returns (id: string)
    requires SlashFree(slave)
    ensures Tokenizable(id) && ClaimsOf([id]) == [Claim(slave, "x", "", "")]
  {
    id := slave + "/" + "x";
    TokenizeReads(slave, "x", "command", "");
  }

  /** Without that condition a request can reach another joint's slave: joint "a" is shown as "b"
      by its transmission, and joint "b" is shown under its own name. What a controller asks of "b",
      slave "t", is translated to "a", which is slave "s". */
  lemma SharedNameIsMisrouted() returns (table: Table, ids: map<string, seq<string>>, asked: Pick)
    ensures "a" in ids && "b" in ids && AllTokenizable(ids["a"]) && AllTokenizable(ids["b"])
    ensures var joints: Joints := map["a" := ClaimsOf(ids["a"]), "b" := ClaimsOf(ids["b"])];
            var exports := JointExports(joints, Command, table);
            var transmissions := map["a" := "b"];
            && In(asked, exports) && asked.0 == "b" && asked.1.slave == "t"
            && Translate(AllInnerNames(["a", "b"], exports, transmissions), ShownName(transmissions, asked))
               == Key("a", "v")
            && Lookup(ExportIndex(["a", "b"], joints, table), Key("a", "v")).0 == "s"
  {
    var x, y := Interface("x", "v", 0), Interface("x", "v", 1);
    table := map["s" := Exports([], [x]), "t" := Exports([], [y])];
    var s := WholeClaim("s");
    var t := WholeClaim("t");
    ids := map["a" := [s], "b" := [t]];
    asked := ("b", Alias("t", y));
    var joints: Joints := map["a" := ClaimsOf(ids["a"]), "b" := ClaimsOf(ids["b"])];
    var exports := JointExports(joints, Command, table);
    TakesOnlyInterface("a", "s", x, joints, table);
    TakesOnlyInterface("b", "t", y, joints, table);
    assert exports == map["a" := [Alias("s", x)], "b" := [Alias("t", y)]];
    SharedName(Alias("s", x), Alias("t", y), exports);
    FirstJointWins(["a", "b"], joints, table, Alias("s", x));
  }

  ghost predicate IsExported(p: Pick, joints: Joints, table: Table) {
    p.0 in joints && p.1 in CommandsOf(p.0, joints, table)
  }

  /** The names a controller uses for the interfaces it wants. */
  function Asked(picks: seq<Pick>, transmissions: map<string, string>): (r: seq<string>)
    ensures |r| == |picks|
  {
    seq(|picks|, i requires 0 <= i < |picks| => ShownName(transmissions, picks[i]))
  }

  /** Those of them that belong to one slave, as that slave knows them. */
  function OfSlave(picks: seq<Pick>, slave: string): seq<string> {
    if picks == [] then []
    else
      var a := picks[|picks| - 1].1;
      OfSlave(picks[..|picks| - 1], slave) + if a.slave == slave then [FullName(a.source)] else []
  }

  /** What the driver holds from exporting the command interfaces on: the index may have gained
      default entries. */
  ghost predicate Wired(inner: map<string, string>, index: Index, joints: Joints, table: Table, transmissions: map<string, string>) {
    && (exists order :: Visits(order, joints.Keys, {})
                        && inner == AllInnerNames(order, JointExports(joints, Command, table), transmissions))
    && (exists visited :: Visits(visited, joints.Keys, {}) && Extended(ExportIndex(visited, joints, table), index))
  }

  /** `index` answers every request as `exported` does. */
  ghost predicate Extended(exported: Index, index: Index) {
    forall r :: Lookup(index, r) == Lookup(exported, r)
  }

  /** The index after a sequence of prepared or performed switches, whatever they ask for. */
  function AfterSwitches(index: Index, switches: seq<(seq<string>, seq<string>)>): Index {
    if switches == [] then index
    else
      var (starts, stops) := switches[|switches| - 1];
      AfterPrepare(AfterSwitches(index, switches[..|switches| - 1]), starts, stops)
  }

  /** No sequence of switches, known or unknown names, disturbs what later switches reach. */
  lemma {:induction false} SwitchesKeepWiring(inner: map<string, string>, index: Index, joints: Joints, table: Table,
                                              transmissions: map<string, string>, switches: seq<(seq<string>, seq<string>)>)
    requires Wired(inner, index, joints, table, transmissions)
    ensures Wired(inner, AfterSwitches(index, switches), joints, table, transmissions)
    decreases |switches|
  {
    if switches != [] {
      var (starts, stops) := switches[|switches| - 1];
      var before := AfterSwitches(index, switches[..|switches| - 1]);
      SwitchesKeepWiring(inner, index, joints, table, transmissions, switches[..|switches| - 1]);
      var visited :| Visits(visited, joints.Keys, {}) && Extended(ExportIndex(visited, joints, table), before);
      forall r
        ensures Lookup(AfterPrepare(before, starts, stops), r) == Lookup(ExportIndex(visited, joints, table), r)
      {
        DefaultsDoNotMatter(before, starts, r);
        DefaultsDoNotMatter(WithDefaults(before, starts), stops, r);
        assert Lookup(before, r) == Lookup(ExportIndex(visited, joints, table), r);
      }
      assert Extended(ExportIndex(visited, joints, table), AfterPrepare(before, starts, stops));
    }
  }

  lemma WiredBy(inner: map<string, string>, index: Index, joints: Joints, table: Table, transmissions: map<string, string>,
                order: seq<string>, visited: seq<string>)
    requires Visits(order, joints.Keys, {}) && Visits(visited, joints.Keys, {})
    requires inner == AllInnerNames(order, JointExports(joints, Command, table), transmissions)
    requires index == ExportIndex(visited, joints, table)
    ensures Wired(inner, index, joints, table, transmissions)
  {
    assert Extended(ExportIndex(visited, joints, table), index);
  }

  ghost predicate JointsDoNotClash(joints: Joints, table: Table) {
    forall i, j | i in joints && j in joints :: NoClashOf(i, j, joints, table)
  }

  /** Interfaces shown under one name are the same interface of the same slave. */
  ghost predicate ShownAlike(joints: Joints, table: Table, transmissions: map<string, string>) {
    forall p, q | IsExported(p, joints, table) && IsExported(q, joints, table) ::
      ShownName(transmissions, p) == ShownName(transmissions, q) ==> Entry(p.1) == Entry(q.1)
  }

  /** A request by a shown name reaches, through both maps, the slave and interface exported. */
  ghost predicate Reaches(inner: map<string, string>, index: Index, transmissions: map<string, string>, p: Pick) {
    Lookup(index, Translate(inner, ShownName(transmissions, p))) == Entry(p.1)
  }

  lemma OwnNameReaches(index: Index, joints: Joints, table: Table, visited: seq<string>, q: Pick)
    requires JointsDoNotClash(joints, table) && Visits(visited, joints.Keys, {})
    requires Extended(ExportIndex(visited, joints, table), index) && IsExported(q, joints, table)
    ensures Lookup(index, OwnName(q)) == Entry(q.1)
  {
    assert forall i, j | i in visited && j in visited :: NoClashOf(i, j, joints, table);
    NoClashIndexes(visited, joints, table);
    assert q.0 in visited;
    assert Indexed(ExportIndex(visited, joints, table), q.0, joints, table);
    assert Lookup(index, OwnName(q)) == Lookup(ExportIndex(visited, joints, table), OwnName(q));
  }

  /** The request for `p` reaches an interface shown under the same name. */
  lemma RequestReaches(inner: map<string, string>, index: Index, joints: Joints, table: Table,
                       transmissions: map<string, string>, p: Pick) returns (q: Pick)
    requires JointsDoNotClash(joints, table) && Wired(inner, index, joints, table, transmissions)
    requires IsExported(p, joints, table)
    ensures IsExported(q, joints, table) && ShownName(transmissions, q) == ShownName(transmissions, p)
    ensures Lookup(index, Translate(inner, ShownName(transmissions, p))) == Entry(q.1)
  {
    var exports := JointExports(joints, Command, table);
    var order :| Visits(order, joints.Keys, {}) && inner == AllInnerNames(order, exports, transmissions);
    var visited :| Visits(visited, joints.Keys, {}) && Extended(ExportIndex(visited, joints, table), index);
    q := TranslationOf(order, exports, transmissions, p);
    OwnNameReaches(index, joints, table, visited, q);
  }

  /** A request reaches the slave and interface whose value the export stands for, and its full
      name names that value, unless interfaces of that slave overlap. */
  lemma RequestReachesItsAlias(inner: map<string, string>, index: Index, joints: Joints, table: Table,
                               transmissions: map<string, string>, p: Pick)
    requires JointsDoNotClash(joints, table) && ShownAlike(joints, table, transmissions)
    requires Wired(inner, index, joints, table, transmissions) && IsExported(p, joints, table)
    ensures Reaches(inner, index, transmissions, p)
    ensures p.1.slave in table
    ensures CellsApart(table[p.1.slave].command) ==> NamesCell(Entry(p.1), p.1.source.cell, table)
  {
    var q := RequestReaches(inner, index, joints, table, transmissions, p);
    ResolveFromTable(joints[p.0], Command, table);
    if CellsApart(table[p.1.slave].command) {
      EntryNamesAliasedCell(p.0, joints, table, p.1);
    }
  }

  /** All requests reach what they stand for if and only if interfaces shown under one name are the
      same interface. */
  lemma RequestsReachIff(inner: map<string, string>, index: Index, joints: Joints, table: Table,
                         transmissions: map<string, string>)
    requires JointsDoNotClash(joints, table) && Wired(inner, index, joints, table, transmissions)
    ensures (forall p | IsExported(p, joints, table) :: Reaches(inner, index, transmissions, p))
       <==> ShownAlike(joints, table, transmissions)
  {
    if ShownAlike(joints, table, transmissions) {
      forall p | IsExported(p, joints, table)
        ensures Reaches(inner, index, transmissions, p)
      {
        RequestReachesItsAlias(inner, index, joints, table, transmissions, p);
      }
    } else {
      var p, q :| IsExported(p, joints, table) && IsExported(q, joints, table)
                  && ShownName(transmissions, p) == ShownName(transmissions, q) && Entry(p.1) != Entry(q.1);
      assert !Reaches(inner, index, transmissions, p) || !Reaches(inner, index, transmissions, q);
    }
  }

  /** Names that translate back are enough for that. */
  lemma ShownApartIsAlike(joints: Joints, table: Table, transmissions: map<string, string>)
    requires JointsDoNotClash(joints, table) && ShownApart(JointExports(joints, Command, table), transmissions)
    ensures ShownAlike(joints, table, transmissions)
  {
    forall p, q | IsExported(p, joints, table) && IsExported(q, joints, table)
                  && ShownName(transmissions, p) == ShownName(transmissions, q)
      ensures Entry(p.1) == Entry(q.1)
    {
      assert In(p, JointExports(joints, Command, table)) && In(q, JointExports(joints, Command, table));
      SameKeySameEntry(p.0, p.1, q.0, q.1, joints, table);
    }
  }

  /** Requests that reach their alias one by one are routed as they are asked. */
  lemma {:induction false} RoutedAsAsked(inner: map<string, string>, index: Index, transmissions: map<string, string>,
                                         picks: seq<Pick>, slave: string)
    requires forall p | p in picks :: Reaches(inner, index, transmissions, p)
    ensures Routed(index, Translated(inner, Asked(picks, transmissions)), slave) == OfSlave(picks, slave)
    decreases |picks|
  {
    var requests := Translated(inner, Asked(picks, transmissions));
    if picks != [] {
      var n := |picks| - 1;
      RoutedAsAsked(inner, index, transmissions, picks[..n], slave);
      assert requests[..n] == Translated(inner, Asked(picks[..n], transmissions));
      assert picks[n] in picks;
    }
  }

  /** A switch of exported interfaces asks each slave for precisely its own, in the order asked. */
  lemma SwitchReachesTheAliases(inner: map<string, string>, index: Index, joints: Joints, table: Table,
                                transmissions: map<string, string>, picks: seq<Pick>, slave: string)
    requires JointsDoNotClash(joints, table) && ShownAlike(joints, table, transmissions)
    requires Wired(inner, index, joints, table, transmissions)
    requires forall p | p in picks :: IsExported(p, joints, table)
    ensures Routed(index, Translated(inner, Asked(picks, transmissions)), slave) == OfSlave(picks, slave)
  {
    forall p | p in picks
      ensures Reaches(inner, index, transmissions, p)
    {
      RequestReachesItsAlias(inner, index, joints, table, transmissions, p);
    }
    RoutedAsAsked(inner, index, transmissions, picks, slave);
  }

  /** The switch from the controllers' side. A prepare of exported interfaces is accepted exactly
      if each slave's base mode and its own start modes stop and then keep to one mode; the perform
      that follows is accepted exactly if the prepare was, leaves each such slave in the last of
      these modes, and every other as it was. */
  lemma SwitchEndToEnd(inner: map<string, string>, index: Index, joints: Joints, table: Table,
                       transmissions: map<string, string>, slaves: map<string, Slave>,
                       starts: seq<Pick>, stops: seq<Pick>)
    requires JointsDoNotClash(joints, table) && ShownAlike(joints, table, transmissions)
    requires Wired(inner, index, joints, table, transmissions)
    requires forall p | p in starts :: IsExported(p, joints, table)
    requires forall p | p in stops :: IsExported(p, joints, table)
    ensures var starts', stops' := Translated(inner, Asked(starts, transmissions)),
                                   Translated(inner, Asked(stops, transmissions));
            var index' := AfterPrepare(index, starts', stops');
            && (AllSwitch(index, slaves, starts', stops')
                <==> forall s | s in slaves :: Accepts(slaves[s], OfSlave(starts, s), OfSlave(stops, s)))
            && (AllSwitch(index', slaves, starts', stops') <==> AllSwitch(index, slaves, starts', stops'))
            && forall s | s in slaves ::
                 Performed(index', slaves, starts', stops')[s]
                 == Outcome(slaves[s], OfSlave(starts, s), OfSlave(stops, s))
  {
    var starts', stops' := Translated(inner, Asked(starts, transmissions)),
                           Translated(inner, Asked(stops, transmissions));
    forall s | s in slaves
      ensures Routed(index, starts', s) == OfSlave(starts, s)
      ensures Routed(index, stops', s) == OfSlave(stops, s)
      ensures SlaveSwitch(index, slaves[s], s, starts', stops').Some?
         <==> Accepts(slaves[s], OfSlave(starts, s), OfSlave(stops, s))
    {
      SwitchReachesTheAliases(inner, index, joints, table, transmissions, starts, s);
      SwitchReachesTheAliases(inner, index, joints, table, transmissions, stops, s);
      SlaveClosedForm(slaves[s], OfSlave(starts, s), OfSlave(stops, s));
    }
    TwoPhaseSwitch(index, slaves, starts', stops');
  }

  lemma CommandExportsAreDistinct(joints: Joints, table: Table)
    ensures forall j | j in joints :: DistinctNames(JointExports(joints, Command, table)[j])
  {
    forall j | j in joints
      ensures DistinctNames(JointExports(joints, Command, table)[j])
    {
      CommandsAreDistinct(j, joints, table);
    }
  }

  /// The driver

  class SOEMDriver {
    const claimsResolver: ECClaimsResolver
    const transmissions: map<string, string>      // joint name to the joint name of its transmission
    var transmissionCommandInterfaceMap: map<string, string>
    var transmissionCommandValues: seq<Option<real>>   // None is not a number

    constructor (claimsResolver: ECClaimsResolver, transmissions: map<string, string>)
      ensures this.claimsResolver == claimsResolver && this.transmissions == transmissions
      ensures transmissionCommandInterfaceMap == map[] && transmissionCommandValues == []
    {
      this.claimsResolver, this.transmissions := claimsResolver, transmissions;
      transmissionCommandInterfaceMap, transmissionCommandValues := map[], [];
    }

    /** The order in which an `unordered_map` yields its keys: any, but each key once. */
    static method Iterate(keys: set<string>) returns (order: seq<string>)
      ensures Visits(order, keys, {})
    {
      order := [];
      var remaining := keys;
      while remaining != {}
        invariant remaining <= keys && Visits(order, keys, remaining)
        decreases |remaining|
      {
        var k :| k in remaining;
        VisitOneMore(order, keys, remaining, k);
        order, remaining := order + [k], remaining - {k};
      }
    }

    /** The `std::accumulate` that sizes the transmission values. */
    method CountTransmissionValues(order: seq<string>, exports: ByJoint) returns (count: nat)
      requires forall j | j in order :: j in exports
      ensures count == SlotCount(order, exports, transmissions)
    {
      count := 0;
      for i := 0 to |order|
        invariant count == SlotCount(order[..i], exports, transmissions)
      {
        assert order[..i + 1][..i] == order[..i];
        if order[i] in transmissions {
          count := count + |exports[order[i]]|;
        }
      }
      assert order[..|order|] == order;
    }

    /** The interfaces of one joint, each behind the next transmission value if it has one. */
    method ExportJoint(joint: string, aliases: seq<Alias>, slot: nat) returns (handles: seq<Handle>, slot': nat)
      requires joint in transmissions ==> slot + |aliases| <= |transmissionCommandValues|
      modifies this`transmissionCommandInterfaceMap
      ensures handles == HandlesOf(transmissions, joint, aliases, slot)
      ensures slot' == if joint in transmissions then slot + |aliases| else slot
      ensures transmissionCommandInterfaceMap ==
              if joint in transmissions
              then old(transmissionCommandInterfaceMap) + InnerNames(joint, transmissions[joint], aliases)
              else old(transmissionCommandInterfaceMap)
    {
      handles, slot' := [], slot;
      for i := 0 to |aliases|
        invariant handles == HandlesOf(transmissions, joint, aliases[..i], slot)
        invariant slot' == if joint in transmissions then slot + i else slot
        invariant transmissionCommandInterfaceMap ==
                  if joint in transmissions
                  then old(transmissionCommandInterfaceMap) + InnerNames(joint, transmissions[joint], aliases[..i])
                  else old(transmissionCommandInterfaceMap)
      {
        assert aliases[..i + 1][..i] == aliases[..i];
        var name := aliases[i].source.name;
        if joint in transmissions {
          var outer := transmissions[joint];
          transmissionCommandInterfaceMap := transmissionCommandInterfaceMap[Key(outer, name) := Key(joint, name)];
          handles := handles + [Handle(outer, name, Slot(slot'))];
          slot' := slot' + 1;
        } else {
          handles := handles + [Handle(joint, name, Cell(aliases[i].source.cell))];
        }
      }
      assert aliases[..|aliases|] == aliases;
    }

    /** `export_command_interfaces`, called once. */
    method ExportCommandInterfaces() returns (handles: seq<Handle>, ghost order: seq<string>)
      requires claimsResolver.Valid() && claimsResolver.commandInterfaceMap == map[]
      requires transmissionCommandInterfaceMap == map[]
      modifies this`transmissionCommandInterfaceMap, this`transmissionCommandValues, claimsResolver`commandInterfaceMap
      ensures Visits(order, claimsResolver.jointClaims.Keys, {})
      ensures var exports := JointExports(claimsResolver.Joints(), Command, claimsResolver.slaveInterfaces);
              && handles == Handles(order, exports, transmissions)
              && |transmissionCommandValues| == SlotCount(order, exports, transmissions)
              && Correspond(handles, Picks(order, exports), exports, transmissions)
              && SlotsIn(handles) == UpTo(0, |transmissionCommandValues|)
      ensures Wired(transmissionCommandInterfaceMap, claimsResolver.commandInterfaceMap,
                    claimsResolver.Joints(), claimsResolver.slaveInterfaces, transmissions)
    {
      ghost var joints, table := claimsResolver.Joints(), claimsResolver.slaveInterfaces;
      var exports, visited := claimsResolver.ExportCommandInterfacesByJoint();
      var visits := Iterate(exports.Keys);
      var count := CountTransmissionValues(visits, exports);
      transmissionCommandValues := seq(count, _ => None);
      handles := ExportJoints(visits, exports);
      order := visits;
      WiredBy(transmissionCommandInterfaceMap, claimsResolver.commandInterfaceMap, joints, table, transmissions,
              order, visited);
      SlotsAreUsedOnce(order, exports, transmissions);
      CommandExportsAreDistinct(joints, table);
      HandlesAreExports(order, exports, transmissions);
    }

    method ExportJoints(order: seq<string>, exports: ByJoint) returns (handles: seq<Handle>)
      requires forall j | j in order :: j in exports
      requires transmissionCommandInterfaceMap == map[]
      requires |transmissionCommandValues| == SlotCount(order, exports, transmissions)
      modifies this`transmissionCommandInterfaceMap
      ensures handles == Handles(order, exports, transmissions)
      ensures transmissionCommandInterfaceMap == AllInnerNames(order, exports, transmissions)
    {
      var slot := 0;
      handles := [];
      for i := 0 to |order|
        invariant slot == SlotCount(order[..i], exports, transmissions)
        invariant handles == Handles(order[..i], exports, transmissions)
        invariant transmissionCommandInterfaceMap == AllInnerNames(order[..i], exports, transmissions)
      {
        assert order[..i + 1][..i] == order[..i];
        SlotCountGrows(order, i + 1, exports, transmissions);
        var more;
        more, slot := ExportJoint(order[i], exports[order[i]], slot);
        handles := handles + more;
      }
      assert order[..|order|] == order;
    }

    /** Requests behind transmissions are renamed; all others pass. */
    method TranslateRequests(requests: seq<string>) returns (translated: seq<string>)
      ensures translated == Translated(transmissionCommandInterfaceMap, requests)
    {
      translated := [];
      for i := 0 to |requests|
        invariant translated == Translated(transmissionCommandInterfaceMap, requests[..i])
      {
        var r := requests[i];
        translated := translated +
          [if r in transmissionCommandInterfaceMap then transmissionCommandInterfaceMap[r] else r];
      }
      assert requests[..|requests|] == requests;
    }

    /** `prepare_command_mode_switch` */
    method PrepareCommandModeSwitch(starts: seq<string>, stops: seq<string>) returns (ok: bool)
      modifies claimsResolver`commandInterfaceMap
      ensures var starts', stops' := Translated(transmissionCommandInterfaceMap, starts),
                                     Translated(transmissionCommandInterfaceMap, stops);
              && ok == AllSwitch(old(claimsResolver.commandInterfaceMap), claimsResolver.slaves, starts', stops')
              && claimsResolver.commandInterfaceMap
                 == AfterPrepare(old(claimsResolver.commandInterfaceMap), starts', stops')
    {
      var starts' := TranslateRequests(starts);
      var stops' := TranslateRequests(stops);
      var accepted, _ := claimsResolver.PrepareCommandModeSwitch(starts', stops');
      return accepted;
    }

    /** `perform_command_mode_switch` */
    method PerformCommandModeSwitch(starts: seq<string>, stops: seq<string>) returns (ok: bool)
      modifies claimsResolver`commandInterfaceMap, claimsResolver`slaves
      ensures var starts', stops' := Translated(transmissionCommandInterfaceMap, starts),
                                     Translated(transmissionCommandInterfaceMap, stops);
              && ok == AllSwitch(old(claimsResolver.commandInterfaceMap), old(claimsResolver.slaves), starts', stops')
              && claimsResolver.slaves
                 == Performed(old(claimsResolver.commandInterfaceMap), old(claimsResolver.slaves), starts', stops')
              && claimsResolver.commandInterfaceMap
                 == AfterPrepare(old(claimsResolver.commandInterfaceMap), starts', stops')
    {
      var starts' := TranslateRequests(starts);
      var stops' := TranslateRequests(stops);
      var accepted, _ := claimsResolver.PerformCommandModeSwitch(starts', stops');
      return accepted;
    }
  }

  lemma {:induction false} SlotCountGrows(order: seq<string>, n: nat, exports: ByJoint, transmissions: map<string, string>)
    requires n <= |order| && forall j | j in order :: j in exports
    ensures SlotCount(order[..n], exports, transmissions) <= SlotCount(order, exports, transmissions)
    decreases |order|
  {
    if n == |order| {
      assert order[..n] == order;
    } else {
      var init := order[..|order| - 1];
      assert init[..n] == order[..n];
      SlotCountGrows(init, n, exports, transmissions);
    }
  }
}
