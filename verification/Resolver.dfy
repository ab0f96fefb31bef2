/** The claims resolver (claims_resolver.cpp) as the object the driver keeps: it resolves joints,
    builds the reverse index, and routes mode switches to the slaves. */
module Resolver {
  import opened Options
  import opened ModeSwitch
  import opened Claims
  import opened Routing

  type ByName = map<string, seq<string>>

  /** An `unordered_map` read with `operator[]`. */
  function Get(m: ByName, name: string): seq<string> {
    if name in m then m[name] else []
  }

  /** One call of a slave and its answer. */
  datatype Response = Response(slave: string, starts: seq<string>, stops: seq<string>, ok: bool)

  /** `calls` calls every slave exactly once, with precisely the requests routed to it. */
  ghost predicate CallsEachOnce(calls: seq<Response>, slaves: set<string>, index: Index,
                                starts: seq<string>, stops: seq<string>) {
    && (forall i, j | 0 <= i < j < |calls| :: calls[i].slave != calls[j].slave)
    && (forall c | c in calls :: c.slave in slaves)
    && (forall s | s in slaves :: exists c :: c in calls && c.slave == s)
    && (forall c | c in calls ::
          c.starts == Routed(index, starts, c.slave) && c.stops == Routed(index, stops, c.slave))
  }

  class ECClaimsResolver {
    var slaveInterfaces: Table
    var commandInterfaceMap: Index
    var slaves: map<string, Slave>
    var jointClaims: map<string, seq<string>>

    ghost predicate Valid()
      reads this`jointClaims
    {
      forall j | j in jointClaims :: AllTokenizable(jointClaims[j])
    }

    ghost function Joints(): Joints
      reads this`jointClaims
      requires Valid()
    {
      map j | j in jointClaims :: ClaimsOf(jointClaims[j])
    }

    constructor (slaveInterfaces: Table, slaves: map<string, Slave>, jointClaims: map<string, seq<string>>)
      requires forall j | j in jointClaims :: AllTokenizable(jointClaims[j])
      ensures Valid() && this.slaveInterfaces == slaveInterfaces && this.slaves == slaves
      ensures this.jointClaims == jointClaims && commandInterfaceMap == map[]
    {
      this.slaveInterfaces, this.slaves, this.jointClaims := slaveInterfaces, slaves, jointClaims;
      commandInterfaceMap := map[];
    }

    /** The interfaces one claim goes through, found as the source finds them. */
    method SelectInterfaces(c: Claim, ifs: seq<Interface>) returns (begin: nat, end: nat)
      ensures begin <= end <= |ifs| && ifs[begin..end] == Selected(c, ifs)
    {
      if c.name == "" {
        return 0, |ifs|;
      }
      begin := 0;
      while begin < |ifs| && !Fits(c, ifs[begin])
        invariant begin <= |ifs|
        invariant forall j | 0 <= j < begin :: !Fits(c, ifs[j])
      {
        begin := begin + 1;
      }
      end := if begin != |ifs| then begin + 1 else |ifs|;
    }

    /** The innermost loop: map the interfaces of `ifs` whose name the joint does not have. */
    method MapInterfaces(joint: string, c: Claim, ifs: seq<Interface>,
                         aliases: seq<Alias>, mapped: set<string>, index: Index)
      returns (aliases': seq<Alias>, mapped': set<string>, index': Index)
      requires mapped == Names(aliases) && index == IndexOf(joint, aliases)
      ensures aliases' == Scan(aliases, c, ifs)
      ensures mapped' == Names(aliases') && index' == IndexOf(joint, aliases')
    {
      aliases', mapped', index' := aliases, mapped, index;
      var k := 0;
      while k < |ifs|
        invariant 0 <= k <= |ifs|
        invariant aliases' == Scan(aliases, c, ifs[..k])
        invariant mapped' == Names(aliases') && index' == IndexOf(joint, aliases')
      {
        var x := ifs[k];
        assert ifs[..k + 1][..k] == ifs[..k];
        if x.prefix == c.claim && x.name !in mapped' {
          NamesGrow(aliases', Alias(c.slave, x));
          IndexGrows(joint, aliases', Alias(c.slave, x));
          mapped' := mapped' + {x.name};
          aliases' := aliases' + [Alias(c.slave, x)];
          index' := index'[Key(joint, x.name) := (c.slave, FullName(x))];
        }
        k := k + 1;
      }
      assert ifs[..k] == ifs;
    }

    /** `resolve_state_interfaces_by_joint` and `resolve_command_interfaces_by_joint`, which
        differ only in the kind of interface and in whether the index is kept. */
    method ResolveInterfacesByJoint(joint: string, kind: Kind) returns (aliases: seq<Alias>, index: Index)
      requires Valid() && joint in jointClaims
      ensures aliases == Resolve(Joints()[joint], kind, slaveInterfaces)
      ensures index == IndexOf(joint, aliases)
    {
      var ids := jointClaims[joint];
      ghost var claims := ClaimsOf(ids);
      var mapped: set<string> := {};
      aliases, index := [], map[];
      var n := 0;
      while n < |ids|
        invariant 0 <= n <= |ids|
        invariant aliases == Resolve(claims[..n], kind, slaveInterfaces)
        invariant mapped == Names(aliases) && index == IndexOf(joint, aliases)
      {
        assert ids[n] in ids;
        var c := Tokenize(ids[n]);
        ResolveOneMore(claims, n, kind, slaveInterfaces);
        if Wants(c, kind, slaveInterfaces) {
          var ifs := Of(slaveInterfaces[c.slave], kind);
          var begin, end := SelectInterfaces(c, ifs);
          aliases, mapped, index := MapInterfaces(joint, c, ifs[begin..end], aliases, mapped, index);
        }
        n := n + 1;
      }
      assert claims[..n] == claims;
    }

    /** `export_state_interfaces_by_joint` */
    method ExportStateInterfacesByJoint() returns (exports: map<string, seq<Alias>>)
      requires Valid()
      ensures exports == JointExports(Joints(), State, slaveInterfaces)
    {
      ghost var joints := Joints();
      exports := map[];
      var remaining := jointClaims.Keys;
      while remaining != {}
        invariant remaining <= jointClaims.Keys
        invariant exports == JointExportsExcept(joints, State, slaveInterfaces, remaining)
        decreases |remaining|
      {
        var j :| j in remaining;
        var aliases, _ := ResolveInterfacesByJoint(j, State);
        exports := exports[j := aliases];
        remaining := remaining - {j};
      }
    }

    /** `export_command_interfaces_by_joint`, from an empty index: the joints come in whatever
        order the map yields them, `order`. */
    method ExportCommandInterfacesByJoint() returns (exports: map<string, seq<Alias>>, ghost order: seq<string>)
      requires Valid() && commandInterfaceMap == map[]
      modifies this`commandInterfaceMap
      ensures exports == JointExports(Joints(), Command, slaveInterfaces)
      ensures Visits(order, jointClaims.Keys, {})
      ensures commandInterfaceMap == ExportIndex(order, Joints(), slaveInterfaces)
    {
      ghost var joints := Joints();
      exports, order := map[], [];
      var remaining := jointClaims.Keys;
      while remaining != {}
        invariant Exported(exports, commandInterfaceMap, order, joints, slaveInterfaces, remaining)
        decreases |remaining|
      {
        var j :| j in remaining;
        var aliases, index := ResolveInterfacesByJoint(j, Command);
        ExportOneMore(exports, commandInterfaceMap, order, joints, slaveInterfaces, remaining, j);
        commandInterfaceMap := index + commandInterfaceMap;
        exports := exports[j := aliases];
        order, remaining := order + [j], remaining - {j};
      }
      ExportedAll(exports, commandInterfaceMap, order, joints, slaveInterfaces);
    }

    /** Sort requests by the slave they are mapped to; unknown ones leave a default entry. */
    method ClaimsBySlave(requests: seq<string>) returns (claims: ByName)
      modifies this`commandInterfaceMap
      ensures commandInterfaceMap == WithDefaults(old(commandInterfaceMap), requests)
      ensures forall s :: Get(claims, s) == Routed(old(commandInterfaceMap), requests, s)
    {
      ghost var index := commandInterfaceMap;
      claims := map[];
      var n := 0;
      assert requests[..n] == [];
      while n < |requests|
        invariant 0 <= n <= |requests|
        invariant commandInterfaceMap == WithDefaults(index, requests[..n])
        invariant forall s :: Get(claims, s) == Routed(index, requests[..n], s)
      {
        var r := requests[n];
        assert requests[..n + 1][..n] == requests[..n];
        DefaultsDoNotMatter(index, requests[..n], r);
        commandInterfaceMap := commandInterfaceMap[r := Lookup(commandInterfaceMap, r)];
        var (slave, claim) := commandInterfaceMap[r];
        claims := claims[slave := Get(claims, slave) + [claim]];
        n := n + 1;
      }
      assert requests[..n] == requests;
    }

    /** OK unless some slave answered otherwise. */
    method AllOk(calls: seq<Response>) returns (ok: bool)
      ensures ok <==> forall c | c in calls :: c.ok
    {
      var n := 0;
      while n < |calls|
        invariant 0 <= n <= |calls|
        invariant forall i | 0 <= i < n :: calls[i].ok
      {
        if !calls[n].ok {
          return false;
        }
        n := n + 1;
      }
      return true;
    }

    /** The first half of both phases: the requests, sorted by slave. */
    method Route(starts: seq<string>, stops: seq<string>) returns (startClaims: ByName, stopClaims: ByName)
      modifies this`commandInterfaceMap
      ensures commandInterfaceMap == AfterPrepare(old(commandInterfaceMap), starts, stops)
      ensures Sorts(startClaims, old(commandInterfaceMap), starts)
      ensures Sorts(stopClaims, old(commandInterfaceMap), stops)
    {
      ghost var index := commandInterfaceMap;
      startClaims := ClaimsBySlave(starts);
      stopClaims := ClaimsBySlave(stops);
      SameRouting(index, starts, stops);
    }

    /** `prepare_command_mode_switch`: every slave is asked, none changes its mode. */
    method PrepareCommandModeSwitch(starts: seq<string>, stops: seq<string>) returns (ok: bool, calls: seq<Response>)
      modifies this`commandInterfaceMap
      ensures commandInterfaceMap == AfterPrepare(old(commandInterfaceMap), starts, stops)
      ensures CallsEachOnce(calls, slaves.Keys, old(commandInterfaceMap), starts, stops)
      ensures ok <==> forall c | c in calls :: c.ok
      ensures ok <==> AllSwitch(old(commandInterfaceMap), slaves, starts, stops)
    {
      ghost var index := commandInterfaceMap;
      var startClaims, stopClaims := Route(starts, stops);
      ghost var order: seq<string>;
      calls, order := AskAll(startClaims, stopClaims, index, starts, stops);
      AllCalled(order, index, slaves, starts, stops);
      ok := AllOk(calls);
    }

    method AskAll(startClaims: ByName, stopClaims: ByName, ghost index: Index, ghost starts: seq<string>, ghost stops: seq<string>)
      returns (calls: seq<Response>, ghost order: seq<string>)
      requires Sorts(startClaims, index, starts) && Sorts(stopClaims, index, stops)
      ensures Visits(order, slaves.Keys, {})
      ensures calls == CallsFor(order, index, slaves, starts, stops)
    {
      calls, order := [], [];
      var remaining := slaves.Keys;
      while remaining != {}
        invariant remaining <= slaves.Keys && Visits(order, slaves.Keys, remaining)
        invariant calls == CallsFor(order, index, slaves, starts, stops)
        decreases |remaining|
      {
        var s :| s in remaining;
        var call, _ := CallSlave(s, slaves[s], startClaims, stopClaims, index, starts, stops);
        VisitMore(order, slaves, remaining, s, index, starts, stops);
        calls, order, remaining := calls + [call], order + [s], remaining - {s};
      }
    }

    /** One slave's decision on the requests routed to it. */
    method CallSlave(s: string, slave: Slave, startClaims: ByName, stopClaims: ByName,
                     ghost index: Index, ghost starts: seq<string>, ghost stops: seq<string>)
      returns (call: Response, next: Option<Slave>)
      requires Sorts(startClaims, index, starts) && Sorts(stopClaims, index, stops)
      ensures call == CallFor(s, index, slave, starts, stops)
      ensures next == SlaveSwitch(index, slave, s, starts, stops)
    {
      next := SwitchedSlave(slave, Get(startClaims, s), Get(stopClaims, s));
      call := Response(s, Get(startClaims, s), Get(stopClaims, s), next.Some?);
    }

    /** `perform_command_mode_switch`: a slave that accepts switches, one that refuses does not. */
    method PerformCommandModeSwitch(starts: seq<string>, stops: seq<string>) returns (ok: bool, calls: seq<Response>)
      modifies this`commandInterfaceMap, this`slaves
      ensures commandInterfaceMap == AfterPrepare(old(commandInterfaceMap), starts, stops)
      ensures CallsEachOnce(calls, slaves.Keys, old(commandInterfaceMap), starts, stops)
      ensures ok <==> forall c | c in calls :: c.ok
      ensures ok <==> AllSwitch(old(commandInterfaceMap), old(slaves), starts, stops)
      ensures slaves == Performed(old(commandInterfaceMap), old(slaves), starts, stops)
    {
      ghost var index, before := commandInterfaceMap, slaves;
      var startClaims, stopClaims := Route(starts, stops);
      ghost var order: seq<string>;
      calls, order := SwitchAll(startClaims, stopClaims, index, starts, stops);
      AllCalled(order, index, before, starts, stops);
      ok := AllOk(calls);
    }

    method SwitchAll(startClaims: ByName, stopClaims: ByName, ghost index: Index, ghost starts: seq<string>, ghost stops: seq<string>)
      returns (calls: seq<Response>, ghost order: seq<string>)
      requires Sorts(startClaims, index, starts) && Sorts(stopClaims, index, stops)
      modifies this`slaves
      ensures Visits(order, old(slaves).Keys, {})
      ensures calls == CallsFor(order, index, old(slaves), starts, stops)
      ensures slaves == Performed(index, old(slaves), starts, stops)
    {
      ghost var before := slaves;
      calls, order := [], [];
      var remaining := slaves.Keys;
      HalfwayEnds(index, before, starts, stops);
      while remaining != {}
        invariant remaining <= before.Keys && Visits(order, before.Keys, remaining)
        invariant calls == CallsFor(order, index, before, starts, stops)
        invariant slaves == Halfway(index, before, starts, stops, remaining)
        decreases |remaining|
      {
        var s :| s in remaining;
        HalfwayMore(index, before, starts, stops, remaining, s);
        VisitMore(order, before, remaining, s, index, starts, stops);
        var call, next := CallSlave(s, slaves[s], startClaims, stopClaims, index, starts, stops);
        if next.Some? {
          slaves := slaves[s := next.value];
        }
        calls, order, remaining := calls + [call], order + [s], remaining - {s};
      }
    }
  }

  /** What each joint exports. */
  function JointExports(joints: Joints, kind: Kind, table: Table): map<string, seq<Alias>> {
    map j | j in joints :: Resolve(joints[j], kind, table)
  }

  /** A joint exports the first match of every name its claims of that kind cover. */
  lemma ExportsAreFirstMatches(joints: Joints, kind: Kind, table: Table)
    ensures JointExports(joints, kind, table).Keys == joints.Keys
    ensures forall j | j in joints ::
              FirstMatches(JointExports(joints, kind, table)[j], Candidates(joints[j], kind, table))
  {
    forall j | j in joints
      ensures FirstMatches(JointExports(joints, kind, table)[j], Candidates(joints[j], kind, table))
    {
      ResolveMeansFirstMatch(joints[j], kind, table);
    }
  }

  function JointExportsExcept(joints: Joints, kind: Kind, table: Table, remaining: set<string>): map<string, seq<Alias>> {
    map j | j in joints && j !in remaining :: Resolve(joints[j], kind, table)
  }

  /** `claims` gives every slave the requests routed to it. */
  ghost predicate Sorts(claims: ByName, index: Index, requests: seq<string>) {
    forall s :: Get(claims, s) == Routed(index, requests, s)
  }

  /** The slaves when only those in `remaining` are still to switch. */
  function Halfway(index: Index, slaves: map<string, Slave>, starts: seq<string>, stops: seq<string>,
                   remaining: set<string>): map<string, Slave>
  {
    var done := Performed(index, slaves, starts, stops);
    map s | s in slaves :: if s in remaining then slaves[s] else done[s]
  }

  lemma HalfwayEnds(index: Index, slaves: map<string, Slave>, starts: seq<string>, stops: seq<string>)
    ensures Halfway(index, slaves, starts, stops, slaves.Keys) == slaves
    ensures Halfway(index, slaves, starts, stops, {}) == Performed(index, slaves, starts, stops)
  {
  }

  lemma HalfwayMore(index: Index, slaves: map<string, Slave>, starts: seq<string>, stops: seq<string>,
                    remaining: set<string>, s: string)
    requires s in remaining && remaining <= slaves.Keys
    ensures var now := Halfway(index, slaves, starts, stops, remaining);
            && now.Keys == slaves.Keys && now[s] == slaves[s]
            && Halfway(index, slaves, starts, stops, remaining - {s})
               == match SlaveSwitch(index, slaves[s], s, starts, stops)
                  case Some(m) => now[s := m]
                  case None => now
  {
  }

  /** `order` lists, once each, the members of `all` that are not in `remaining`. */
  ghost predicate Visits(order: seq<string>, all: set<string>, remaining: set<string>) {
    && Distinct(order)
    && forall s :: s in order <==> s in all && s !in remaining
  }

  function CallFor(s: string, index: Index, slave: Slave, starts: seq<string>, stops: seq<string>): Response {
    Response(s, Routed(index, starts, s), Routed(index, stops, s), SlaveSwitch(index, slave, s, starts, stops).Some?)
  }

  function CallsFor(order: seq<string>, index: Index, slaves: map<string, Slave>,
                    starts: seq<string>, stops: seq<string>): (r: seq<Response>)
    requires forall s | s in order :: s in slaves
    ensures |r| == |order|
  {
    seq(|order|, i requires 0 <= i < |order| => CallFor(order[i], index, slaves[order[i]], starts, stops))
  }

  lemma VisitOneMore(order: seq<string>, all: set<string>, remaining: set<string>, s: string)
    requires Visits(order, all, remaining) && s in all && s in remaining
    ensures Visits(order + [s], all, remaining - {s})
  {
    assert s !in order;
    forall t
      ensures t in order + [s] <==> t in all && t !in remaining - {s}
    {
    }
  }

  lemma VisitMore(order: seq<string>, slaves: map<string, Slave>, remaining: set<string>, s: string,
                  index: Index, starts: seq<string>, stops: seq<string>)
    requires remaining <= slaves.Keys && Visits(order, slaves.Keys, remaining) && s in remaining
    ensures Visits(order + [s], slaves.Keys, remaining - {s})
    ensures CallsFor(order + [s], index, slaves, starts, stops)
         == CallsFor(order, index, slaves, starts, stops) + [CallFor(s, index, slaves[s], starts, stops)]
  {
    VisitOneMore(order, slaves.Keys, remaining, s);
  }

  /** Once every slave has been visited, each has been called exactly once, and all answers are
      OK exactly if every slave can switch. */
  lemma AllCalled(order: seq<string>, index: Index, slaves: map<string, Slave>, starts: seq<string>, stops: seq<string>)
    requires Visits(order, slaves.Keys, {})
    ensures var calls := CallsFor(order, index, slaves, starts, stops);
            && CallsEachOnce(calls, slaves.Keys, index, starts, stops)
            && ((forall c | c in calls :: c.ok) <==> AllSwitch(index, slaves, starts, stops))
  {
    var calls := CallsFor(order, index, slaves, starts, stops);
    forall s | s in slaves.Keys
      ensures exists c :: c in calls && c == CallFor(s, index, slaves[s], starts, stops)
    {
      var i :| 0 <= i < |order| && order[i] == s;
      assert calls[i] in calls;
    }
    forall s | s in slaves && forall c | c in calls :: c.ok
      ensures SlaveSwitch(index, slaves[s], s, starts, stops).Some?
    {
      assert s in slaves.Keys;
    }
  }

  /** The exports and the index when only the joints in `remaining` are still to be exported. */
  ghost predicate Exported(exports: map<string, seq<Alias>>, index: Index, order: seq<string>,
                           joints: Joints, table: Table, remaining: set<string>)
  {
    && remaining <= joints.Keys && Visits(order, joints.Keys, remaining)
    && exports == JointExportsExcept(joints, Command, table, remaining)
    && index == ExportIndex(order, joints, table)
  }

  lemma ExportOneMore(exports: map<string, seq<Alias>>, index: Index, order: seq<string>,
                      joints: Joints, table: Table, remaining: set<string>, j: string)
    requires Exported(exports, index, order, joints, table, remaining) && j in remaining
    ensures var aliases := CommandsOf(j, joints, table);
            Exported(exports[j := aliases], IndexOf(j, aliases) + index, order + [j], joints, table, remaining - {j})
  {
    VisitOneMore(order, joints.Keys, remaining, j);
    JointExportsOneMore(joints, table, remaining, j);
    ExportIndexOneMore(order, joints, table, j);
  }

  lemma ExportedAll(exports: map<string, seq<Alias>>, index: Index, order: seq<string>, joints: Joints, table: Table)
    requires Exported(exports, index, order, joints, table, {})
    ensures exports == JointExports(joints, Command, table)
  {
  }

  lemma ResolveOneMore(claims: seq<Claim>, n: nat, kind: Kind, table: Table)
    requires n < |claims|
    ensures Resolve(claims[..n + 1], kind, table) == ResolveClaim(Resolve(claims[..n], kind, table), claims[n], kind, table)
  {
    assert claims[..n + 1][..n] == claims[..n];
  }

  lemma JointExportsOneMore(joints: Joints, table: Table, remaining: set<string>, j: string)
    requires j in joints && j in remaining
    ensures JointExportsExcept(joints, Command, table, remaining - {j})
         == JointExportsExcept(joints, Command, table, remaining)[j := CommandsOf(j, joints, table)]
  {
  }

  lemma ExportIndexOneMore(order: seq<string>, joints: Joints, table: Table, j: string)
    requires j in joints && forall i | i in order :: i in joints
    ensures ExportIndex(order + [j], joints, table)
         == IndexOf(j, CommandsOf(j, joints, table)) + ExportIndex(order, joints, table)
  {
    assert (order + [j])[..|order|] == order;
  }

  lemma IndexGrows(joint: string, aliases: seq<Alias>, a: Alias)
    ensures IndexOf(joint, aliases + [a]) == IndexOf(joint, aliases)[Key(joint, a.source.name) := Entry(a)]
  {
    assert (aliases + [a])[..|aliases|] == aliases;
  }

  lemma SameRouting(index: Index, starts: seq<string>, stops: seq<string>)
    ensures forall s :: Routed(WithDefaults(index, starts), stops, s) == Routed(index, stops, s)
  {
    forall s
      ensures Routed(WithDefaults(index, starts), stops, s) == Routed(index, stops, s)
    {
      RoutingIgnoresDefaults(index, starts, stops, s);
    }
  }
}
