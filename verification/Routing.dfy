/** The reverse index of exported command interfaces, the translation of transmissions, and the
    routing of mode-switch requests through both to the slaves (claims_resolver.cpp and
    soem_driver.cpp). */
module Routing {
  import opened Options
  import opened Tmcm1610
  import opened ModeSwitch
  import opened Claims

  /// Names of interfaces

  function Key(prefix: string, name: string): string {
    prefix + "/" + name
  }

  function FullName(x: Interface): string {
    Key(x.prefix, x.name)
  }

  /** The longer prefix `q` swallows the beginning of the name behind the shorter prefix `p`. */
  predicate Swallows(p: string, m: string, q: string, n: string) {
    |p| < |q| && q[..|p| + 1] == p + "/" && m == q[|p| + 1..] + "/" + n
  }

  predicate Overlap(p: string, m: string, q: string, n: string) {
    Swallows(p, m, q, n) || Swallows(q, n, p, m)
  }

  lemma SwallowedKey(p: string, m: string, q: string, n: string)
    requires |p| < |q|
    ensures Key(p, m) == Key(q, n) <==> Swallows(p, m, q, n)
  {
    if Key(p, m) == Key(q, n) {
      var key := Key(q, n);
      assert q == key[..|q|];
      assert q[..|p| + 1] == key[..|p| + 1] == p + "/";
      assert m == key[|p| + 1..];
      assert key[|p| + 1..] == q[|p| + 1..] + "/" + n;
    }
    if Swallows(p, m, q, n) {
      assert q == q[..|p| + 1] + q[|p| + 1..];
      assert Key(p, m) == p + "/" + (q[|p| + 1..] + "/" + n);
      assert Key(p, m) == q + "/" + n;
    }
  }

  /** Full names are equal exactly if prefix and name are, or if they overlap. */
  lemma KeysCollideIff(p: string, m: string, q: string, n: string)
    ensures Key(p, m) == Key(q, n) <==> (p == q && m == n) || Overlap(p, m, q, n)
  {
    if |p| < |q| {
      SwallowedKey(p, m, q, n);
    } else if |q| < |p| {
      SwallowedKey(q, n, p, m);
    } else if Key(p, m) == Key(q, n) {
      var key := Key(p, m);
      assert p == key[..|p|] && q == key[..|p|];
      assert m == key[|p| + 1..] && n == key[|p| + 1..];
    }
  }

  /** An overlap takes a slash both in a prefix and in a name. */
  lemma OverlapNeedsSlashes(p: string, m: string, q: string, n: string)
    ensures Overlap(p, m, q, n) ==> (!SlashFree(p) || !SlashFree(q)) && (!SlashFree(m) || !SlashFree(n))
  {
    if Swallows(p, m, q, n) {
      assert q[|p|] == q[..|p| + 1][|p|] == '/';
      assert m[|q| - |p| - 1] == '/';
    }
    if Swallows(q, n, p, m) {
      assert p[|q|] == p[..|q| + 1][|q|] == '/';
      assert n[|p| - |q| - 1] == '/';
    }
  }

  /// The reverse index: joint interface to slave and slave interface

  type Index = map<string, (string, string)>

  function Entry(a: Alias): (string, string) {
    (a.slave, FullName(a.source))
  }

  /** `joint_command_interface_map` of one joint. */
  function IndexOf(joint: string, aliases: seq<Alias>): Index {
    if aliases == [] then map[]
    else
      var a := aliases[|aliases| - 1];
      IndexOf(joint, aliases[..|aliases| - 1])[Key(joint, a.source.name) := Entry(a)]
  }

  type Joints = map<string, seq<Claim>>

  function CommandsOf(joint: string, joints: Joints, table: Table): seq<Alias>
    requires joint in joints
  {
    Resolve(joints[joint], Command, table)
  }

  /** The index after exporting the joints in `order`: an existing entry is never replaced. */
  function ExportIndex(order: seq<string>, joints: Joints, table: Table): Index
    requires forall j | j in order :: j in joints
  {
    if order == [] then map[]
    else
      var j := order[|order| - 1];
      IndexOf(j, CommandsOf(j, joints, table)) + ExportIndex(order[..|order| - 1], joints, table)
  }

  lemma {:induction false} IndexOfEntries(joint: string, aliases: seq<Alias>)
    requires DistinctNames(aliases)
    ensures forall a | a in aliases ::
              Key(joint, a.source.name) in IndexOf(joint, aliases)
              && IndexOf(joint, aliases)[Key(joint, a.source.name)] == Entry(a)
    decreases |aliases|
  {
    if aliases != [] {
      var n := |aliases| - 1;
      var init, last := aliases[..n], aliases[n];
      IndexOfEntries(joint, init);
      forall a | a in aliases
        ensures Key(joint, a.source.name) in IndexOf(joint, aliases)
        ensures IndexOf(joint, aliases)[Key(joint, a.source.name)] == Entry(a)
      {
        var i :| 0 <= i < |aliases| && aliases[i] == a;
        if i < n {
          assert a == init[i] && a in init;
          assert a.source.name != last.source.name;
          KeysCollideIff(joint, a.source.name, joint, last.source.name);
        }
      }
    }
  }

  lemma {:induction false} IndexOfNothingElse(joint: string, aliases: seq<Alias>, k: string)
    requires k in IndexOf(joint, aliases)
    ensures exists a | a in aliases :: k == Key(joint, a.source.name)
    decreases |aliases|
  {
    var n := |aliases| - 1;
    if k in IndexOf(joint, aliases[..n]) {
      IndexOfNothingElse(joint, aliases[..n], k);
    } else {
      assert aliases[n] in aliases;
    }
  }

  /** The aliases of a joint have distinct names and are interfaces of known slaves. */
  lemma CommandsAreDistinct(joint: string, joints: Joints, table: Table)
    requires joint in joints
    ensures DistinctNames(CommandsOf(joint, joints, table))
  {
    ResolveMeansFirstMatch(joints[joint], Command, table);
  }

  /** `k` is the full name of a command interface of one of the joints in `order`. */
  ghost predicate ExportedName(k: string, order: seq<string>, joints: Joints, table: Table)
    requires forall j | j in order :: j in joints
  {
    exists j | j in order :: exists a | a in CommandsOf(j, joints, table) :: k == Key(j, a.source.name)
  }

  /** The index holds nothing but exported names. */
  lemma {:induction false} IndexIsExported(order: seq<string>, joints: Joints, table: Table, k: string)
    requires forall j | j in order :: j in joints
    requires k in ExportIndex(order, joints, table)
    ensures ExportedName(k, order, joints, table)
    decreases |order|
  {
    var init, last := order[..|order| - 1], order[|order| - 1];
    if k in ExportIndex(init, joints, table) {
      IndexIsExported(init, joints, table, k);
    } else {
      IndexOfNothingElse(last, CommandsOf(last, joints, table), k);
      assert last in order;
    }
  }

  /** Wherever the joints `i` and `j` export overlapping names, they export the same interface. */
  ghost predicate NoClashOf(i: string, j: string, joints: Joints, table: Table)
    requires i in joints && j in joints
  {
    forall a, b | a in CommandsOf(i, joints, table) && b in CommandsOf(j, joints, table) ::
      Overlap(i, a.source.name, j, b.source.name) ==> Entry(a) == Entry(b)
  }

  ghost predicate NoClash(order: seq<string>, joints: Joints, table: Table)
    requires forall j | j in order :: j in joints
  {
    forall i, j | i in order && j in order :: NoClashOf(i, j, joints, table)
  }

  /** The index gives each command interface of `j` as the slave and interface it aliases. */
  ghost predicate Indexed(index: Index, j: string, joints: Joints, table: Table)
    requires j in joints
  {
    forall a | a in CommandsOf(j, joints, table) ::
      Key(j, a.source.name) in index && index[Key(j, a.source.name)] == Entry(a)
  }

  /** Exports under the same full name are the same interface. */
  lemma SameKeySameEntry(i: string, a: Alias, j: string, b: Alias, joints: Joints, table: Table)
    requires i in joints && j in joints && NoClashOf(i, j, joints, table)
    requires a in CommandsOf(i, joints, table) && b in CommandsOf(j, joints, table)
    requires Key(i, a.source.name) == Key(j, b.source.name)
    ensures Entry(a) == Entry(b)
  {
    KeysCollideIff(i, a.source.name, j, b.source.name);
    if i == j && a.source.name == b.source.name {
      CommandsAreDistinct(i, joints, table);
    }
  }

  lemma {:induction false} NoClashIndexes(order: seq<string>, joints: Joints, table: Table)
    requires (forall i | i in order :: i in joints) && NoClash(order, joints, table)
    ensures forall j | j in order :: Indexed(ExportIndex(order, joints, table), j, joints, table)
    decreases |order|
  {
    if order != [] {
      var init, last := order[..|order| - 1], order[|order| - 1];
      NoClashIndexes(init, joints, table);
      CommandsAreDistinct(last, joints, table);
      IndexOfEntries(last, CommandsOf(last, joints, table));
      forall a | a in CommandsOf(last, joints, table) && Key(last, a.source.name) in ExportIndex(init, joints, table)
        ensures ExportIndex(init, joints, table)[Key(last, a.source.name)] == Entry(a)
      {
        EarlierEntry(init, joints, table, last, a);
      }
      assert Indexed(ExportIndex(order, joints, table), last, joints, table);
      forall j | j in init
        ensures Indexed(ExportIndex(order, joints, table), j, joints, table)
      {
        assert Indexed(ExportIndex(init, joints, table), j, joints, table);
      }
    }
  }

  lemma EarlierEntry(order: seq<string>, joints: Joints, table: Table, j: string, a: Alias)
    requires forall i | i in order :: i in joints
    requires forall i | i in order :: Indexed(ExportIndex(order, joints, table), i, joints, table)
    requires j in joints && a in CommandsOf(j, joints, table)
    requires forall i | i in order :: NoClashOf(i, j, joints, table)
    requires Key(j, a.source.name) in ExportIndex(order, joints, table)
    ensures ExportIndex(order, joints, table)[Key(j, a.source.name)] == Entry(a)
  {
    var k := Key(j, a.source.name);
    IndexIsExported(order, joints, table, k);
    var i :| i in order && exists b | b in CommandsOf(i, joints, table) :: k == Key(i, b.source.name);
    var b :| b in CommandsOf(i, joints, table) && k == Key(i, b.source.name);
    assert Indexed(ExportIndex(order, joints, table), i, joints, table);
    SameKeySameEntry(i, b, j, a, joints, table);
  }

  /** The index names every exported command interface as the slave and interface it aliases if
      and only if no two joints export overlapping names for different interfaces. */
  lemma IndexAgreesWithExportsIff(order: seq<string>, joints: Joints, table: Table)
    requires forall j | j in order :: j in joints
    ensures (forall j | j in order :: Indexed(ExportIndex(order, joints, table), j, joints, table))
       <==> NoClash(order, joints, table)
  {
    var index := ExportIndex(order, joints, table);
    if NoClash(order, joints, table) {
      NoClashIndexes(order, joints, table);
    } else {
      var i, j :| i in order && j in order && !NoClashOf(i, j, joints, table);
      ClashIsNotIndexed(index, i, j, joints, table);
    }
  }

  lemma ClashIsNotIndexed(index: Index, i: string, j: string, joints: Joints, table: Table)
    requires i in joints && j in joints && !NoClashOf(i, j, joints, table)
    ensures !Indexed(index, i, joints, table) || !Indexed(index, j, joints, table)
  {
    var a, b :| a in CommandsOf(i, joints, table) && b in CommandsOf(j, joints, table)
                && Overlap(i, a.source.name, j, b.source.name) && Entry(a) != Entry(b);
    KeysCollideIff(i, a.source.name, j, b.source.name);
  }

  /** Slash-free joint names are enough, and so are slash-free interface names. */
  lemma SlashFreeNamesDoNotClash(order: seq<string>, joints: Joints, table: Table)
    requires forall j | j in order :: j in joints
    requires || (forall j | j in order :: SlashFree(j))
             || (forall j, a | j in order && a in CommandsOf(j, joints, table) :: SlashFree(a.source.name))
    ensures NoClash(order, joints, table)
  {
    forall i, j | i in order && j in order
      ensures NoClashOf(i, j, joints, table)
    {
      forall a, b | a in CommandsOf(i, joints, table) && b in CommandsOf(j, joints, table)
        ensures !Overlap(i, a.source.name, j, b.source.name)
      {
        OverlapNeedsSlashes(i, a.source.name, j, b.source.name);
      }
    }
  }

  lemma IndexIsCovered(a: seq<string>, b: seq<string>, joints: Joints, table: Table, k: string)
    requires (forall j | j in a :: j in joints) && (forall j | j in b :: j in joints)
    requires (forall j | j in a :: j in b) && NoClash(b, joints, table)
    requires k in ExportIndex(a, joints, table)
    ensures k in ExportIndex(b, joints, table)
    ensures ExportIndex(a, joints, table)[k] == ExportIndex(b, joints, table)[k]
  {
    IndexIsExported(a, joints, table, k);
    var j :| j in a && exists c | c in CommandsOf(j, joints, table) :: k == Key(j, c.source.name);
    var c :| c in CommandsOf(j, joints, table) && k == Key(j, c.source.name);
    NoClashIndexes(a, joints, table);
    NoClashIndexes(b, joints, table);
    assert Indexed(ExportIndex(a, joints, table), j, joints, table);
    assert Indexed(ExportIndex(b, joints, table), j, joints, table);
  }

  lemma {:induction false} FirstJointWins(order: seq<string>, joints: Joints, table: Table, a: Alias)
    requires order != [] && forall j | j in order :: j in joints
    requires a in CommandsOf(order[0], joints, table)
    ensures var k, index := Key(order[0], a.source.name), ExportIndex(order, joints, table);
            k in index && index[k] == Entry(a)
    decreases |order|
  {
    var n := |order| - 1;
    if n == 0 {
      CommandsAreDistinct(order[0], joints, table);
      IndexOfEntries(order[0], CommandsOf(order[0], joints, table));
    } else {
      FirstJointWins(order[..n], joints, table, a);
    }
  }

  predicate Distinct(xs: seq<string>) {
    forall i, j | 0 <= i < j < |xs| :: xs[i] != xs[j]
  }

  /** `a` is an order in which a map may yield the joints of `b`: each once. */
  ghost predicate SameJoints(a: seq<string>, b: seq<string>) {
    Distinct(a) && forall j :: j in a <==> j in b
  }

  /** Every order that visits the joints of `order` gives the same index. */
  ghost predicate OrderIsIrrelevant(order: seq<string>, joints: Joints, table: Table)
    requires forall j | j in order :: j in joints
  {
    forall a, b | SameJoints(a, order) && SameJoints(b, order) ::
      ExportIndex(a, joints, table) == ExportIndex(b, joints, table)
  }

  lemma NoClashIgnoresOrder(order: seq<string>, joints: Joints, table: Table)
    requires (forall j | j in order :: j in joints) && NoClash(order, joints, table)
    ensures OrderIsIrrelevant(order, joints, table)
  {
    forall a, b | SameJoints(a, order) && SameJoints(b, order)
      ensures ExportIndex(a, joints, table) == ExportIndex(b, joints, table)
    {
      assert NoClash(a, joints, table) && NoClash(b, joints, table);
      forall k | k in ExportIndex(a, joints, table)
        ensures k in ExportIndex(b, joints, table)
        ensures ExportIndex(a, joints, table)[k] == ExportIndex(b, joints, table)[k]
      {
        IndexIsCovered(a, b, joints, table, k);
      }
      forall k | k in ExportIndex(b, joints, table)
        ensures k in ExportIndex(a, joints, table)
      {
        IndexIsCovered(b, a, joints, table, k);
      }
    }
  }

  function Without(order: seq<string>, j: string): seq<string> {
    if order == [] then []
    else
      Without(order[..|order| - 1], j) + if order[|order| - 1] == j then [] else [order[|order| - 1]]
  }

  lemma {:induction false} WithoutOne(order: seq<string>, j: string)
    requires Distinct(order)
    ensures Distinct(Without(order, j))
    ensures forall i :: i in Without(order, j) <==> i in order && i != j
    decreases |order|
  {
    if order != [] {
      var init, last := order[..|order| - 1], order[|order| - 1];
      WithoutOne(init, j);
      assert order == init + [last];
      assert last !in init;
    }
  }

  /** The same order with `j` moved to the front. */
  function Front(order: seq<string>, j: string): seq<string> {
    [j] + Without(order, j)
  }

  lemma FrontVisitsTheSame(order: seq<string>, j: string)
    requires Distinct(order) && j in order
    ensures SameJoints(Front(order, j), order)
  {
    WithoutOne(order, j);
  }

  lemma ClashNeedsOrder(order: seq<string>, joints: Joints, table: Table)
    requires Distinct(order) && (forall k | k in order :: k in joints) && !NoClash(order, joints, table)
    ensures !OrderIsIrrelevant(order, joints, table)
  {
    var i, j :| i in order && j in order && !NoClashOf(i, j, joints, table);
    FrontVisitsTheSame(order, i);
    FrontVisitsTheSame(order, j);
    ClashingFirst(Front(order, i), Front(order, j), joints, table);
    OrdersDiffer(order, Front(order, i), Front(order, j), joints, table);
  }

  lemma ClashingFirst(x: seq<string>, y: seq<string>, joints: Joints, table: Table)
    requires x != [] && y != [] && (forall k | k in x :: k in joints) && (forall k | k in y :: k in joints)
    requires !NoClashOf(x[0], y[0], joints, table)
    ensures ExportIndex(x, joints, table) != ExportIndex(y, joints, table)
  {
    var a, b :| a in CommandsOf(x[0], joints, table) && b in CommandsOf(y[0], joints, table)
                && Overlap(x[0], a.source.name, y[0], b.source.name) && Entry(a) != Entry(b);
    KeysCollideIff(x[0], a.source.name, y[0], b.source.name);
    FirstJointWins(x, joints, table, a);
    FirstJointWins(y, joints, table, b);
  }

  lemma OrdersDiffer(order: seq<string>, a: seq<string>, b: seq<string>, joints: Joints, table: Table)
    requires (forall k | k in order :: k in joints) && SameJoints(a, order) && SameJoints(b, order)
    requires ExportIndex(a, joints, table) != ExportIndex(b, joints, table)
    ensures !OrderIsIrrelevant(order, joints, table)
  {
  }

  /** The index depends on the order in which the joints are visited, each once, exactly if two of
      them export overlapping names for different interfaces. */
  lemma IndexIgnoresOrderIff(order: seq<string>, joints: Joints, table: Table)
    requires Distinct(order) && forall j | j in order :: j in joints
    ensures OrderIsIrrelevant(order, joints, table) <==> NoClash(order, joints, table)
  {
    if NoClash(order, joints, table) {
      NoClashIgnoresOrder(order, joints, table);
    } else {
      ClashNeedsOrder(order, joints, table);
    }
  }

  /** Names can overlap: joint "a" takes all of slave "s" and so exports "b/c", joint "a/b" claims
      its interface "c". The entry of the second is lost. */
  lemma SlashedNamesCollide() returns (table: Table, ids: map<string, seq<string>>, lost: Alias)
    ensures "a" in ids && "a/b" in ids && AllTokenizable(ids["a"]) && AllTokenizable(ids["a/b"])
    ensures var joints: Joints := map["a" := ClaimsOf(ids["a"]), "a/b" := ClaimsOf(ids["a/b"])];
            && CommandsOf("a/b", joints, table) == [lost]
            && Key("a/b", lost.source.name) in ExportIndex(["a", "a/b"], joints, table)
            && ExportIndex(["a", "a/b"], joints, table)[Key("a/b", lost.source.name)] != Entry(lost)
  {
    var long, short := Interface("x", "b/c", 0), Interface("x", "c", 1);
    table := map["s" := Exports([], [long, short])];
    var all, one := CollidingClaims();
    ids := map["a" := [all], "a/b" := [one]];
    lost := Alias("s", short);
    var joints: Joints := map["a" := ClaimsOf(ids["a"]), "a/b" := ClaimsOf(ids["a/b"])];
    CollidingCommands(table, joints, long, short);
    LostEntry(joints, table, Alias("s", long), lost);
  }

  lemma CollidingClaims() returns (all: string, one: string)
    ensures Tokenizable(all) && ClaimsOf([all]) == [Claim("s", "x", "", "")]
    ensures Tokenizable(one) && ClaimsOf([one]) == [Claim("s", "x", "command", "c")]
  {
    all, one := "s" + "/" + "x", "s" + "/" + ("x" + "/" + ("command" + "/" + "c"));
    TokenizeReads("s", "x", "command", "c");
  }

  lemma LostEntry(joints: Joints, table: Table, first: Alias, lost: Alias)
    requires "a" in joints && "a/b" in joints && first in CommandsOf("a", joints, table)
    requires first.source.name == "b/c" && lost.source.name == "c"
    requires first.source.prefix == lost.source.prefix == "x"
    ensures var k, index := Key("a/b", lost.source.name), ExportIndex(["a", "a/b"], joints, table);
            k in index && index[k] != Entry(lost)
  {
    FirstJointWins(["a", "a/b"], joints, table, first);
    assert Key("a", "b/c") == Key("a/b", "c");
    assert Entry(first).1 == "x/b/c" && Entry(lost).1 == "x/c";
  }

  lemma CollidingCommands(table: Table, joints: Joints, long: Interface, short: Interface)
    requires long == Interface("x", "b/c", 0) && short == Interface("x", "c", 1)
    requires "s" in table && table["s"].command == [long, short]
    requires "a" in joints && joints["a"] == [Claim("s", "x", "", "")]
    requires "a/b" in joints && joints["a/b"] == [Claim("s", "x", "command", "c")]
    ensures CommandsOf("a", joints, table) == [Alias("s", long), Alias("s", short)]
    ensures CommandsOf("a/b", joints, table) == [Alias("s", short)]
  {
    var whole, single := Claim("s", "x", "", ""), Claim("s", "x", "command", "c");
    ResolveOne([], whole, Command, table);
    ResolveOne([], single, Command, table);
    ScanOne([], whole, long);
    assert [long, short][..1] == [long];
    assert FirstFit(single, [long, short]) == 1 by {
      assert Fits(single, [long, short][1]) && !Fits(single, [long, short][0]);
    }
    ScanOne([], single, short);
  }

  /** What an index entry names: the value cell of the first interface of that slave with that
      full name. */
  ghost predicate NamesCellIn(name: string, cell: nat, ifs: seq<Interface>) {
    exists k :: 0 <= k < |ifs|
                && FullName(ifs[k]) == name && ifs[k].cell == cell
                && forall j | 0 <= j < k :: FullName(ifs[j]) != name
  }

  ghost predicate NamesCell(e: (string, string), cell: nat, table: Table) {
    e.0 in table && NamesCellIn(e.1, cell, table[e.0].command)
  }

  /** Interfaces of a slave with overlapping prefixes and names share their value cell. */
  ghost predicate CellsApart(ifs: seq<Interface>) {
    forall x, y | x in ifs && y in ifs && FirstIn(x, ifs) && FirstIn(y, ifs) ::
      Overlap(x.prefix, x.name, y.prefix, y.name) ==> x.cell == y.cell
  }

  /** The first interface of a full name, given one of that name. */
  function FirstNamed(name: string, ifs: seq<Interface>): (k: nat)
    ensures k <= |ifs|
    ensures k < |ifs| ==> FullName(ifs[k]) == name
    ensures forall j | 0 <= j < k :: FullName(ifs[j]) != name
  {
    if ifs == [] || FullName(ifs[0]) == name then 0 else 1 + FirstNamed(name, ifs[1..])
  }

  lemma CellsApartName(ifs: seq<Interface>, x: Interface)
    requires CellsApart(ifs) && FirstIn(x, ifs)
    ensures NamesCellIn(FullName(x), x.cell, ifs)
  {
    var k := FirstNamed(FullName(x), ifs);
    var at :| 0 <= at < |ifs| && ifs[at] == x &&
              forall j | 0 <= j < at :: !(ifs[j].prefix == x.prefix && ifs[j].name == x.name);
    assert k <= at;
    var y := ifs[k];
    KeysCollideIff(x.prefix, x.name, y.prefix, y.name);
    if k < at {
      assert FirstIn(y, ifs);
    }
  }

  /** Every interface of a slave has its own cell named by its full name if and only if
      interfaces with overlapping names share their cell. */
  lemma FullNamesNameCellsIff(ifs: seq<Interface>)
    ensures (forall x | x in ifs && FirstIn(x, ifs) :: NamesCellIn(FullName(x), x.cell, ifs)) <==> CellsApart(ifs)
  {
    if CellsApart(ifs) {
      forall x | x in ifs && FirstIn(x, ifs)
        ensures NamesCellIn(FullName(x), x.cell, ifs)
      {
        CellsApartName(ifs, x);
      }
    } else {
      var x, y :| x in ifs && y in ifs && FirstIn(x, ifs) && FirstIn(y, ifs)
                  && Overlap(x.prefix, x.name, y.prefix, y.name) && x.cell != y.cell;
      KeysCollideIff(x.prefix, x.name, y.prefix, y.name);
      if NamesCellIn(FullName(x), x.cell, ifs) && NamesCellIn(FullName(y), y.cell, ifs) {
        OneCellPerName(FullName(x), x.cell, y.cell, ifs);
      }
    }
  }

  lemma OneCellPerName(name: string, c: nat, d: nat, ifs: seq<Interface>)
    requires NamesCellIn(name, c, ifs) && NamesCellIn(name, d, ifs)
    ensures c == d
  {
  }

  /** The index entry of an exported command interface names the cell its alias writes. */
  lemma EntryNamesAliasedCell(joint: string, joints: Joints, table: Table, a: Alias)
    requires joint in joints && a in CommandsOf(joint, joints, table)
    requires a.slave in table ==> CellsApart(table[a.slave].command)
    ensures NamesCell(Entry(a), a.source.cell, table)
  {
    ResolveFromTable(joints[joint], Command, table);
    CellsApartName(table[a.slave].command, a.source);
  }

  /// Routing

  /** Reading an entry with `operator[]`: an unknown request gives two empty names. */
  function Lookup(index: Index, request: string): (string, string) {
    if request in index then index[request] else ("", "")
  }

  /** The requests mapped to `slave`, in request order, as the slave knows them. */
  function Routed(index: Index, requests: seq<string>, slave: string): seq<string> {
    if requests == [] then []
    else
      var (s, claim) := Lookup(index, requests[|requests| - 1]);
      Routed(index, requests[..|requests| - 1], slave) + if s == slave then [claim] else []
  }

  /** `operator[]` leaves a default entry for every unknown request. */
  function WithDefaults(index: Index, requests: seq<string>): Index {
    if requests == [] then index
    else
      var before := WithDefaults(index, requests[..|requests| - 1]);
      before[requests[|requests| - 1] := Lookup(before, requests[|requests| - 1])]
  }

  lemma {:induction false} DefaultsDoNotMatter(index: Index, requests: seq<string>, r: string)
    ensures Lookup(WithDefaults(index, requests), r) == Lookup(index, r)
    decreases |requests|
  {
    if requests != [] {
      DefaultsDoNotMatter(index, requests[..|requests| - 1], r);
    }
  }

  /** Default entries inserted for unknown names never change later routing. */
  lemma {:induction false} RoutingIgnoresDefaults(index: Index, requests: seq<string>, later: seq<string>, slave: string)
    ensures Routed(WithDefaults(index, requests), later, slave) == Routed(index, later, slave)
    decreases |later|
  {
    if later != [] {
      RoutingIgnoresDefaults(index, requests, later[..|later| - 1], slave);
      DefaultsDoNotMatter(index, requests, later[|later| - 1]);
    }
  }

  function TotalRouted(index: Index, requests: seq<string>, slaves: seq<string>): nat {
    if slaves == [] then 0
    else
      TotalRouted(index, requests, slaves[..|slaves| - 1]) + |Routed(index, requests, slaves[|slaves| - 1])|
  }

  lemma {:induction false} OneMoreRouted(index: Index, requests: seq<string>, slaves: seq<string>)
    requires Distinct(slaves) && requests != []
    ensures var s := Lookup(index, requests[|requests| - 1]).0;
            TotalRouted(index, requests, slaves)
            == TotalRouted(index, requests[..|requests| - 1], slaves) + if s in slaves then 1 else 0
    decreases |slaves|
  {
    if slaves != [] {
      var init, last := slaves[..|slaves| - 1], slaves[|slaves| - 1];
      assert last !in init;
      assert slaves == init + [last];
      OneMoreRouted(index, requests, init);
    }
  }

  /** No request is lost or duplicated: if every request is mapped to some slave, the lists of
      all slaves together are as long as the list of requests. */
  lemma {:induction false} RoutingConserves(index: Index, requests: seq<string>, slaves: seq<string>)
    requires Distinct(slaves)
    ensures TotalRouted(index, requests, slaves) <= |requests|
    ensures TotalRouted(index, requests, slaves) == |requests|
       <==> forall r | r in requests :: Lookup(index, r).0 in slaves
    decreases |requests|
  {
    if requests == [] {
      NothingRouted(index, slaves);
    } else {
      var init, last := requests[..|requests| - 1], requests[|requests| - 1];
      OneMoreRouted(index, requests, slaves);
      RoutingConserves(index, init, slaves);
      assert requests == init + [last];
    }
  }

  lemma {:induction false} NothingRouted(index: Index, slaves: seq<string>)
    ensures TotalRouted(index, [], slaves) == 0
    decreases |slaves|
  {
    if slaves != [] {
      NothingRouted(index, slaves[..|slaves| - 1]);
    }
  }

  /// The two-phase switch

  /** What a switch makes of one slave. */
  function SlaveSwitch(index: Index, slave: Slave, name: string, starts: seq<string>, stops: seq<string>): Option<Slave> {
    SwitchedSlave(slave, Routed(index, starts, name), Routed(index, stops, name))
  }

  predicate AllSwitch(index: Index, slaves: map<string, Slave>, starts: seq<string>, stops: seq<string>) {
    forall s | s in slaves :: SlaveSwitch(index, slaves[s], s, starts, stops).Some?
  }

  /** The slaves a perform leaves: a slave that refuses keeps its mode. */
  function Performed(index: Index, slaves: map<string, Slave>, starts: seq<string>, stops: seq<string>): map<string, Slave> {
    map s | s in slaves ::
      match SlaveSwitch(index, slaves[s], s, starts, stops)
      case Some(m) => m
      case None => slaves[s]
  }

  /** `transmission_command_interface_map` applied to a list of requests. */
  function Translated(transmissions: map<string, string>, requests: seq<string>): (r: seq<string>)
    ensures |r| == |requests|
  {
    seq(|requests|, i requires 0 <= i < |requests| =>
      if requests[i] in transmissions then transmissions[requests[i]] else requests[i])
  }

  /** What a prepare leaves in the index. */
  function AfterPrepare(index: Index, starts: seq<string>, stops: seq<string>): Index {
    WithDefaults(WithDefaults(index, starts), stops)
  }

  lemma PrepareKeepsRouting(index: Index, starts: seq<string>, stops: seq<string>, later: seq<string>, slave: string)
    ensures Routed(AfterPrepare(index, starts, stops), later, slave) == Routed(index, later, slave)
  {
    RoutingIgnoresDefaults(WithDefaults(index, starts), stops, later, slave);
    RoutingIgnoresDefaults(index, starts, later, slave);
  }

  /** The perform that follows a prepare with the same arguments is accepted exactly if the
      prepare was, and leaves each slave that can switch in the last of its base mode and its
      routed start modes, and every other as it was. */
  lemma TwoPhaseSwitch(index: Index, slaves: map<string, Slave>, starts: seq<string>, stops: seq<string>)
    ensures AllSwitch(AfterPrepare(index, starts, stops), slaves, starts, stops)
       <==> AllSwitch(index, slaves, starts, stops)
    ensures forall s | s in slaves ::
              Performed(AfterPrepare(index, starts, stops), slaves, starts, stops)[s]
              == Outcome(slaves[s], Routed(index, starts, s), Routed(index, stops, s))
  {
    forall s | s in slaves
      ensures SlaveSwitch(AfterPrepare(index, starts, stops), slaves[s], s, starts, stops)
           == SlaveSwitch(index, slaves[s], s, starts, stops)
      ensures Performed(AfterPrepare(index, starts, stops), slaves, starts, stops)[s]
           == Outcome(slaves[s], Routed(index, starts, s), Routed(index, stops, s))
    {
      PrepareKeepsRouting(index, starts, stops, starts, s);
      PrepareKeepsRouting(index, starts, stops, stops, s);
      SlaveClosedForm(slaves[s], Routed(index, starts, s), Routed(index, stops, s));
    }
  }

  /** A perform, prepared or not, switches all slaves or none if and only if every slave accepts
      its routed requests, or none of those that accept is changed by them. */
  lemma PerformSwitchesAllOrNoneIff(index: Index, slaves: map<string, Slave>, starts: seq<string>, stops: seq<string>)
    ensures (AllSwitch(index, slaves, starts, stops) || Performed(index, slaves, starts, stops) == slaves)
       <==> || (forall s | s in slaves :: Accepts(slaves[s], Routed(index, starts, s), Routed(index, stops, s)))
            || (forall s | s in slaves ::
                  Outcome(slaves[s], Routed(index, starts, s), Routed(index, stops, s)) == slaves[s])
  {
    forall s | s in slaves
      ensures SlaveSwitch(index, slaves[s], s, starts, stops).Some?
         <==> Accepts(slaves[s], Routed(index, starts, s), Routed(index, stops, s))
      ensures Performed(index, slaves, starts, stops)[s]
           == Outcome(slaves[s], Routed(index, starts, s), Routed(index, stops, s))
    {
      SlaveClosedForm(slaves[s], Routed(index, starts, s), Routed(index, stops, s));
    }
    var done := Performed(index, slaves, starts, stops);
    assert done == slaves <==> forall s | s in slaves :: done[s] == slaves[s];
  }

  /** A perform without an accepted prepare can switch one slave and not another. */
  lemma PerformAloneCanSplit() returns (index: Index, slaves: map<string, Slave>, starts: seq<string>)
    ensures |slaves| == 2 && !AllSwitch(index, slaves, starts, [])
    ensures "s" in slaves && "t" in slaves
    ensures slaves["s"] == Drive(STOP) && Performed(index, slaves, starts, [])["s"] == Drive(VELOCITY)
    ensures slaves["t"] == Drive(POSITION) && Performed(index, slaves, starts, [])["t"] == Drive(POSITION)
  {
    index := map["a/v" := ("s", "drive/velocity"), "b/v" := ("t", "drive/velocity")];
    slaves := map["s" := Drive(STOP), "t" := Drive(POSITION)];
    starts := ["a/v", "b/v"];
    assert starts[..1] == ["a/v"];
    assert ["a/v"][..0] == [];
    assert Routed(index, [], "s") == [] && Routed(index, [], "t") == [];
    assert Routed(index, ["a/v"], "s") == ["drive/velocity"];
    assert Routed(index, ["a/v"], "t") == [];
    assert Routed(index, starts, "s") == ["drive/velocity"];
    assert Routed(index, starts, "t") == ["drive/velocity"];
    assert ["drive/velocity"][1..] == [];
    assert SlaveSwitch(index, Drive(STOP), "s", starts, []) == Some(Drive(VELOCITY));
    assert SlaveSwitch(index, slaves["t"], "t", starts, []) == None;
  }
}
