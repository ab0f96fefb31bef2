/** Claim resolution (claims_resolver.cpp): how a joint's claims select interfaces of slaves, what
    that selection means, and which rewritings of the claims leave it unchanged. */
module Claims {
  /// Claim identifiers

  predicate SlashFree(s: string) {
    '/' !in s
  }

  /** The fields of `s` between slashes. */
  function Fields(s: string): (r: seq<string>)
    ensures |r| >= 1
  {
    if s == "" then [""]
    else
      var rest := Fields(s[1..]);
      if s[0] == '/' then [""] + rest else [[s[0]] + rest[0]] + rest[1..]
  }

  lemma {:induction false} FieldsOfPlain(t: string)
    requires SlashFree(t)
    ensures Fields(t) == [t]
    decreases |t|
  {
    if t != "" {
      FieldsOfPlain(t[1..]);
      assert [t[0]] + t[1..] == t;
    }
  }

  lemma {:induction false} FieldsOfJoined(t: string, rest: string)
    requires SlashFree(t)
    ensures Fields(t + "/" + rest) == [t] + Fields(rest)
    decreases |t|
  {
    var s := t + "/" + rest;
    if t == "" {
      assert s[1..] == rest;
    } else {
      assert s[1..] == t[1..] + "/" + rest;
      FieldsOfJoined(t[1..], rest);
      assert [t[0]] + t[1..] == t;
    }
  }

  datatype Claim = Claim(slave: string, claim: string, kind: string, name: string)

  /** What the source demands of a claim: more fields overrun its array of four. */
  predicate Tokenizable(id: string) {
    |Fields(id)| <= 4
  }

  /** `tokenize_interface`: missing fields are empty. */
  function Tokenize(id: string): Claim
    requires Tokenizable(id)
  {
    var f := Fields(id);
    Claim(f[0],
          if |f| > 1 then f[1] else "",
          if |f| > 2 then f[2] else "",
          if |f| > 3 then f[3] else "")
  }

  /** The ways to write a claim are read back as they were meant. */
  lemma TokenizeReads(s: string, c: string, kind: string, name: string)
    requires SlashFree(s) && SlashFree(c) && SlashFree(kind) && SlashFree(name)
    ensures Tokenizable(s) && Tokenize(s) == Claim(s, "", "", "")
    ensures var whole := s + "/" + c;
            && Tokenizable(whole) && Tokenize(whole) == Claim(s, c, "", "")
    ensures var half := s + "/" + (c + "/" + kind);
            && Tokenizable(half) && Tokenize(half) == Claim(s, c, kind, "")
    ensures var single := s + "/" + (c + "/" + (kind + "/" + name));
            && Tokenizable(single) && Tokenize(single) == Claim(s, c, kind, name)
  {
    FieldsOfPlain(s);
    FieldsOfPlain(c);
    FieldsOfPlain(kind);
    FieldsOfPlain(name);
    FieldsOfJoined(s, c);
    FieldsOfJoined(c, kind);
    FieldsOfJoined(s, c + "/" + kind);
    FieldsOfJoined(kind, name);
    FieldsOfJoined(c, kind + "/" + name);
    FieldsOfJoined(s, c + "/" + (kind + "/" + name));
  }

  /// Resolution

  /** An interface a slave exports; `cell` stands for the address of its value. */
  datatype Interface = Interface(prefix: string, name: string, cell: nat)

  datatype Kind = State | Command

  datatype Exports = Exports(state: seq<Interface>, command: seq<Interface>)

  type Table = map<string, Exports>

  function Of(e: Exports, kind: Kind): seq<Interface> {
    if kind.State? then e.state else e.command
  }

  function KindName(kind: Kind): string {
    if kind.State? then "state" else "command"
  }

  /** An interface of a joint: it has the source's name and aliases the source's value. */
  datatype Alias = Alias(slave: string, source: Interface)

  function Names(aliases: seq<Alias>): set<string> {
    set a | a in aliases :: a.source.name
  }

  predicate Wants(c: Claim, kind: Kind, table: Table) {
    (c.kind == "" || c.kind == KindName(kind)) && c.slave in table
  }

  predicate Fits(c: Claim, x: Interface) {
    x.prefix == c.claim && x.name == c.name
  }

  /** The first interface a single-interface claim fits, or the end. */
  function FirstFit(c: Claim, ifs: seq<Interface>): (k: nat)
    ensures k <= |ifs|
    ensures k < |ifs| ==> Fits(c, ifs[k])
    ensures forall j | 0 <= j < k :: !Fits(c, ifs[j])
  {
    if ifs == [] || Fits(c, ifs[0]) then 0 else 1 + FirstFit(c, ifs[1..])
  }

  /** The part of a slave's interfaces a claim goes through. */
  function Selected(c: Claim, ifs: seq<Interface>): seq<Interface> {
    if c.name == "" then ifs
    else
      var k := FirstFit(c, ifs);
      if k < |ifs| then [ifs[k]] else []
  }

  /** Map the interfaces of `ifs` under the claim's prefix whose name the joint does not have. */
  function Scan(acc: seq<Alias>, c: Claim, ifs: seq<Interface>): seq<Alias> {
    if ifs == [] then acc
    else
      var before, x := Scan(acc, c, ifs[..|ifs| - 1]), ifs[|ifs| - 1];
      if x.prefix == c.claim && x.name !in Names(before) then before + [Alias(c.slave, x)] else before
  }

  function ResolveClaim(acc: seq<Alias>, c: Claim, kind: Kind, table: Table): seq<Alias> {
    if Wants(c, kind, table) then Scan(acc, c, Selected(c, Of(table[c.slave], kind))) else acc
  }

  /** Work off `claims` for a joint that already has `acc`. */
  function ResolveFrom(acc: seq<Alias>, claims: seq<Claim>, kind: Kind, table: Table): seq<Alias> {
    if claims == [] then acc
    else
      ResolveClaim(ResolveFrom(acc, claims[..|claims| - 1], kind, table), claims[|claims| - 1], kind, table)
  }

  /** The interfaces of a joint with the given claims. */
  function Resolve(claims: seq<Claim>, kind: Kind, table: Table): seq<Alias> {
    ResolveFrom([], claims, kind, table)
  }

  /// What resolution means

  /** What a claim covers, read declaratively: every interface of the slave under the claim's
      prefix and, if the claim names one, of that name. */
  predicate Covers(c: Claim, x: Interface) {
    x.prefix == c.claim && (c.name == "" || x.name == c.name)
  }

  function CoveredIn(c: Claim, ifs: seq<Interface>): seq<Alias> {
    if ifs == [] then []
    else
      CoveredIn(c, ifs[..|ifs| - 1]) +
      if Covers(c, ifs[|ifs| - 1]) then [Alias(c.slave, ifs[|ifs| - 1])] else []
  }

  function CoveredBy(c: Claim, kind: Kind, table: Table): seq<Alias> {
    if Wants(c, kind, table) then CoveredIn(c, Of(table[c.slave], kind)) else []
  }

  /** Everything the claims cover, in the order of the claims, then of each slave. */
  function Candidates(claims: seq<Claim>, kind: Kind, table: Table): seq<Alias> {
    if claims == [] then []
    else Candidates(claims[..|claims| - 1], kind, table) + CoveredBy(claims[|claims| - 1], kind, table)
  }

  /** Said in the fields of claims and table alone: a candidate is an interface some claim covers. */
  lemma {:induction false} CandidatesInFields(claims: seq<Claim>, kind: Kind, table: Table)
    ensures forall a :: a in Candidates(claims, kind, table) <==> exists c :: c in claims && CoversInFields(c, kind, table, a)
    decreases |claims|
  {
    if claims != [] {
      var init, c := claims[..|claims| - 1], claims[|claims| - 1];
      CandidatesInFields(init, kind, table);
      CoveredByInFields(c, kind, table);
      assert claims == init + [c];
      forall a
        ensures a in Candidates(claims, kind, table) <==> exists d :: d in claims && CoversInFields(d, kind, table, a)
      {
        assert c in claims;
      }
    }
  }

  predicate CoversInFields(c: Claim, kind: Kind, table: Table, a: Alias) {
    && a.slave == c.slave && c.slave in table
    && (c.kind == "" || c.kind == if kind.State? then "state" else "command")
    && a.source in (if kind.State? then table[c.slave].state else table[c.slave].command)
    && a.source.prefix == c.claim && (c.name == "" || a.source.name == c.name)
  }

  lemma CoveredByInFields(c: Claim, kind: Kind, table: Table)
    ensures forall a :: a in CoveredBy(c, kind, table) <==> CoversInFields(c, kind, table, a)
  {
    if Wants(c, kind, table) {
      CoveredInIff(c, Of(table[c.slave], kind));
    }
  }

  predicate DistinctNames(aliases: seq<Alias>) {
    forall i, j | 0 <= i < j < |aliases| :: aliases[i].source.name != aliases[j].source.name
  }

  /** Candidate `i` is the first of its name. */
  predicate FirstOfName(cs: seq<Alias>, i: nat)
    requires i < |cs|
  {
    forall j | 0 <= j < i :: cs[j].source.name != cs[i].source.name
  }

  /** `aliases` holds exactly the first candidate of every name. */
  ghost predicate FirstMatches(aliases: seq<Alias>, cs: seq<Alias>) {
    && DistinctNames(aliases)
    && (forall a | a in aliases :: exists i :: 0 <= i < |cs| && cs[i] == a && FirstOfName(cs, i))
    && (forall a | a in cs :: a.source.name in Names(aliases))
  }

  lemma FirstMatchesGrow(aliases: seq<Alias>, cs: seq<Alias>, x: Alias)
    requires FirstMatches(aliases, cs)
    ensures x.source.name in Names(aliases) ==> FirstMatches(aliases, cs + [x])
    ensures x.source.name !in Names(aliases) ==> FirstMatches(aliases + [x], cs + [x])
  {
    var cs' := cs + [x];
    forall a | a in aliases
      ensures exists i :: 0 <= i < |cs'| && cs'[i] == a && FirstOfName(cs', i)
    {
      var i :| 0 <= i < |cs| && cs[i] == a && FirstOfName(cs, i);
      assert cs'[i] == a && FirstOfName(cs', i);
    }
    if x.source.name !in Names(aliases) {
      assert cs'[|cs|] == x && FirstOfName(cs', |cs|);
      forall i | 0 <= i < |aliases|
        ensures aliases[i].source.name != x.source.name
      {
        assert aliases[i] in aliases;
      }
    }
  }

  lemma {:induction false} ScanTakesFirst(acc: seq<Alias>, cs: seq<Alias>, c: Claim, ifs: seq<Interface>)
    requires FirstMatches(acc, cs) && c.name == ""
    ensures FirstMatches(Scan(acc, c, ifs), cs + CoveredIn(c, ifs))
    decreases |ifs|
  {
    if ifs == [] {
      assert cs + CoveredIn(c, ifs) == cs;
    } else {
      var init, x := ifs[..|ifs| - 1], ifs[|ifs| - 1];
      ScanTakesFirst(acc, cs, c, init);
      if Covers(c, x) {
        FirstMatchesGrow(Scan(acc, c, init), cs + CoveredIn(c, init), Alias(c.slave, x));
        assert cs + CoveredIn(c, ifs) == cs + CoveredIn(c, init) + [Alias(c.slave, x)];
      } else {
        assert CoveredIn(c, ifs) == CoveredIn(c, init);
      }
    }
  }

  /** The name a single-interface claim asks for is there once any fitting interface has been
      passed. */
  lemma {:induction false} SingleTakesFirst(acc: seq<Alias>, cs: seq<Alias>, c: Claim, ifs: seq<Interface>)
    requires FirstMatches(acc, cs) && c.name != ""
    ensures FirstMatches(Scan(acc, c, Selected(c, ifs)), cs + CoveredIn(c, ifs))
    ensures FirstFit(c, ifs) < |ifs| ==> c.name in Names(Scan(acc, c, Selected(c, ifs)))
    decreases |ifs|
  {
    if ifs == [] {
      assert cs + CoveredIn(c, ifs) == cs;
    } else {
      var init, x := ifs[..|ifs| - 1], ifs[|ifs| - 1];
      SingleTakesFirst(acc, cs, c, init);
      var k := FirstFit(c, init);
      assert FirstFit(c, ifs) == if k < |init| || Fits(c, x) then k else k + 1;
      var got := Scan(acc, c, Selected(c, init));
      if Covers(c, x) {
        FirstMatchesGrow(got, cs + CoveredIn(c, init), Alias(c.slave, x));
        assert cs + CoveredIn(c, ifs) == cs + CoveredIn(c, init) + [Alias(c.slave, x)];
        if k == |init| {
          ScanOne(acc, c, x);
        }
      } else {
        assert CoveredIn(c, ifs) == CoveredIn(c, init);
      }
    }
  }

  lemma ScanOne(acc: seq<Alias>, c: Claim, x: Interface)
    ensures Scan(acc, c, [x])
         == if x.prefix == c.claim && x.name !in Names(acc) then acc + [Alias(c.slave, x)] else acc
  {
    assert [x][..0] == [];
  }

  /** A joint's interfaces have pairwise distinct names, cover exactly the names its claims cover,
      and each aliases the first covered interface of its name, in claim order and then in the
      slave's order. */
  lemma {:induction false} ResolveMeansFirstMatch(claims: seq<Claim>, kind: Kind, table: Table)
    ensures FirstMatches(Resolve(claims, kind, table), Candidates(claims, kind, table))
    decreases |claims|
  {
    if claims != [] {
      var init, c := claims[..|claims| - 1], claims[|claims| - 1];
      ResolveMeansFirstMatch(init, kind, table);
      var acc, cs := Resolve(init, kind, table), Candidates(init, kind, table);
      if !Wants(c, kind, table) {
        assert cs + [] == cs;
      } else if c.name == "" {
        ScanTakesFirst(acc, cs, c, Of(table[c.slave], kind));
      } else {
        SingleTakesFirst(acc, cs, c, Of(table[c.slave], kind));
      }
    }
  }

  /// Rewriting claims

  lemma {:induction false} ResolveConcat(acc: seq<Alias>, a: seq<Claim>, b: seq<Claim>, kind: Kind, table: Table)
    ensures ResolveFrom(acc, a + b, kind, table) == ResolveFrom(ResolveFrom(acc, a, kind, table), b, kind, table)
    decreases |b|
  {
    if b == [] {
      assert a + b == a;
    } else {
      var init := b[..|b| - 1];
      assert (a + b)[..|a + b| - 1] == a + init;
      ResolveConcat(acc, a, init, kind, table);
    }
  }

  lemma ResolveOne(acc: seq<Alias>, c: Claim, kind: Kind, table: Table)
    ensures ResolveFrom(acc, [c], kind, table) == ResolveClaim(acc, c, kind, table)
  {
    assert [c][..0] == [];
  }

  /** Claims that do the same to every joint may replace each other anywhere. */
  lemma ReplaceAnywhere(before: seq<Claim>, xs: seq<Claim>, ys: seq<Claim>, after: seq<Claim>, kind: Kind, table: Table)
    requires var acc := Resolve(before, kind, table);
             ResolveFrom(acc, xs, kind, table) == ResolveFrom(acc, ys, kind, table)
    ensures Resolve(before + xs + after, kind, table) == Resolve(before + ys + after, kind, table)
  {
    ResolveConcat([], before + xs, after, kind, table);
    ResolveConcat([], before + ys, after, kind, table);
    ResolveConcat([], before, xs, kind, table);
    ResolveConcat([], before, ys, kind, table);
  }

  /** A whole claim is its state half and its command half. */
  lemma WholeIsBothHalves(before: seq<Claim>, s: string, c: string, after: seq<Claim>, kind: Kind, table: Table)
    ensures Resolve(before + [Claim(s, c, "", "")] + after, kind, table)
         == Resolve(before + [Claim(s, c, "state", ""), Claim(s, c, "command", "")] + after, kind, table)
  {
    var acc := Resolve(before, kind, table);
    var whole, st, co := Claim(s, c, "", ""), Claim(s, c, "state", ""), Claim(s, c, "command", "");
    ResolveOne(acc, whole, kind, table);
    ResolveOne(acc, st, kind, table);
    ResolveConcat(acc, [st], [co], kind, table);
    ResolveOne(ResolveClaim(acc, st, kind, table), co, kind, table);
    assert [st, co] == [st] + [co];
    if kind.State? {
      ScanIgnoresKind(acc, whole, st, Selected(whole, if s in table then table[s].state else []));
    } else {
      ScanIgnoresKind(acc, whole, co, Selected(whole, if s in table then table[s].command else []));
    }
    ReplaceAnywhere(before, [whole], [st, co], after, kind, table);
  }

  lemma {:induction false} ScanIgnoresKind(acc: seq<Alias>, c: Claim, d: Claim, ifs: seq<Interface>)
    requires c.slave == d.slave && c.claim == d.claim
    ensures Scan(acc, c, ifs) == Scan(acc, d, ifs)
    decreases |ifs|
  {
    if ifs != [] {
      ScanIgnoresKind(acc, c, d, ifs[..|ifs| - 1]);
    }
  }

  /** The single-interface claims of `s/c` for one kind, in the slave's order. */
  function Singles(s: string, c: string, kind: Kind, ifs: seq<Interface>): seq<Claim> {
    if ifs == [] then []
    else
      var x := ifs[|ifs| - 1];
      Singles(s, c, kind, ifs[..|ifs| - 1]) +
      if x.prefix == c then [Claim(s, c, KindName(kind), x.name)] else []
  }

  lemma {:induction false} ScanHasPassed(acc: seq<Alias>, c: Claim, ifs: seq<Interface>, k: nat)
    requires k < |ifs| && ifs[k].prefix == c.claim
    ensures ifs[k].name in Names(Scan(acc, c, ifs))
    decreases |ifs|
  {
    var init, x := ifs[..|ifs| - 1], ifs[|ifs| - 1];
    var got := Scan(acc, c, init);
    if k < |init| {
      ScanHasPassed(acc, c, init, k);
    }
    NamesGrow(got, Alias(c.slave, x));
  }

  lemma NamesGrow(aliases: seq<Alias>, a: Alias)
    ensures Names(aliases + [a]) == Names(aliases) + {a.source.name}
  {
    assert forall b :: b in aliases + [a] <==> b in aliases || b == a;
  }

  /** A single-interface claim for interface `n`, once every earlier name is there. */
  lemma SingleTakesOwn(got: seq<Alias>, one: Claim, ifs: seq<Interface>, n: nat)
    requires n < |ifs| && one.claim == ifs[n].prefix && one.name == ifs[n].name != ""
    requires forall k | 0 <= k < n && ifs[k].prefix == one.claim :: ifs[k].name in Names(got)
    ensures Scan(got, one, Selected(one, ifs))
         == if ifs[n].name !in Names(got) then got + [Alias(one.slave, ifs[n])] else got
  {
    assert Fits(one, ifs[n]);
    var k := FirstFit(one, ifs);
    ScanOne(got, one, ifs[k]);
  }

  /** Working off the single-interface claims of a prefix of the slave's list does what scanning
      that prefix for the whole claim does. */
  lemma {:induction false} SinglesScan(acc: seq<Alias>, s: string, c: string, kind: Kind, table: Table, n: nat)
    requires s in table && n <= |Of(table[s], kind)|
    requires forall x | x in Of(table[s], kind) :: x.prefix == c ==> x.name != ""
    ensures ResolveFrom(acc, Singles(s, c, kind, Of(table[s], kind)[..n]), kind, table)
         == Scan(acc, Claim(s, c, "", ""), Of(table[s], kind)[..n])
    decreases n
  {
    if n > 0 {
      var ifs, whole := Of(table[s], kind), Claim(s, c, "", "");
      var init, x := ifs[..n - 1], ifs[n - 1];
      var got := Scan(acc, whole, init);
      assert ifs[..n][..n - 1] == init;
      SinglesScan(acc, s, c, kind, table, n - 1);
      if x.prefix == c {
        assert x in ifs;
        var one := Claim(s, c, KindName(kind), x.name);
        forall k | 0 <= k < n - 1 && ifs[k].prefix == c
          ensures ifs[k].name in Names(got)
        {
          ScanHasPassed(acc, whole, init, k);
        }
        SingleTakesOwn(got, one, ifs, n - 1);
        ResolveConcat(acc, Singles(s, c, kind, init), [one], kind, table);
        ResolveOne(got, one, kind, table);
      } else {
        assert Singles(s, c, kind, ifs[..n]) == Singles(s, c, kind, init);
      }
    }
  }

  lemma {:induction false} OtherKindSingles(acc: seq<Alias>, s: string, c: string, kind: Kind, other: Kind,
                                            table: Table, ifs: seq<Interface>)
    requires kind != other
    ensures ResolveFrom(acc, Singles(s, c, other, ifs), kind, table) == acc
    decreases |ifs|
  {
    if ifs != [] {
      var init, x := ifs[..|ifs| - 1], ifs[|ifs| - 1];
      OtherKindSingles(acc, s, c, kind, other, table, init);
      if x.prefix == c {
        var one := Claim(s, c, KindName(other), x.name);
        ResolveConcat(acc, Singles(s, c, other, init), [one], kind, table);
        ResolveOne(acc, one, kind, table);
      } else {
        assert Singles(s, c, other, ifs) == Singles(s, c, other, init);
      }
    }
  }

  /** A whole claim is the list of its single-interface claims in the slave's order. */
  lemma WholeIsItsSingles(before: seq<Claim>, s: string, c: string, after: seq<Claim>, kind: Kind, table: Table)
    requires s in table
    requires forall x | x in table[s].state + table[s].command :: x.prefix == c ==> x.name != ""
    ensures Resolve(before + [Claim(s, c, "", "")] + after, kind, table)
         == Resolve(before + (Singles(s, c, State, table[s].state) + Singles(s, c, Command, table[s].command)) + after,
                    kind, table)
  {
    var acc, whole := Resolve(before, kind, table), Claim(s, c, "", "");
    var st, co := Singles(s, c, State, table[s].state), Singles(s, c, Command, table[s].command);
    var ifs := Of(table[s], kind);
    assert ifs[..|ifs|] == ifs;
    forall x | x in ifs
      ensures x.prefix == c ==> x.name != ""
    {
      assert x in table[s].state + table[s].command;
    }
    SinglesScan(acc, s, c, kind, table, |ifs|);
    ResolveOne(acc, whole, kind, table);
    ResolveConcat(acc, st, co, kind, table);
    if kind.State? {
      OtherKindSingles(ResolveFrom(acc, st, kind, table), s, c, kind, Command, table, table[s].command);
    } else {
      OtherKindSingles(acc, s, c, kind, State, table, table[s].state);
    }
    ReplaceAnywhere(before, [whole], st + co, after, kind, table);
  }

  lemma {:induction false} ScanOnlyGrows(acc: seq<Alias>, c: Claim, ifs: seq<Interface>)
    ensures acc <= Scan(acc, c, ifs)
    ensures Scan(acc, c, ifs) == acc
       <==> forall x | x in ifs && x.prefix == c.claim :: x.name in Names(acc)
    decreases |ifs|
  {
    if ifs != [] {
      var init, x := ifs[..|ifs| - 1], ifs[|ifs| - 1];
      ScanOnlyGrows(acc, c, init);
      assert forall y :: y in ifs <==> y in init || y == x;
    }
  }

  /** Appending a claim changes nothing exactly if the joint already has every name the claim
      covers. */
  lemma AppendCoveredIff(claims: seq<Claim>, c: Claim, kind: Kind, table: Table)
    ensures Resolve(claims + [c], kind, table) == Resolve(claims, kind, table)
       <==> forall a | a in CoveredBy(c, kind, table) :: a.source.name in Names(Resolve(claims, kind, table))
  {
    var acc := Resolve(claims, kind, table);
    assert (claims + [c])[..|claims|] == claims;
    if Wants(c, kind, table) {
      var ifs := Of(table[c.slave], kind);
      CoveredInIff(c, ifs);
      ScanOnlyGrows(acc, c, Selected(c, ifs));
      if c.name != "" {
        var k := FirstFit(c, ifs);
        if k < |ifs| {
          assert ifs[k] in ifs && Selected(c, ifs) == [ifs[k]];
          assert Alias(c.slave, ifs[k]) in CoveredIn(c, ifs);
        }
      } else {
        forall x | x in ifs && x.prefix == c.claim
          ensures Alias(c.slave, x) in CoveredIn(c, ifs)
        {
        }
      }
    }
  }

  lemma {:induction false} CoveredInIff(c: Claim, ifs: seq<Interface>)
    ensures forall a :: a in CoveredIn(c, ifs) <==> a.slave == c.slave && a.source in ifs && Covers(c, a.source)
    decreases |ifs|
  {
    if ifs != [] {
      CoveredInIff(c, ifs[..|ifs| - 1]);
      assert ifs == ifs[..|ifs| - 1] + [ifs[|ifs| - 1]];
    }
  }

  /// The same on claim identifiers

  predicate AllTokenizable(ids: seq<string>) {
    forall id | id in ids :: Tokenizable(id)
  }

  function ClaimsOf(ids: seq<string>): (r: seq<Claim>)
    requires AllTokenizable(ids)
    ensures |r| == |ids|
  {
    seq(|ids|, i requires 0 <= i < |ids| => Tokenize(ids[i]))
  }

  /** Writing `s/c` or `s/c/state` and `s/c/command` in a joint's claims makes no difference. */
  lemma WholeIdIsBothHalves(before: seq<string>, s: string, c: string, after: seq<string>, kind: Kind, table: Table)
    requires AllTokenizable(before) && AllTokenizable(after) && SlashFree(s) && SlashFree(c)
    ensures var whole := before + [s + "/" + c] + after;
            var halves := before + [s + "/" + (c + "/state"), s + "/" + (c + "/command")] + after;
            && AllTokenizable(whole) && AllTokenizable(halves)
            && Resolve(ClaimsOf(whole), kind, table) == Resolve(ClaimsOf(halves), kind, table)
  {
    TokenizeReads(s, c, "state", "");
    TokenizeReads(s, c, "command", "");
    assert c + "/state" == c + "/" + "state" && c + "/command" == c + "/" + "command";
    ClaimsAround(before, [s + "/" + c], after);
    ClaimsAround(before, [s + "/" + (c + "/state"), s + "/" + (c + "/command")], after);
    assert ClaimsOf([s + "/" + c]) == [Claim(s, c, "", "")];
    assert ClaimsOf([s + "/" + (c + "/state"), s + "/" + (c + "/command")])
        == [Claim(s, c, "state", ""), Claim(s, c, "command", "")];
    WholeIsBothHalves(ClaimsOf(before), s, c, ClaimsOf(after), kind, table);
  }

  lemma ClaimsAround(a: seq<string>, b: seq<string>, c: seq<string>)
    requires AllTokenizable(a) && AllTokenizable(b) && AllTokenizable(c)
    ensures AllTokenizable(a + b + c)
    ensures ClaimsOf(a + b + c) == ClaimsOf(a) + ClaimsOf(b) + ClaimsOf(c)
  {
  }

  /// Where an alias comes from

  /** Interface `x` is in `ifs`, with no interface of the same prefix and name before it. */
  ghost predicate FirstIn(x: Interface, ifs: seq<Interface>) {
    exists k :: 0 <= k < |ifs| && ifs[k] == x &&
                forall j | 0 <= j < k :: !(ifs[j].prefix == x.prefix && ifs[j].name == x.name)
  }

  ghost predicate FromTable(a: Alias, kind: Kind, table: Table) {
    a.slave in table && FirstIn(a.source, Of(table[a.slave], kind))
  }

  lemma FirstInPrefix(x: Interface, ifs: seq<Interface>, n: nat)
    requires n <= |ifs| && FirstIn(x, ifs[..n])
    ensures FirstIn(x, ifs)
  {
    var k :| 0 <= k < n && ifs[..n][k] == x &&
             forall j | 0 <= j < k :: !(ifs[..n][j].prefix == x.prefix && ifs[..n][j].name == x.name);
    forall j | 0 <= j < k
      ensures !(ifs[j].prefix == x.prefix && ifs[j].name == x.name)
    {
      assert ifs[..n][j] == ifs[j];
    }
    assert ifs[k] == x;
  }

  lemma {:induction false} ScanFromTable(acc: seq<Alias>, c: Claim, ifs: seq<Interface>)
    ensures forall a | a in Scan(acc, c, ifs) :: a in acc || (a.slave == c.slave && FirstIn(a.source, ifs))
    decreases |ifs|
  {
    if ifs != [] {
      var n := |ifs| - 1;
      var init, x := ifs[..n], ifs[n];
      ScanFromTable(acc, c, init);
      forall a | a in Scan(acc, c, ifs) && a !in acc
        ensures a.slave == c.slave && FirstIn(a.source, ifs)
      {
        if a in Scan(acc, c, init) {
          FirstInPrefix(a.source, ifs, n);
        } else {
          assert a == Alias(c.slave, x);
          forall j | 0 <= j < n
            ensures !(ifs[j].prefix == x.prefix && ifs[j].name == x.name)
          {
            if ifs[j].prefix == x.prefix {
              ScanHasPassed(acc, c, init, j);
            }
          }
          assert ifs[n] == x;
        }
      }
    }
  }

  lemma SelectedFromTable(acc: seq<Alias>, c: Claim, ifs: seq<Interface>)
    ensures forall a | a in Scan(acc, c, Selected(c, ifs)) ::
              a in acc || (a.slave == c.slave && FirstIn(a.source, ifs))
  {
    if c.name == "" {
      ScanFromTable(acc, c, ifs);
    } else {
      var k := FirstFit(c, ifs);
      if k < |ifs| {
        ScanOne(acc, c, ifs[k]);
        assert FirstIn(ifs[k], ifs);
      }
    }
  }

  /** Every alias of a joint is an interface of a known slave, the first there of its prefix and
      name. */
  lemma {:induction false} ResolveFromTable(claims: seq<Claim>, kind: Kind, table: Table)
    ensures forall a | a in Resolve(claims, kind, table) :: FromTable(a, kind, table)
    decreases |claims|
  {
    if claims != [] {
      var init, c := claims[..|claims| - 1], claims[|claims| - 1];
      ResolveFromTable(init, kind, table);
      if Wants(c, kind, table) {
        SelectedFromTable(Resolve(init, kind, table), c, Of(table[c.slave], kind));
      }
    }
  }
}
