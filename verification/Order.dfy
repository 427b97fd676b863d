/** Document order does not matter: tables, and the chains within a table, may come in any
    order, once the names a rule can refer to are unique. */
module Order {
  import opened Wrappers
  import opened Bytes
  import opened Facts
  import opened Sorting
  import opened Matcher
  import opened Traversal
  import opened Machine

  // ---- permutations of a ruleset -----------------------------------------------------

  /** A table up to the order of its chains. */
  datatype TableView = TableView(family: string, name: string, chains: multiset<Chain>, sets: seq<NftSet>)

  function View(t: Table): TableView {
    TableView(t.family, t.name, multiset(t.chains), t.sets)
  }

  function Views(tables: seq<Table>): (vs: seq<TableView>)
    ensures |vs| == |tables|
  {
    seq(|tables|, i requires 0 <= i < |tables| => View(tables[i]))
  }

  /** The tables rearranged, and the chains within each table rearranged. */
  ghost predicate Permuted(rs: Ruleset, rs': Ruleset) {
    multiset(Views(rs.tables)) == multiset(Views(rs'.tables))
  }

  predicate SameTableName(family: string, t: TableView, u: TableView) {
    && t.name == u.name
    && (t.family == family || t.family == "inet")
    && (u.family == family || u.family == "inet")
  }

  predicate SameChainName(a: Chain, b: Chain) {
    a.name == b.name
  }

  /** The tables that serve the family have distinct names, and so do the chains of each. */
  ghost predicate WellNamed(rs: Ruleset, family: string) {
    && Apart(Views(rs.tables), (t, u) => SameTableName(family, t, u))
    && forall t :: t in rs.tables && Serves(t, family) ==> Apart(t.chains, SameChainName)
  }

  lemma {:induction false} Counterpart(rs: Ruleset, rs': Ruleset, t: Table) returns (t': Table)
    requires Permuted(rs, rs') && t in rs.tables
    ensures t' in rs'.tables && View(t') == View(t)
  {
    var vs, vs' := Views(rs.tables), Views(rs'.tables);
    SameMembers(vs, vs');
    var i :| 0 <= i < |rs.tables| && rs.tables[i] == t;
    assert vs[i] in vs;
    var j :| 0 <= j < |vs'| && vs'[j] == vs[i];
    t' := rs'.tables[j];
  }

  lemma {:induction false} PermutedWellNamed(rs: Ruleset, rs': Ruleset, family: string)
    requires Permuted(rs, rs') && WellNamed(rs, family)
    ensures WellNamed(rs', family)
  {
    ApartIsOrderFree(Views(rs.tables), Views(rs'.tables), (t, u) => SameTableName(family, t, u));
    forall t' | t' in rs'.tables && Serves(t', family) ensures Apart(t'.chains, SameChainName) {
      var t := Counterpart(rs', rs, t');
      ApartIsOrderFree(t.chains, t'.chains, SameChainName);
    }
  }

  // ---- look-ups depend on names only ---------------------------------------------------

  /** The chain is in a table of this name that serves the family. */
  ghost predicate Declares(rs: Ruleset, family: string, table: string, ch: Chain) {
    exists t :: t in rs.tables && t.name == table && Serves(t, family) && ch in t.chains
  }

  lemma {:induction false} OneTable(rs: Ruleset, family: string, t: Table, u: Table)
    requires WellNamed(rs, family) && t in rs.tables && u in rs.tables
    requires t.name == u.name && Serves(t, family) && Serves(u, family)
    ensures t == u
  {
    var i :| 0 <= i < |rs.tables| && rs.tables[i] == t;
    var j :| 0 <= j < |rs.tables| && rs.tables[j] == u;
    var vs := Views(rs.tables);
    assert vs[i] == View(t) && vs[j] == View(u);
    assert SameTableName(family, vs[i], vs[j]) && SameTableName(family, vs[j], vs[i]);
  }

  lemma {:induction false} OneChain(rs: Ruleset, family: string, table: string, a: Chain, b: Chain)
    requires WellNamed(rs, family) && a.name == b.name
    requires Declares(rs, family, table, a) && Declares(rs, family, table, b)
    ensures a == b
  {
    var t :| t in rs.tables && t.name == table && Serves(t, family) && a in t.chains;
    var u :| u in rs.tables && u.name == table && Serves(u, family) && b in u.chains;
    OneTable(rs, family, t, u);
    var i :| 0 <= i < |t.chains| && t.chains[i] == a;
    var j :| 0 <= j < |t.chains| && t.chains[j] == b;
  }

  lemma {:induction false} FindsByName(chains: seq<Chain>, name: string)
    ensures match FindInChains(chains, name)
      case Some(ch) => ch in chains && ch.name == name
      case None => forall ch :: ch in chains ==> ch.name != name
  {
    if chains != [] {
      FindsByName(chains[1..], name);
      assert chains == [chains[0]] + chains[1..];
    }
  }

  lemma {:induction false} FindsDeclared(tables: seq<Table>, family: string, table: string, name: string)
    ensures match FindChainIn(tables, family, table, name)
      case Some(ch) =>
        ch.name == name && exists t :: t in tables && t.name == table && Serves(t, family) && ch in t.chains
      case None =>
        forall t, ch :: t in tables && t.name == table && Serves(t, family) && ch in t.chains ==> ch.name != name
  {
    if tables != [] {
      FindsByName(tables[0].chains, name);
      FindsDeclared(tables[1..], family, table, name);
      assert tables == [tables[0]] + tables[1..];
    }
  }

  lemma {:induction false} DeclaresPermuted(rs: Ruleset, rs': Ruleset, family: string, table: string, ch: Chain)
    requires Permuted(rs, rs') && Declares(rs, family, table, ch)
    ensures Declares(rs', family, table, ch)
  {
    var t :| t in rs.tables && t.name == table && Serves(t, family) && ch in t.chains;
    var t' := Counterpart(rs, rs', t);
    SameMembers(t.chains, t'.chains);
  }

  lemma {:induction false} SameChainFound(rs: Ruleset, rs': Ruleset, family: string, table: string, name: string)
    requires Permuted(rs, rs') && WellNamed(rs, family)
    ensures FindChainIn(rs'.tables, family, table, name) == FindChainIn(rs.tables, family, table, name)
  {
    FindsDeclared(rs.tables, family, table, name);
    FindsDeclared(rs'.tables, family, table, name);
    var a, b := FindChainIn(rs.tables, family, table, name), FindChainIn(rs'.tables, family, table, name);
    if a.Some? {
      assert Declares(rs, family, table, a.value);
      DeclaresPermuted(rs, rs', family, table, a.value);
    }
    if b.Some? {
      assert Declares(rs', family, table, b.value);
      DeclaresPermuted(rs', rs, family, table, b.value);
    }
    if a.Some? && b.Some? {
      OneChain(rs, family, table, a.value, b.value);
    }
  }

  lemma {:induction false} SetsOfTable(tables: seq<Table>, family: string, table: string)
    ensures var sets := TableSetsIn(tables, family, table);
      || (exists t :: t in tables && t.name == table && Serves(t, family) && sets == t.sets)
      || (sets == [] && forall t :: t in tables && t.name == table ==> !Serves(t, family))
  {
    if tables != [] {
      SetsOfTable(tables[1..], family, table);
      assert tables == [tables[0]] + tables[1..];
      var sets := TableSetsIn(tables[1..], family, table);
      if !(tables[0].name == table && Serves(tables[0], family)) {
        if t :| t in tables[1..] && t.name == table && Serves(t, family) && sets == t.sets {
          assert t in tables;
        }
      }
    }
  }

  lemma {:induction false} SameSetsFound(rs: Ruleset, rs': Ruleset, family: string, table: string)
    requires Permuted(rs, rs') && WellNamed(rs, family)
    ensures TableSetsIn(rs'.tables, family, table) == TableSetsIn(rs.tables, family, table)
  {
    SetsOfTable(rs.tables, family, table);
    SetsOfTable(rs'.tables, family, table);
    var sets, sets' := TableSetsIn(rs.tables, family, table), TableSetsIn(rs'.tables, family, table);
    if u: Table :| u in rs'.tables && u.name == table && Serves(u, family) && sets' == u.sets {
      var u' := Counterpart(rs', rs, u);
      var t :| t in rs.tables && t.name == table && Serves(t, family) && sets == t.sets;
      OneTable(rs, family, t, u');
    } else if t: Table :| t in rs.tables && t.name == table && Serves(t, family) {
      var t' := Counterpart(rs, rs', t);
    }
  }

  // ---- walks depend on look-ups only ----------------------------------------------------

  ghost predicate SameLookups(cx: Context, cy: Context) {
    && cy.family == cx.family && cy.bound == cx.bound
    && (forall table, name :: FindChain(cy, table, name) == FindChain(cx, table, name))
    && (forall table, ch, r :: cy.matcher(table, ch, r) == cx.matcher(table, ch, r))
  }

  lemma {:induction false} SameWalkChain(cx: Context, cy: Context, table: string, ch: Chain, depth: nat)
    requires SameLookups(cx, cy)
    ensures WalkChain(cy, table, ch, depth) == WalkChain(cx, table, ch, depth)
    decreases Left(cx, depth), |ch.rules| + 1
  {
    if depth <= cx.bound {
      SameWalkRules(cx, cy, table, ch, ch.rules, depth);
    }
  }

  lemma {:induction false} SameWalkRules(cx: Context, cy: Context, table: string, ch: Chain, rules: seq<Rule>,
                                         depth: nat)
    requires SameLookups(cx, cy) && depth <= cx.bound
    ensures WalkRules(cy, table, ch, rules, depth) == WalkRules(cx, table, ch, rules, depth)
    decreases Left(cx, depth), |rules|
  {
    if rules != [] {
      assert cy.matcher(table, ch, rules[0]) == cx.matcher(table, ch, rules[0]);
      assert RuleEffect(cy, table, ch, rules[0]) == RuleEffect(cx, table, ch, rules[0]);
      var e := RuleEffect(cx, table, ch, rules[0]);
      SameWalkRules(cx, cy, table, ch, rules[1..], depth);
      if e.Enter? {
        SameWalkChain(cx, cy, table, e.target, depth + 1);
      }
    }
  }

  lemma {:induction false} SameWalkBases(cx: Context, cy: Context, bases: seq<BaseChain>, dnat: Option<Target>)
    requires SameLookups(cx, cy)
    ensures WalkBases(cy, bases, dnat) == WalkBases(cx, bases, dnat)
  {
    if bases != [] {
      SameWalkChain(cx, cy, bases[0].table, bases[0].chain, 0);
      var w := WalkChain(cx, bases[0].table, bases[0].chain, 0);
      SameWalkBases(cx, cy, bases[1..], LastRewrite(w.result, dnat));
    }
  }

  // ---- base chains --------------------------------------------------------------------------

  lemma {:induction false} CodesInjective(a: string, b: string)
    requires Codes(a) == Codes(b)
    ensures a == b
  {
    forall i | 0 <= i < |a| ensures a[i] == b[i] {
      assert Codes(a)[i] == Codes(b)[i];
    }
  }

  lemma {:induction false} CompareTextOrders(a: string, b: string)
    ensures CompareText(a, b) == 0 <==> a == b
    ensures CompareText(a, b) == -CompareText(b, a)
  {
    CompareEqual(Codes(a), Codes(b));
    CompareFlips(Codes(a), Codes(b));
    if Codes(a) == Codes(b) {
      CodesInjective(a, b);
    }
  }

  lemma {:induction false} BaseLeIsTotal()
    ensures TotalPreorder(BaseLe)
  {
    forall x: BaseChain, y: BaseChain ensures BaseLe(x, y) || BaseLe(y, x) {
      CompareTextOrders(x.table, y.table);
      CompareTextOrders(x.chain.name, y.chain.name);
    }
    forall x: BaseChain, y: BaseChain, z: BaseChain | BaseLe(x, y) && BaseLe(y, z) ensures BaseLe(x, z) {
      CompareTextOrders(x.table, y.table);
      CompareTextOrders(y.table, z.table);
      CompareTextOrders(x.table, z.table);
      if CompareText(x.table, y.table) <= 0 && CompareText(y.table, z.table) <= 0 {
        CompareTransitive(Codes(x.table), Codes(y.table), Codes(z.table));
      }
      if CompareText(x.chain.name, y.chain.name) <= 0 && CompareText(y.chain.name, z.chain.name) <= 0 {
        CompareTransitive(Codes(x.chain.name), Codes(y.chain.name), Codes(z.chain.name));
      }
    }
  }

  lemma {:induction false} BaseLeAntisymmetric(x: BaseChain, y: BaseChain)
    ensures BaseLe(x, y) && BaseLe(y, x) ==> SameBaseName(x, y)
  {
    CompareTextOrders(x.table, y.table);
    CompareTextOrders(x.chain.name, y.chain.name);
  }

  predicate SameBaseName(a: BaseChain, b: BaseChain) {
    a.table == b.table && a.chain.name == b.chain.name
  }

  lemma {:induction false} ChainsWhereApart(t: Table, chains: seq<Chain>, p: Chain -> bool)
    requires Apart(chains, SameChainName)
    ensures Apart(ChainsWhere(t, chains, p), SameBaseName)
  {
    if chains != [] {
      ChainsWhereApart(t, chains[1..], p);
      var rest := ChainsWhere(t, chains[1..], p);
      forall k | 0 <= k < |rest| ensures rest[k].chain.name != chains[0].name {
        ChainsWhereMembers(t, chains[1..], p, rest[k]);
        assert rest[k] in rest;
        var j :| 0 <= j < |chains[1..]| && chains[1..][j] == rest[k].chain;
        assert !SameChainName(chains[0], chains[j + 1]);
      }
    }
  }

  lemma {:induction false} TablesWhereApart(tables: seq<Table>, family: string, p: Chain -> bool)
    requires Apart(Views(tables), (t, u) => SameTableName(family, t, u))
    requires forall t :: t in tables && Serves(t, family) ==> Apart(t.chains, SameChainName)
    ensures Apart(TablesWhere(tables, (t: Table) => Serves(t, family), p), SameBaseName)
  {
    if tables != [] {
      var q := (t: Table) => Serves(t, family);
      var vs := Views(tables);
      assert Views(tables[1..]) == vs[1..];
      TablesWhereApart(tables[1..], family, p);
      if Serves(tables[0], family) {
        var here, rest := ChainsWhere(tables[0], tables[0].chains, p), TablesWhere(tables[1..], q, p);
        assert tables[0] in tables;
        ChainsWhereApart(tables[0], tables[0].chains, p);
        forall i, j | 0 <= i < |here| && 0 <= j < |rest| ensures !SameBaseName(here[i], rest[j]) {
          ChainsWhereMembers(tables[0], tables[0].chains, p, here[i]);
          TablesWhereMembers(tables[1..], q, p, rest[j]);
          assert rest[j] in rest;
          var t :| t in tables[1..] && FromTable(t, q, p, rest[j]);
          var k :| 0 <= k < |tables[1..]| && tables[1..][k] == t;
          assert vs[k + 1] == View(t) && vs[0] == View(tables[0]);
          assert !SameTableName(family, vs[0], vs[k + 1]);
        }
      }
    }
  }

  lemma {:induction false} SortedBasesAscend(rs: Ruleset, family: string, hook: string)
    requires WellNamed(rs, family)
    ensures Ascending(Bases(rs, family, hook), BaseLe)
  {
    var on, s := OnHook(rs, family, hook), Bases(rs, family, hook);
    BaseLeIsTotal();
    SortSorts(on, BaseLe);
    SortPermutes(on, BaseLe);
    TablesWhereApart(rs.tables, family, (ch: Chain) => ch.base && ch.hook == hook);
    ApartIsOrderFree(on, s, SameBaseName);
    forall i, j | 0 <= i < j < |s| ensures BaseLe(s[i], s[j]) && !BaseLe(s[j], s[i]) {
      BaseLeAntisymmetric(s[i], s[j]);
      assert !SameBaseName(s[i], s[j]);
    }
  }

  lemma {:induction false} WherePermuted(rs: Ruleset, rs': Ruleset, q: Table -> bool, p: Chain -> bool)
    requires Permuted(rs, rs') && forall t, u :: View(t) == View(u) ==> q(t) == q(u)
    ensures forall b :: b in TablesWhere(rs.tables, q, p) ==> b in TablesWhere(rs'.tables, q, p)
    ensures TablesWhere(rs'.tables, q, p) == [] ==> TablesWhere(rs.tables, q, p) == []
  {
    var here, there := TablesWhere(rs.tables, q, p), TablesWhere(rs'.tables, q, p);
    forall b | b in here ensures b in there {
      TablesWhereMembers(rs.tables, q, p, b);
      var t :| t in rs.tables && FromTable(t, q, p, b);
      var t' := Counterpart(rs, rs', t);
      SameMembers(t.chains, t'.chains);
      assert FromTable(t', q, p, b);
      TablesWhereMembers(rs'.tables, q, p, b);
    }
    if here != [] {
      assert here[0] in there;
    }
  }

  lemma {:induction false} SameBases(rs: Ruleset, rs': Ruleset, family: string, hook: string)
    requires Permuted(rs, rs') && WellNamed(rs, family)
    ensures Bases(rs', family, hook) == Bases(rs, family, hook)
  {
    var q, p := (t: Table) => Serves(t, family), (ch: Chain) => ch.base && ch.hook == hook;
    var on, on' := OnHook(rs, family, hook), OnHook(rs', family, hook);
    PermutedWellNamed(rs, rs', family);
    SortedBasesAscend(rs, family, hook);
    SortedBasesAscend(rs', family, hook);
    WherePermuted(rs, rs', q, p);
    WherePermuted(rs', rs, q, p);
    SortPermutes(on, BaseLe);
    SortPermutes(on', BaseLe);
    SameMembers(Sort(on, BaseLe), on);
    SameMembers(Sort(on', BaseLe), on');
    AscendingUnique(Bases(rs', family, hook), Bases(rs, family, hook), BaseLe);
  }

  // ---- the theorem ---------------------------------------------------------------------------

  predicate Refused(res: Result) {
    res.Unresolved? && (res.reason.IngressChain? || res.reason.UnknownHook?)
  }

  /** Rearranging tables, and chains within tables, changes neither verdict, rewrite nor path;
      the only thing that can change is which chain a refusal to walk names. */
  lemma {:induction false} DocumentOrderIsFree(rs: Ruleset, rs': Ruleset, family: string, hook: string, pkt: Packet,
                                               bound: nat)
    requires Permuted(rs, rs') && WellNamed(rs, family)
    ensures var w := Traverse(PacketContext(rs, family, bound, pkt), hook, pkt);
      var w' := Traverse(PacketContext(rs', family, bound, pkt), hook, pkt);
      w'.hits == w.hits && (w'.result == w.result || (Refused(w.result) && Refused(w'.result)))
  {
    var cx, cy := PacketContext(rs, family, bound, pkt), PacketContext(rs', family, bound, pkt);
    var all, serves := (t: Table) => true, (t: Table) => Serves(t, family);
    var ingress := (ch: Chain) => IngressBlocks(ch, pkt.inIface);
    var unplaced := (ch: Chain) => ch.base && !KnownHook(ch.hook);
    WherePermuted(rs, rs', all, ingress);
    WherePermuted(rs', rs, all, ingress);
    WherePermuted(rs, rs', serves, unplaced);
    WherePermuted(rs', rs, serves, unplaced);
    forall table, name ensures FindChain(cy, table, name) == FindChain(cx, table, name) {
      SameChainFound(rs, rs', family, table, name);
    }
    forall table ensures TableSetsIn(rs'.tables, family, table) == TableSetsIn(rs.tables, family, table) {
      SameSetsFound(rs, rs', family, table);
    }
    SameBases(rs, rs', family, hook);
    SameWalkBases(cx, cy, Bases(rs, family, hook), None);
  }

  /** A hook accepts exactly when nothing refuses it and every base chain on it accepts. */
  lemma {:induction false} AcceptsExactlyWhen(cx: Context, hook: string, pkt: Packet)
    ensures Traverse(cx, hook, pkt).result.Accepted? <==>
      && Ingress(cx.rs, pkt) == []
      && Unplaced(cx.rs, cx.family) == []
      && forall b :: b in OnHook(cx.rs, cx.family, hook) ==> WalkChain(cx, b.table, b.chain, 0).result.Accepted?
  {
    var on := OnHook(cx.rs, cx.family, hook);
    SortPermutes(on, BaseLe);
    SameMembers(Sort(on, BaseLe), on);
    BasesAcceptAll(cx, Bases(cx.rs, cx.family, hook), None);
  }

  lemma {:induction false} BasesAcceptAll(cx: Context, bases: seq<BaseChain>, dnat: Option<Target>)
    ensures WalkBases(cx, bases, dnat).result.Accepted? <==>
      forall b :: b in bases ==> WalkChain(cx, b.table, b.chain, 0).result.Accepted?
  {
    if bases != [] {
      var w := WalkChain(cx, bases[0].table, bases[0].chain, 0);
      BasesAcceptAll(cx, bases[1..], LastRewrite(w.result, dnat));
      assert bases == [bases[0]] + bases[1..];
    }
  }

  // ---- distinct chain names are needed -----------------------------------------------------------

  function PlainChain(name: string, rules: seq<Rule>): Chain {
    Chain(name, false, "", 0, [], OtherPolicy(""), rules)
  }

  const YES := PlainChain("x", [Rule(2, [Verdict(Accept)])])
  const NO := PlainChain("x", [Rule(3, [Verdict(Drop)])])
  const ENTRY := Chain("in", true, "input", 0, [], PolicyAccept, [Rule(1, [Verdict(Jump("x"))])])

  function Twins(first: Chain, second: Chain): Ruleset {
    Ruleset([Table("ip", "t", [ENTRY, first, second], [])], false)
  }

  /** With two chains of one name in a table, swapping them swaps the verdict: `findChain` takes
      the first. */
  lemma {:induction false} DuplicateChainNamesMatter(pkt: Packet)
    ensures Permuted(Twins(YES, NO), Twins(NO, YES))
    ensures Traverse(PacketContext(Twins(YES, NO), "ip", 32, pkt), "input", pkt).result.Accepted?
    ensures Traverse(PacketContext(Twins(NO, YES), "ip", 32, pkt), "input", pkt).result.Dropped?
  {
    TwinsPermuted(YES, NO);
    TwinsWalk(pkt, YES, NO);
    TwinsWalk(pkt, NO, YES);
  }

  lemma {:induction false} TwinsPermuted(a: Chain, b: Chain)
    ensures Permuted(Twins(a, b), Twins(b, a))
  {
    var t, u := Twins(a, b).tables[0], Twins(b, a).tables[0];
    assert multiset(t.chains) == multiset{ENTRY, a, b};
    assert multiset(u.chains) == multiset{ENTRY, a, b};
    assert Views(Twins(a, b).tables) == [View(t)];
    assert Views(Twins(b, a).tables) == [View(t)];
  }

  lemma {:induction false} OneVerdict(pkt: Packet, handle: nat, v: VerdictKind, sets: seq<NftSet>)
    ensures MatchRule(pkt, Rule(handle, [Verdict(v)]), sets) == (Match, Does(v))
  {
    assert MatchFrom(pkt, Rule(handle, [Verdict(v)]), sets, 1, map[], Does(v)) == (Match, Does(v));
  }

  lemma {:induction false} TwinsWalk(pkt: Packet, first: Chain, second: Chain)
    requires (first == YES && second == NO) || (first == NO && second == YES)
    ensures var w := Traverse(PacketContext(Twins(first, second), "ip", 32, pkt), "input", pkt);
      if first == YES then w.result.Accepted? else w.result.Dropped?
  {
    var rs := Twins(first, second);
    var cx, t := PacketContext(rs, "ip", 32, pkt), rs.tables[0];
    var p, q := (ch: Chain) => ch.base && ch.hook == "input", (t: Table) => Serves(t, "ip");
    OneVerdict(pkt, 1, Jump("x"), []);
    OneVerdict(pkt, 2, Accept, []);
    OneVerdict(pkt, 3, Drop, []);
    assert TableSetsIn(rs.tables, "ip", "t") == [];
    assert t.chains[1..] == [first, second];
    assert FindInChains(t.chains, "x") == Some(first);
    assert RuleEffect(cx, "t", ENTRY, ENTRY.rules[0]).Enter?;
    assert RuleEffect(cx, "t", ENTRY, ENTRY.rules[0]).target == first;
    assert RuleEffect(cx, "t", first, first.rules[0]).Stop?;
    var sub := WalkChain(cx, "t", first, 1);
    assert first.rules != [] && sub == WalkRules(cx, "t", first, first.rules, 1);
    assert sub.result == RuleEffect(cx, "t", first, first.rules[0]).result;
    assert WalkChain(cx, "t", ENTRY, 0) == WalkRules(cx, "t", ENTRY, ENTRY.rules, 0);
    assert WalkChain(cx, "t", ENTRY, 0).result == sub.result;
    OnlyEntry(rs, p, q, first, second);
    NoRefusal(rs, pkt, first, second);
    var b := BaseChain("t", ENTRY);
    assert OnHook(rs, "ip", "input") == [b];
    assert [b][1..] == [] && Sort([b][1..], BaseLe) == [];
    assert Bases(rs, "ip", "input") == [b];
    assert WalkBases(cx, [b][1..], LastRewrite(sub.result, None)).result.Accepted?;
  }

  lemma {:induction false} OnlyEntry(rs: Ruleset, p: Chain -> bool, q: Table -> bool, first: Chain, second: Chain)
    requires rs == Twins(first, second) && q(rs.tables[0]) && !p(first) && !p(second)
    ensures TablesWhere(rs.tables, q, p) == if p(ENTRY) then [BaseChain("t", ENTRY)] else []
  {
    var t := rs.tables[0];
    assert t.chains[1..] == [first, second] && [first, second][1..] == [second] && [second][1..] == [];
    assert ChainsWhere(t, [second], p) == [];
    assert ChainsWhere(t, [first, second], p) == [];
    assert rs.tables[1..] == [];
  }

  lemma {:induction false} NoRefusal(rs: Ruleset, pkt: Packet, first: Chain, second: Chain)
    requires rs == Twins(first, second) && !first.base && !second.base
    ensures Ingress(rs, pkt) == [] && Unplaced(rs, "ip") == []
  {
    OnlyEntry(rs, (ch: Chain) => IngressBlocks(ch, pkt.inIface), (t: Table) => true, first, second);
    OnlyEntry(rs, (ch: Chain) => ch.base && !KnownHook(ch.hook), (t: Table) => Serves(t, "ip"), first, second);
  }
}
