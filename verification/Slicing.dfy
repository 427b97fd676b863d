/** Slicing a ruleset for one packet: delete every rule that does not match it or is skipped.
    The verdict, its reason and its rewrite do not change, on any hook. */
module Slicing {
  import opened Wrappers
  import opened Facts
  import opened Sorting
  import opened Matcher
  import opened Traversal

  function Map<T, U>(xs: seq<T>, f: T -> U): seq<U> {
    if xs == [] then [] else [f(xs[0])] + Map(xs[1..], f)
  }

  /** The rules of a table that can steer the packet or stop the evaluation. */
  type Keep = (string, Rule) -> bool

  function SliceRules(keep: Keep, table: string, rules: seq<Rule>): seq<Rule> {
    if rules == [] then []
    else (if keep(table, rules[0]) then [rules[0]] else []) + SliceRules(keep, table, rules[1..])
  }

  function SliceChain(keep: Keep, table: string, ch: Chain): Chain {
    ch.(rules := SliceRules(keep, table, ch.rules))
  }

  function SliceTable(keep: Keep, t: Table): Table {
    t.(chains := Map(t.chains, ch => SliceChain(keep, t.name, ch)))
  }

  function SliceTables(keep: Keep, tables: seq<Table>): seq<Table> {
    Map(tables, t => SliceTable(keep, t))
  }

  /** Keep what matches the packet or cannot be resolved. */
  function Relevant(rs: Ruleset, family: string, pkt: Packet): Keep {
    (table: string, r: Rule) => MatchRule(pkt, r, TableSetsIn(rs.tables, family, table)).0 in {Match, Unknown}
  }

  function Slice(rs: Ruleset, family: string, pkt: Packet): Ruleset {
    rs.(tables := SliceTables(Relevant(rs, family, pkt), rs.tables))
  }

  /** The hits of rules that were not skipped. */
  function Unskipped(hits: seq<Hit>): seq<Hit> {
    if hits == [] then []
    else (if hits[0].action == TagSkipped then [] else [hits[0]]) + Unskipped(hits[1..])
  }

  lemma {:induction false} UnskippedConcat(a: seq<Hit>, b: seq<Hit>)
    ensures Unskipped(a + b) == Unskipped(a) + Unskipped(b)
  {
    ConcatHead(a, b);
    if a != [] {
      UnskippedConcat(a[1..], b);
      ConcatAssociates(if a[0].action == TagSkipped then [] else [a[0]], Unskipped(a[1..]), Unskipped(b));
    }
  }

  /** `v` is `w` without its skipped hits. */
  ghost predicate Sliced(w: Walk, v: Walk) {
    v == Walk(w.result, Unskipped(w.hits))
  }

  lemma {:induction false} SlicedAfter(w: Walk, v: Walk, a: seq<Hit>)
    requires Sliced(w, v)
    ensures Sliced(w.After(a), v.After(Unskipped(a)))
  {
    UnskippedConcat(a, w.hits);
  }

  // ---- looking things up in a sliced ruleset ------------------------------------------

  lemma {:induction false} FindInSlicedChains(keep: Keep, table: string, chains: seq<Chain>, name: string)
    ensures var f := (ch: Chain) => SliceChain(keep, table, ch);
      FindInChains(Map(chains, f), name) ==
      match FindInChains(chains, name) case None => None case Some(ch) => Some(SliceChain(keep, table, ch))
  {
    if chains != [] {
      FindInSlicedChains(keep, table, chains[1..], name);
    }
  }

  lemma {:induction false} FindInSlicedTables(keep: Keep, tables: seq<Table>, family: string, table: string,
                                              name: string)
    ensures FindChainIn(SliceTables(keep, tables), family, table, name) ==
      match FindChainIn(tables, family, table, name)
      case None => None
      case Some(ch) => Some(SliceChain(keep, table, ch))
  {
    if tables != [] {
      FindInSlicedTables(keep, tables[1..], family, table, name);
      FindInSlicedChains(keep, tables[0].name, tables[0].chains, name);
      var sliced := SliceTables(keep, tables);
      assert sliced[0] == SliceTable(keep, tables[0]);
      assert sliced[1..] == SliceTables(keep, tables[1..]);
    }
  }

  lemma {:induction false} SetsOfSlicedTables(keep: Keep, tables: seq<Table>, family: string, table: string)
    ensures TableSetsIn(SliceTables(keep, tables), family, table) == TableSetsIn(tables, family, table)
  {
    if tables != [] {
      SetsOfSlicedTables(keep, tables[1..], family, table);
      var sliced := SliceTables(keep, tables);
      assert sliced[0] == SliceTable(keep, tables[0]);
      assert sliced[1..] == SliceTables(keep, tables[1..]);
    }
  }

  // ---- walks ------------------------------------------------------------------------------

  ghost predicate SliceOf(cx: Context, cy: Context, keep: Keep) {
    && cy.family == cx.family && cy.bound == cx.bound
    && cy.rs.tables == SliceTables(keep, cx.rs.tables)
    && (forall table, ch, ch', r :: cy.matcher(table, ch', r) == cx.matcher(table, ch, r))
    && (forall table, ch, r :: keep(table, r) <==> cx.matcher(table, ch, r).0 in {Match, Unknown})
  }

  lemma {:induction false} KeptEffect(cx: Context, cy: Context, keep: Keep, table: string, ch: Chain, r: Rule)
    requires SliceOf(cx, cy, keep) && keep(table, r)
    ensures RuleEffect(cy, table, SliceChain(keep, table, ch), r) ==
      match RuleEffect(cx, table, ch, r)
      case Enter(target, isGoto, hit) => Enter(SliceChain(keep, table, target), isGoto, hit)
      case e => e
    ensures RuleEffect(cx, table, ch, r).Pass? ==>
      Unskipped(RuleEffect(cx, table, ch, r).hits) == RuleEffect(cx, table, ch, r).hits
    ensures !RuleEffect(cx, table, ch, r).Pass? ==> RuleEffect(cx, table, ch, r).hit.action != TagSkipped
  {
    var act := cx.matcher(table, ch, r).1;
    assert cx.matcher(table, ch, r).0 in {Match, Unknown};
    assert cy.matcher(table, SliceChain(keep, table, ch), r) == cx.matcher(table, ch, r);
    if act.Does? && (act.verdict.Jump? || act.verdict.Goto?) {
      FindInSlicedTables(keep, cx.rs.tables, cx.family, table, act.verdict.chain);
    }
    assert Unskipped([]) == [];
    var hit := HitOf(cx, table, ch, r, ActionTag(act));
    assert Unskipped([hit]) == [hit] + Unskipped([]);
  }

  lemma {:induction false} DeletedEffect(cx: Context, keep: Keep, cy: Context, table: string, ch: Chain, r: Rule)
    requires SliceOf(cx, cy, keep) && !keep(table, r)
    ensures RuleEffect(cx, table, ch, r).Pass? && Unskipped(RuleEffect(cx, table, ch, r).hits) == []
  {
    assert cx.matcher(table, ch, r).0 !in {Match, Unknown};
    assert Unskipped([]) == [];
  }

  lemma {:induction false} SliceWalkChain(cx: Context, cy: Context, keep: Keep, table: string, ch: Chain, depth: nat)
    requires SliceOf(cx, cy, keep)
    ensures Sliced(WalkChain(cx, table, ch, depth), WalkChain(cy, table, SliceChain(keep, table, ch), depth))
    decreases Left(cx, depth), |ch.rules| + 1
  {
    assert Unskipped([]) == [];
    if depth <= cx.bound {
      SliceWalkRules(cx, cy, keep, table, ch, ch.rules, depth);
    }
  }

  lemma {:induction false} SliceWalkRules(cx: Context, cy: Context, keep: Keep, table: string, ch: Chain,
                                          rules: seq<Rule>, depth: nat)
    requires SliceOf(cx, cy, keep) && depth <= cx.bound
    ensures Sliced(WalkRules(cx, table, ch, rules, depth),
      WalkRules(cy, table, SliceChain(keep, table, ch), SliceRules(keep, table, rules), depth))
    decreases Left(cx, depth), |rules|
  {
    var ch' := SliceChain(keep, table, ch);
    assert Unskipped([]) == [];
    if rules != [] {
      var r, rest, rest' := rules[0], rules[1..], SliceRules(keep, table, rules[1..]);
      var e := RuleEffect(cx, table, ch, r);
      if !keep(table, r) {
        DeletedEffect(cx, keep, cy, table, ch, r);
        SliceWalkRules(cx, cy, keep, table, ch, rest, depth);
        SlicedAfter(WalkRules(cx, table, ch, rest, depth), WalkRules(cy, table, ch', rest', depth), e.hits);
        assert SliceRules(keep, table, rules) == rest';
      } else {
        KeptEffect(cx, cy, keep, table, ch, r);
        assert SliceRules(keep, table, rules) == [r] + rest';
        match e
        case Pass(hits) =>
          SliceWalkRules(cx, cy, keep, table, ch, rest, depth);
          SlicedAfter(WalkRules(cx, table, ch, rest, depth), WalkRules(cy, table, ch', rest', depth), hits);
        case Stop(_, hit) =>
          assert Unskipped([hit]) == [hit] + Unskipped([]);
        case Enter(target, isGoto, hit) =>
          SliceEnter(cx, cy, keep, table, ch, rules, depth);
      }
    }
  }

  lemma {:induction false} SliceEnter(cx: Context, cy: Context, keep: Keep, table: string, ch: Chain, rules: seq<Rule>,
                                      depth: nat)
    requires SliceOf(cx, cy, keep) && depth <= cx.bound && rules != [] && keep(table, rules[0])
    requires RuleEffect(cx, table, ch, rules[0]).Enter?
    ensures Sliced(WalkRules(cx, table, ch, rules, depth),
      WalkRules(cy, table, SliceChain(keep, table, ch), [rules[0]] + SliceRules(keep, table, rules[1..]), depth))
    decreases Left(cx, depth), |rules|, 0
  {
    var ch', rest, rest' := SliceChain(keep, table, ch), rules[1..], SliceRules(keep, table, rules[1..]);
    var e := RuleEffect(cx, table, ch, rules[0]);
    KeptEffect(cx, cy, keep, table, ch, rules[0]);
    assert ([rules[0]] + rest')[1..] == rest';
    SliceWalkChain(cx, cy, keep, table, e.target, depth + 1);
    var sub := WalkChain(cx, table, e.target, depth + 1);
    var sub' := WalkChain(cy, table, SliceChain(keep, table, e.target), depth + 1);
    assert Unskipped([]) == [];
    assert Unskipped([e.hit]) == [e.hit] + Unskipped([]);
    SlicedAfter(sub, sub', [e.hit]);
    if sub.result.FellOff? && !e.isGoto {
      SliceWalkRules(cx, cy, keep, table, ch, rest, depth);
      SlicedAfter(WalkRules(cx, table, ch, rest, depth), WalkRules(cy, table, ch', rest', depth), [e.hit] + sub.hits);
    }
  }

  // ---- base chains of a sliced ruleset ----------------------------------------------------

  function SliceBase(keep: Keep, b: BaseChain): BaseChain {
    BaseChain(b.table, SliceChain(keep, b.table, b.chain))
  }

  lemma {:induction false} MapConcat<T, U>(a: seq<T>, b: seq<T>, f: T -> U)
    ensures Map(a + b, f) == Map(a, f) + Map(b, f)
  {
    ConcatHead(a, b);
    if a != [] {
      MapConcat(a[1..], b, f);
      ConcatAssociates([f(a[0])], Map(a[1..], f), Map(b, f));
    }
  }

  lemma {:induction false} ChainsWhereSliced(keep: Keep, t: Table, chains: seq<Chain>, p: Chain -> bool)
    requires forall ch :: p(SliceChain(keep, t.name, ch)) == p(ch)
    ensures ChainsWhere(SliceTable(keep, t), Map(chains, (ch: Chain) => SliceChain(keep, t.name, ch)), p) ==
      Map(ChainsWhere(t, chains, p), (b: BaseChain) => SliceBase(keep, b))
  {
    if chains != [] {
      ChainsWhereSliced(keep, t, chains[1..], p);
      var head := if p(chains[0]) then [BaseChain(t.name, chains[0])] else [];
      MapConcat(head, ChainsWhere(t, chains[1..], p), (b: BaseChain) => SliceBase(keep, b));
    }
  }

  lemma {:induction false} TablesWhereSliced(keep: Keep, tables: seq<Table>, q: Table -> bool, p: Chain -> bool)
    requires forall t, ch :: p(SliceChain(keep, t, ch)) == p(ch)
    requires forall t :: q(SliceTable(keep, t)) == q(t)
    ensures TablesWhere(SliceTables(keep, tables), q, p) ==
      Map(TablesWhere(tables, q, p), (b: BaseChain) => SliceBase(keep, b))
  {
    if tables != [] {
      var sliced := SliceTables(keep, tables);
      assert sliced[0] == SliceTable(keep, tables[0]);
      assert sliced[1..] == SliceTables(keep, tables[1..]);
      TablesWhereSliced(keep, tables[1..], q, p);
      ChainsWhereSliced(keep, tables[0], tables[0].chains, p);
      var head := if q(tables[0]) then ChainsWhere(tables[0], tables[0].chains, p) else [];
      MapConcat(head, TablesWhere(tables[1..], q, p), (b: BaseChain) => SliceBase(keep, b));
    }
  }

  lemma {:induction false} InsertMapped<T(!new)>(x: T, xs: seq<T>, le: (T, T) -> bool, f: T -> T)
    requires forall a, b :: le(f(a), f(b)) == le(a, b)
    ensures Insert(f(x), Map(xs, f), le) == Map(Insert(x, xs, le), f)
  {
    if xs != [] {
      if le(x, xs[0]) {
        ConcatHead([x], xs);
      } else {
        InsertMapped(x, xs[1..], le, f);
        ConcatHead([xs[0]], Insert(x, xs[1..], le));
      }
    }
  }

  lemma {:induction false} SortMapped<T(!new)>(xs: seq<T>, le: (T, T) -> bool, f: T -> T)
    requires forall a, b :: le(f(a), f(b)) == le(a, b)
    ensures Sort(Map(xs, f), le) == Map(Sort(xs, le), f)
  {
    if xs != [] {
      SortMapped(xs[1..], le, f);
      InsertMapped(xs[0], Sort(xs[1..], le), le, f);
    }
  }

  lemma {:induction false} WalkSlicedBases(cx: Context, cy: Context, keep: Keep, bases: seq<BaseChain>,
                                           dnat: Option<Target>)
    requires SliceOf(cx, cy, keep)
    ensures Sliced(WalkBases(cx, bases, dnat), WalkBases(cy, Map(bases, (b: BaseChain) => SliceBase(keep, b)), dnat))
  {
    assert Unskipped([]) == [];
    if bases != [] {
      var b := bases[0];
      SliceWalkChain(cx, cy, keep, b.table, b.chain, 0);
      var w := WalkChain(cx, b.table, b.chain, 0);
      if w.result.Accepted? {
        var d := LastRewrite(w.result, dnat);
        WalkSlicedBases(cx, cy, keep, bases[1..], d);
        SlicedAfter(WalkBases(cx, bases[1..], d),
          WalkBases(cy, Map(bases[1..], (b: BaseChain) => SliceBase(keep, b)), d), w.hits);
      }
    }
  }

  /** Deleting from every chain all rules that do not match the packet or are skipped leaves the
      result of every hook unchanged, reason and rewrite included, and takes exactly the skipped
      hits off the path. */
  lemma {:induction false} SlicePreservesTraverse(rs: Ruleset, family: string, hook: string, pkt: Packet, bound: nat)
    ensures var w := Traverse(PacketContext(rs, family, bound, pkt), hook, pkt);
      Traverse(PacketContext(Slice(rs, family, pkt), family, bound, pkt), hook, pkt) ==
      Walk(w.result, Unskipped(w.hits))
  {
    var keep, rs' := Relevant(rs, family, pkt), Slice(rs, family, pkt);
    var cx, cy := PacketContext(rs, family, bound, pkt), PacketContext(rs', family, bound, pkt);
    forall table ensures TableSetsIn(rs'.tables, family, table) == TableSetsIn(rs.tables, family, table) {
      SetsOfSlicedTables(keep, rs.tables, family, table);
    }
    assert SliceOf(cx, cy, keep);
    TablesWhereSliced(keep, rs.tables, (t: Table) => true, (ch: Chain) => IngressBlocks(ch, pkt.inIface));
    TablesWhereSliced(keep, rs.tables, (t: Table) => Serves(t, family), (ch: Chain) => ch.base && !KnownHook(ch.hook));
    TablesWhereSliced(keep, rs.tables, (t: Table) => Serves(t, family), (ch: Chain) => ch.base && ch.hook == hook);
    SortMapped(OnHook(rs, family, hook), BaseLe, (b: BaseChain) => SliceBase(keep, b));
    WalkSlicedBases(cx, cy, keep, Bases(rs, family, hook), None);
    assert Unskipped([]) == [];
  }
}
