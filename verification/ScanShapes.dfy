/** When a ruleset, read on its own, has the shapes the forward scan takes for granted on the
    path of every packet of a family. Only rules that rewrite or transfer, in chains prerouting can
    reach, on packets of that family, matter. */
module ScanShapes {
  import opened Wrappers
  import opened Bytes
  import opened Facts
  import opened Sorting
  import opened Matcher
  import opened Traversal
  import opened Machine
  import opened ForwardSoundness

  function FamilyNumber(family: string): Byte {
    if family == "ip" then 2 else 10
  }

  /** The rule first asks for the other family, as in `meta nfproto ipv4`. */
  predicate ElsewhereAt(family: string, r: Rule, i: nat) {
    && i + 1 < |r.exprs|
    && r.exprs[i].Meta? && r.exprs[i].metaKey == Nfproto
    && r.exprs[i + 1].Cmp? && r.exprs[i + 1].register == r.exprs[i].register
    && CmpTest([FamilyNumber(family)], r.exprs[i + 1].op, r.exprs[i + 1].data) == Some(false)
  }

  predicate Elsewhere(family: string, r: Rule) {
    exists i :: 0 <= i < |r.exprs| && ElsewhereAt(family, r, i)
  }

  /** The rule can rewrite, or send a packet to another chain. */
  predicate MayAct(r: Rule) {
    exists e :: e in r.exprs && (IsRewrite(e) || IsTransfer(e))
  }

  /** A set of chains that holds the prerouting base chains and whatever they can jump to. */
  ghost predicate Live(family: string, t: Table, live: set<Chain>) {
    && (forall ch :: ch in t.chains && ch.base && ch.hook == "prerouting" ==> ch in live)
    && forall ch, r, e :: ch in live && r in ch.rules && e in r.exprs && IsTransfer(e) && !Elsewhere(family, r) ==>
         var target := FindInChains(t.chains, e.verdict.chain);
         target.Some? ==> target.value in live
  }

  ghost predicate PlainWithin(family: string, live: set<Chain>) {
    forall ch, r :: ch in live && r in ch.rules && MayAct(r) && !Elsewhere(family, r) ==> Plain(family, r)
  }

  /** What has to hold of a ruleset, for every packet of the family at once. */
  ghost predicate ScanAssumptions(rs: Ruleset, family: string) {
    && DistinctTables(rs, family)
    && forall t :: t in rs.tables && Serves(t, family) ==> exists live :: Live(family, t, live) && PlainWithin(family,
                                  live)
  }

  /** A rule that asks for the other family does not match. */
  lemma {:induction false} ElsewhereStops(pkt: Packet, r: Rule, sets: seq<NftSet>, i: nat, j: nat, regs: Regs,
                                          act: Action)
    requires PortPacket(pkt) && ElsewhereAt(pkt.family, r, i) && j <= i
    ensures MatchFrom(pkt, r, sets, j, regs, act).0 != Match
    decreases i - j
  {
    match StepExpr(pkt, r.exprs[j], sets, regs, act)
    case Next(regs', act') =>
      if j < i {
        ElsewhereStops(pkt, r, sets, i, j + 1, regs', act');
      } else {
        assert regs'[r.exprs[i].register] == [FamilyNumber(pkt.family)];
        assert StepExpr(pkt, r.exprs[i + 1], sets, regs', act').Fail?;
      }
    case _ =>
  }

  /** A rule that rewrites holds a rewrite. */
  lemma {:induction false} RewriteIsWritten(pkt: Packet, r: Rule, sets: seq<NftSet>, i: nat, regs: Regs, act: Action)
    requires i <= |r.exprs| && (act.Rewrite? ==> MayAct(r))
    ensures MatchFrom(pkt, r, sets, i, regs, act).1.Rewrite? ==> MayAct(r)
    decreases |r.exprs| - i
  {
    if i < |r.exprs| {
      assert r.exprs[i] in r.exprs;
      match StepExpr(pkt, r.exprs[i], sets, regs, act)
      case Next(regs', act') =>
        ActionsComeFrom(pkt, r.exprs[i], sets, regs, act);
        RewriteIsWritten(pkt, r, sets, i + 1, regs', act');
      case _ =>
    }
  }

  lemma {:induction false} ActingRule(rs: Ruleset, pkt: Packet, table: string, r: Rule)
    requires PortPacket(pkt) && ActsAt(rs, pkt, table, r)
    ensures MayAct(r) && !Elsewhere(pkt.family, r)
  {
    var sets := TableSetsIn(rs.tables, pkt.family, table);
    var act := MatchRule(pkt, r, sets).1;
    RewriteIsWritten(pkt, r, sets, 0, map[], NoAction);
    TransferIsWritten(pkt, r, sets, 0, map[], NoAction);
    if Transfers(act) {
      assert Expr.Verdict(act.verdict) in r.exprs && IsTransfer(Expr.Verdict(act.verdict));
    }
    if i :| 0 <= i < |r.exprs| && ElsewhereAt(pkt.family, r, i) {
      ElsewhereStops(pkt, r, sets, i, 0, map[], NoAction);
    }
  }

  /** Every hit is a rule of a live chain of the table. */
  ghost predicate Within(table: Table, live: set<Chain>, hits: seq<Hit>) {
    forall h :: h in hits ==> h.table == table.name && exists ch :: ch in live && h.rule in ch.rules
  }

  lemma {:induction false} WithinChain(rs: Ruleset, pkt: Packet, bound: nat, table: Table, live: set<Chain>, ch: Chain,
                                       depth: nat)
    requires PortPacket(pkt) && OnlyTable(rs, pkt.family, table) && Live(pkt.family, table, live) && ch in live
    ensures Within(table, live, WalkChain(PacketContext(rs, pkt.family, bound, pkt), table.name, ch, depth).hits)
    decreases Left(PacketContext(rs, pkt.family, bound, pkt), depth), |ch.rules| + 1
  {
    if depth <= bound {
      WithinRules(rs, pkt, bound, table, live, ch, ch.rules, depth);
    }
  }

  lemma {:induction false} WithinConcat(table: Table, live: set<Chain>, a: seq<Hit>, b: seq<Hit>)
    requires Within(table, live, a) && Within(table, live, b)
    ensures Within(table, live, a + b)
  {
  }

  lemma {:induction false} WithinRules(rs: Ruleset, pkt: Packet, bound: nat, table: Table, live: set<Chain>, ch: Chain,
                                       rules: seq<Rule>, depth: nat)
    requires PortPacket(pkt) && OnlyTable(rs, pkt.family, table) && Live(pkt.family, table, live) && ch in live
    requires depth <= bound && forall r :: r in rules ==> r in ch.rules
    ensures Within(table, live, WalkRules(PacketContext(rs, pkt.family, bound, pkt), table.name, ch, rules, depth).hits)
    decreases Left(PacketContext(rs, pkt.family, bound, pkt), depth), |rules|
  {
    if rules != [] {
      var cx, r := PacketContext(rs, pkt.family, bound, pkt), rules[0];
      var later := WalkRules(cx, table.name, ch, rules[1..], depth);
      WithinRules(rs, pkt, bound, table, live, ch, rules[1..], depth);
      OwnHitWithin(cx, table, live, ch, r);
      match RuleEffect(cx, table.name, ch, r)
      case Pass(hits) => WithinConcat(table, live, hits, later.hits);
      case Stop(_, _) =>
      case Enter(target, _, hit) =>
        EnterUnfolds(cx, table.name, ch, rules, depth);
        LiveTarget(rs, pkt, bound, table, live, ch, r);
        WithinChain(rs, pkt, bound, table, live, target, depth + 1);
        var sub := WalkChain(cx, table.name, target, depth + 1);
        WithinConcat(table, live, [hit], sub.hits);
        WithinConcat(table, live, [hit] + sub.hits, later.hits);
    }
  }

  /** The hit a rule of a live chain records. */
  lemma {:induction false} OwnHitWithin(cx: Context, table: Table, live: set<Chain>, ch: Chain, r: Rule)
    requires ch in live && r in ch.rules
    ensures match RuleEffect(cx, table.name, ch, r)
      case Pass(hits) => Within(table, live, hits)
      case Stop(_, hit) => Within(table, live, [hit])
      case Enter(_, _, hit) => Within(table, live, [hit])
  {
  }

  lemma {:induction false} LiveTarget(rs: Ruleset, pkt: Packet, bound: nat, table: Table, live: set<Chain>, ch: Chain,
                                      r: Rule)
    requires PortPacket(pkt) && OnlyTable(rs, pkt.family, table) && Live(pkt.family, table, live) && ch in live
    requires r in ch.rules
    requires RuleEffect(PacketContext(rs, pkt.family, bound, pkt), table.name, ch, r).Enter?
    ensures RuleEffect(PacketContext(rs, pkt.family, bound, pkt), table.name, ch, r).target in live
  {
    var cx := PacketContext(rs, pkt.family, bound, pkt);
    var act := cx.matcher(table.name, ch, r).1;
    EnterTransfers(cx, table.name, ch, r);
    ActingRule(rs, pkt, table.name, r);
    TransferIsWritten(pkt, r, TableSetsIn(rs.tables, pkt.family, table.name), 0, map[], NoAction);
    assert IsTransfer(Expr.Verdict(act.verdict));
    OwnChains(rs.tables, pkt.family, table, act.verdict.chain);
  }

  lemma {:induction false} BasesPlain(rs: Ruleset, pkt: Packet, bound: nat, bases: seq<BaseChain>, dnat: Option<Target>)
    requires PortPacket(pkt) && ScanAssumptions(rs, pkt.family)
    requires forall b :: b in bases ==> b in Bases(rs, pkt.family, "prerouting")
    ensures PlainPath(rs, pkt, WalkBases(PacketContext(rs, pkt.family, bound, pkt), bases, dnat).hits)
  {
    if bases != [] {
      var cx, b := PacketContext(rs, pkt.family, bound, pkt), bases[0];
      var w := WalkChain(cx, b.table, b.chain, 0);
      BasePlain(rs, pkt, bound, b);
      if w.result.Accepted? {
        BasesPlain(rs, pkt, bound, bases[1..], LastRewrite(w.result, dnat));
      }
    }
  }

  lemma {:induction false} BasePlain(rs: Ruleset, pkt: Packet, bound: nat, b: BaseChain)
    requires PortPacket(pkt) && ScanAssumptions(rs, pkt.family) && b in Bases(rs, pkt.family, "prerouting")
    ensures PlainPath(rs, pkt, WalkChain(PacketContext(rs, pkt.family, bound, pkt), b.table, b.chain, 0).hits)
  {
    var q, p := (t: Table) => Serves(t, pkt.family), (ch: Chain) => ch.base && ch.hook == "prerouting";
    var on := OnHook(rs, pkt.family, "prerouting");
    SortPermutes(on, BaseLe);
    SameMembers(Sort(on, BaseLe), on);
    TablesWhereMembers(rs.tables, q, p, b);
    var table :| table in rs.tables && FromTable(table, q, p, b);
    var live :| Live(pkt.family, table, live) && PlainWithin(pkt.family, live);
    WithinChain(rs, pkt, bound, table, live, b.chain, 0);
    var hits := WalkChain(PacketContext(rs, pkt.family, bound, pkt), b.table, b.chain, 0).hits;
    forall h | h in hits && ActsAt(rs, pkt, h.table, h.rule) ensures Plain(pkt.family, h.rule) {
      ActingRule(rs, pkt, h.table, h.rule);
    }
  }

  /** The shapes can be read off the ruleset: then every packet's path has them. */
  lemma {:induction false} ShapesSuffice(rs: Ruleset, pkt: Packet, bound: nat)
    requires PortPacket(pkt) && ScanAssumptions(rs, pkt.family)
    ensures DistinctTables(rs, pkt.family)
    ensures PlainPath(rs, pkt, Traverse(PacketContext(rs, pkt.family, bound, pkt), "prerouting", pkt).hits)
  {
    BasesPlain(rs, pkt, bound, Bases(rs, pkt.family, "prerouting"), None);
  }
}
