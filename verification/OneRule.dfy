/** Rulesets of one rule, in a prerouting base chain that accepts: what the walk and the scan make
    of them follows from the rule alone. */
module OneRule {
  import opened Wrappers
  import opened Facts
  import opened Sorting
  import opened Matcher
  import opened Traversal
  import opened Forwards

  function Pre(r: Rule): Chain {
    Chain("pre", true, "prerouting", 0, [], PolicyAccept, [r])
  }

  function NatTable(family: string, r: Rule): Table {
    Table(family, "nat", [Pre(r)], [])
  }

  function Hooked(family: string, r: Rule): Ruleset {
    Ruleset([NatTable(family, r)], false)
  }

  lemma {:induction false} HookedWhere(family: string, r: Rule, p: Chain -> bool, q: Table -> bool)
    requires q(NatTable(family, r))
    ensures TablesWhere(Hooked(family, r).tables, q, p) == if p(Pre(r)) then [BaseChain("nat", Pre(r))] else []
  {
    var t, rs := NatTable(family, r), Hooked(family, r);
    assert t.chains[1..] == [] && ChainsWhere(t, [], p) == [];
    assert rs.tables[1..] == [];
  }

  lemma {:induction false} HookedBases(pkt: Packet, r: Rule)
    ensures var rs := Hooked(pkt.family, r);
      && Ingress(rs, pkt) == [] && Unplaced(rs, pkt.family) == []
      && Bases(rs, pkt.family, "prerouting") == [BaseChain("nat", Pre(r))]
  {
    var family, b := pkt.family, BaseChain("nat", Pre(r));
    HookedWhere(family, r, (ch: Chain) => IngressBlocks(ch, pkt.inIface), (t: Table) => true);
    HookedWhere(family, r, (ch: Chain) => ch.base && !KnownHook(ch.hook), (t: Table) => Serves(t, family));
    HookedWhere(family, r, (ch: Chain) => ch.base && ch.hook == "prerouting", (t: Table) => Serves(t, family));
    assert OnHook(Hooked(family, r), family, "prerouting") == [b];
    assert [b][1..] == [] && Sort([b][1..], BaseLe) == [];
  }

  /** A load, a test the packet passes, and a rewrite. */
  lemma {:induction false} ThreeMatch(pkt: Packet, r: Rule, regs: Regs, target: Target)
    requires |r.exprs| == 3
    requires StepExpr(pkt, r.exprs[0], [], map[], NoAction) == Next(regs, NoAction)
    requires StepExpr(pkt, r.exprs[1], [], regs, NoAction) == Next(regs, NoAction)
    requires StepExpr(pkt, r.exprs[2], [], regs, NoAction) == Next(regs, Rewrite(target))
    ensures MatchRule(pkt, r, []) == (Match, Rewrite(target))
  {
    assert MatchFrom(pkt, r, [], 3, regs, Rewrite(target)) == (Match, Rewrite(target));
    assert MatchFrom(pkt, r, [], 2, regs, NoAction) == (Match, Rewrite(target));
    assert MatchFrom(pkt, r, [], 1, regs, NoAction) == (Match, Rewrite(target));
  }

  /** A rule that rewrites the packet decides the hook. */
  lemma {:induction false} HookedRewrites(pkt: Packet, r: Rule, bound: nat, target: Target)
    requires MatchRule(pkt, r, []) == (Match, Rewrite(target))
    ensures var rs := Hooked(pkt.family, r);
      Traverse(PacketContext(rs, pkt.family, bound, pkt), "prerouting", pkt).result == Accepted(Some(target))
  {
    var rs, b := Hooked(pkt.family, r), BaseChain("nat", Pre(r));
    var cx := PacketContext(rs, pkt.family, bound, pkt);
    HookedBases(pkt, r);
    assert TableSetsIn(rs.tables, pkt.family, "nat") == [];
    assert RuleEffect(cx, "nat", Pre(r), r).Stop? && Pre(r).rules[0] == r;
    var w := WalkChain(cx, "nat", Pre(r), 0);
    assert w == WalkRules(cx, "nat", Pre(r), Pre(r).rules, 0);
    assert [b][1..] == [] && WalkBases(cx, [b][1..], LastRewrite(w.result, None)).result == w.result;
  }

  /** The scan finds what it finds in the rule. */
  lemma {:induction false} HookedScans(family: string, r: Rule, bound: nat)
    requires TableFamilies(family) != []
    ensures var f := ScanRule(bound, NatTable(family, r), Pre(r), r, 0, ScanState(map[], map[], NO_CONSTRAINT), 0);
      ForwardRows(bound, Hooked(family, r)) == Found(AddRows([], f.rows), AddNotes([], f.notes))
  {
    var t, ch := NatTable(family, r), Pre(r);
    var f := ScanRule(bound, t, ch, r, 0, ScanState(map[], map[], NO_CONSTRAINT), 0);
    assert ch.rules[1..] == [] && ScanRules(bound, t, ch, [], NO_CONSTRAINT, 0) == NOTHING;
    assert f.Then(NOTHING) == f;
    assert ScanChain(bound, t, ch, NO_CONSTRAINT, 0) == f;
    assert t.chains[1..] == [] && ScanBases(bound, t, []) == NOTHING;
    assert ScanBases(bound, t, t.chains) == f;
    assert Hooked(family, r).tables[1..] == [] && ScanTables(bound, []) == NOTHING;
    assert ScanTables(bound, Hooked(family, r).tables) == f;
  }
}
