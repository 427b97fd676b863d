/** The shapes the forward scan takes for granted are needed: without any one of them a ruleset
    rewrites packets and the scan reports neither row nor note. */
module ScanLimits {
  import opened Wrappers
  import opened Bytes
  import opened Facts
  import opened Sorting
  import opened Matcher
  import opened Traversal
  import opened Forwards
  import opened ForwardSoundness
  import opened OneRule

  /** The prerouting hook rewrites the packet, and the scan finds nothing at all. */
  ghost predicate SilentForward(rs: Ruleset, pkt: Packet, bound: nat) {
    && Traverse(PacketContext(rs, pkt.family, bound, pkt), "prerouting", pkt).result.Accepted?
    && Traverse(PacketContext(rs, pkt.family, bound, pkt), "prerouting", pkt).result.dnat.Some?
    && ForwardRows(bound, rs) == NOTHING
  }

  lemma {:induction false} HookedIsSilent(pkt: Packet, r: Rule, bound: nat, target: Target)
    requires MatchRule(pkt, r, []) == (Match, Rewrite(target)) && ForwardRows(bound, Hooked(pkt.family, r)) == NOTHING
    ensures SilentForward(Hooked(pkt.family, r), pkt, bound)
  {
    HookedRewrites(pkt, r, bound, target);
  }

  const REWRITE := XtExpr(XtTarget, XtDnat, true, Some(DnatInfo(Some(IpAddr([10, 0, 0, 1])), 80)), None, None, None)
  const TO_LAN := Target(IpAddr([10, 0, 0, 1]), 80)

  // ---- the order of verdicts and rewrites --------------------------------------------------------

  const VERDICT_FIRST := Rule(1, [Verdict(Continue), Xt(REWRITE)])

  /** The matcher obeys the rewrite after the verdict, and the scan has stopped at the verdict. */
  lemma {:induction false} VerdictHidesForward(pkt: Packet, bound: nat)
    requires pkt.family == "ip"
    ensures SilentForward(Hooked("ip", VERDICT_FIRST), pkt, bound)
  {
    var r, st := VERDICT_FIRST, ScanState(map[], map[], NO_CONSTRAINT);
    VerdictFirstMatches(pkt);
    assert ScanExpr([], r.exprs[0], st) == ScanEnd;
    HookedScans("ip", r, bound);
    HookedIsSilent(pkt, r, bound, TO_LAN);
  }

  lemma {:induction false} VerdictFirstMatches(pkt: Packet)
    ensures MatchRule(pkt, VERDICT_FIRST, []) == (Match, Rewrite(TO_LAN))
  {
    var r := VERDICT_FIRST;
    assert MatchFrom(pkt, r, [], 2, map[], Rewrite(TO_LAN)) == (Match, Rewrite(TO_LAN));
    assert MatchFrom(pkt, r, [], 1, map[], Does(Continue)) == (Match, Rewrite(TO_LAN));
  }

  /** Beside the rule, a chain whose one rule rewrites. */
  const HIDDEN := Chain("x", false, "", 0, [], OtherPolicy(""), [Rule(2, [Xt(REWRITE)])])

  function Behind(r: Rule): Ruleset {
    Ruleset([Table("ip", "nat", [Pre(r), HIDDEN], [])], false)
  }

  lemma {:induction false} HiddenRewrites(pkt: Packet)
    ensures MatchRule(pkt, HIDDEN.rules[0], []) == (Match, Rewrite(TO_LAN))
  {
    assert MatchFrom(pkt, HIDDEN.rules[0], [], 1, map[], Rewrite(TO_LAN)) == (Match, Rewrite(TO_LAN));
  }

  lemma {:induction false} BehindWhere(r: Rule, p: Chain -> bool, q: Table -> bool)
    requires q(Behind(r).tables[0]) && !p(HIDDEN)
    ensures TablesWhere(Behind(r).tables, q, p) == if p(Pre(r)) then [BaseChain("nat", Pre(r))] else []
  {
    var t := Behind(r).tables[0];
    assert t.chains[1..] == [HIDDEN] && [HIDDEN][1..] == [];
    assert ChainsWhere(t, [HIDDEN], p) == [];
    assert Behind(r).tables[1..] == [];
  }

  lemma {:induction false} BehindBases(pkt: Packet, r: Rule)
    ensures Ingress(Behind(r), pkt) == [] && Unplaced(Behind(r), "ip") == []
    ensures Bases(Behind(r), "ip", "prerouting") == [BaseChain("nat", Pre(r))]
  {
    var b := BaseChain("nat", Pre(r));
    BehindWhere(r, (ch: Chain) => IngressBlocks(ch, pkt.inIface), (t: Table) => true);
    BehindWhere(r, (ch: Chain) => ch.base && !KnownHook(ch.hook), (t: Table) => Serves(t, "ip"));
    BehindWhere(r, (ch: Chain) => ch.base && ch.hook == "prerouting", (t: Table) => Serves(t, "ip"));
    assert OnHook(Behind(r), "ip", "prerouting") == [b];
    assert [b][1..] == [] && Sort([b][1..], BaseLe) == [];
  }

  /** A rule that jumps there hands the packet to the rewrite. */
  lemma {:induction false} BehindRewrites(pkt: Packet, r: Rule)
    requires pkt.family == "ip" && MatchRule(pkt, r, []) == (Match, Does(Jump("x")))
    ensures Traverse(PacketContext(Behind(r), "ip", 32, pkt), "prerouting", pkt).result == Accepted(Some(TO_LAN))
  {
    var cx, ch, b := PacketContext(Behind(r), "ip", 32, pkt), Pre(r), BaseChain("nat", Pre(r));
    var t := Behind(r).tables[0];
    BehindBases(pkt, r);
    HiddenRewrites(pkt);
    assert t.chains[1..] == [HIDDEN] && FindInChains([HIDDEN], "x") == Some(HIDDEN);
    assert FindInChains(t.chains, "x") == Some(HIDDEN);
    assert TableSetsIn(Behind(r).tables, "ip", "nat") == [];
    assert RuleEffect(cx, "nat", ch, r).Enter? && RuleEffect(cx, "nat", ch, r).target == HIDDEN;
    assert WalkChain(cx, "nat", HIDDEN, 1) == WalkRules(cx, "nat", HIDDEN, HIDDEN.rules, 1);
    assert WalkChain(cx, "nat", ch, 0) == WalkRules(cx, "nat", ch, ch.rules, 0);
    var w := WalkChain(cx, "nat", ch, 0);
    assert w.result == Accepted(Some(TO_LAN));
    assert [b][1..] == [] && WalkBases(cx, [b][1..], LastRewrite(w.result, None)).result == w.result;
  }

  lemma {:induction false} BehindScans(r: Rule)
    ensures var f := ScanRule(32, Behind(r).tables[0], Pre(r), r, 0, ScanState(map[], map[], NO_CONSTRAINT), 0);
      ForwardRows(32, Behind(r)) == Found(AddRows([], f.rows), AddNotes([], f.notes))
  {
    var t, ch := Behind(r).tables[0], Pre(r);
    var f := ScanRule(32, t, ch, r, 0, ScanState(map[], map[], NO_CONSTRAINT), 0);
    assert ch.rules[1..] == [] && ScanRules(32, t, ch, [], NO_CONSTRAINT, 0) == NOTHING;
    assert f.Then(NOTHING) == f;
    assert ScanChain(32, t, ch, NO_CONSTRAINT, 0) == f;
    assert t.chains[1..] == [HIDDEN] && [HIDDEN][1..] == [];
    assert ScanBases(32, t, [HIDDEN]) == NOTHING;
    assert ScanBases(32, t, t.chains) == f;
    assert Behind(r).tables[1..] == [] && ScanTables(32, []) == NOTHING;
    assert ScanTables(32, Behind(r).tables) == f;
  }

  const TWO_VERDICTS := Rule(1, [Verdict(Continue), Verdict(Jump("x"))])

  /** The matcher obeys the last verdict of a rule and the scan stops at the first, so a rule with
      two of them hides a rewrite that really happens. */
  lemma {:induction false} TwoVerdictsHideAForward(pkt: Packet)
    requires pkt.family == "ip"
    ensures SilentForward(Behind(TWO_VERDICTS), pkt, 32)
  {
    var r, st := TWO_VERDICTS, ScanState(map[], map[], NO_CONSTRAINT);
    assert MatchFrom(pkt, r, [], 2, map[], Does(Jump("x"))) == (Match, Does(Jump("x")));
    assert MatchFrom(pkt, r, [], 1, map[], Does(Continue)) == (Match, Does(Jump("x")));
    BehindRewrites(pkt, r);
    assert ScanExpr([], r.exprs[0], st) == ScanEnd;
    BehindScans(r);
  }

  const REWRITE_FIRST := Rule(1, [Xt(REWRITE), Verdict(Jump("x"))])

  /** After a rewrite the scan does not follow a jump that the packet takes: it speaks of the wrong
      rule, and of the one that rewrote the packet not at all. */
  lemma {:induction false} RewriteBeforeJumpMisleads(pkt: Packet)
    requires pkt.family == "ip"
    ensures Traverse(PacketContext(Behind(REWRITE_FIRST), "ip", 32, pkt), "prerouting", pkt).result ==
      Accepted(Some(TO_LAN))
    ensures ForwardRows(32, Behind(REWRITE_FIRST)).rows == []
    ensures forall n :: n in ForwardRows(32, Behind(REWRITE_FIRST)).notes ==> n.handle == 1
  {
    var r, st := REWRITE_FIRST, ScanState(map[], map[], NO_CONSTRAINT);
    assert MatchFrom(pkt, r, [], 2, map[], Does(Jump("x"))) == (Match, Does(Jump("x")));
    assert MatchFrom(pkt, r, [], 1, map[], Rewrite(TO_LAN)) == (Match, Does(Jump("x")));
    BehindRewrites(pkt, r);
    var t := Behind(r).tables[0];
    assert ScanExpr([], r.exprs[0], st).ScanEmit?;
    BehindScans(r);
    OneNote(ScanRule(32, t, Pre(r), r, 0, st, 0));
  }

  lemma {:induction false} OneNote(f: Found)
    requires f.rows == [] && |f.notes| == 1
    ensures AddRows([], f.rows) == [] && AddNotes([], f.notes) == f.notes
  {
    assert f.notes[1..] == [] && [] + [f.notes[0]] == f.notes;
  }

  // ---- an equality with no bytes of protocol -----------------------------------------------------

  const NO_BYTES := Rule(1, [Meta(L4proto, 1), Cmp(Eq, 1, Hex([])), Xt(REWRITE)])

  /** No byte of the protocol compared: every packet passes, and the scan reads a protocol that has
      no ports. */
  lemma {:induction false} EmptyComparisonHidesForward(pkt: Packet, bound: nat)
    requires pkt.family == "ip"
    ensures SilentForward(Hooked("ip", NO_BYTES), pkt, bound)
    ensures Ordered(NO_BYTES) && !ProtocolTests("ip", NO_BYTES)
  {
    NoBytesMatch(pkt);
    OtherIsSilent("ip", NO_BYTES, bound, Hex([]));
    HookedIsSilent(pkt, NO_BYTES, bound, TO_LAN);
    TestedRightAfter(NO_BYTES, Hex([]));
  }

  lemma {:induction false} NoBytesMatch(pkt: Packet)
    ensures MatchRule(pkt, NO_BYTES, []) == (Match, Rewrite(TO_LAN))
  {
    var r, reg := NO_BYTES, [ProtoNumber(pkt.proto)];
    assert reg[..0] == [];
    assert StepExpr(pkt, r.exprs[1], [], map[1 := reg], NoAction) == Next(map[1 := reg], NoAction);
    ThreeMatch(pkt, r, map[1 := reg], TO_LAN);
  }

  lemma {:induction false} TestedRightAfter(r: Rule, data: Hex)
    requires |r.exprs| == 3 && LoadsProtocol(r.exprs[0]) && DestOf(r.exprs[0]) == Some(1)
    requires r.exprs[1] == Cmp(Eq, 1, data) && r.exprs[2].Xt?
    ensures TestsProtocol(r, 0, 1) && Ordered(r)
  {
  }

  /** A rule that asks for a protocol other than tcp and udp is not reported. */
  lemma {:induction false} OtherIsSilent(family: string, r: Rule, bound: nat, data: Hex)
    requires TableFamilies(family) != [] && |r.exprs| == 3 && LoadsProtocol(r.exprs[0])
    requires DestOf(r.exprs[0]) == Some(1) && r.exprs[1] == Cmp(Eq, 1, data) && IsRewrite(r.exprs[2])
    requires ProtoFromHex(data) == "other"
    ensures ForwardRows(bound, Hooked(family, r)) == NOTHING
  {
    var t, ch := NatTable(family, r), Pre(r);
    var st0 := ScanState(map[], map[], NO_CONSTRAINT);
    var st1 := st0.(regs := map[1 := FwdL4Proto]);
    var st2 := st1.(m := FwdMatch("other", [], None));
    assert ScanExpr([], r.exprs[0], st0) == ScanOn(st1);
    assert ScanExpr([], r.exprs[1], st1) == ScanOn(st2);
    assert ScanExpr([], r.exprs[2], st2).ScanEmit?;
    assert ScanRule(bound, t, ch, r, 2, st2, 0) == NOTHING;
    assert ScanRule(bound, t, ch, r, 1, st1, 0) == NOTHING;
    assert ScanRule(bound, t, ch, r, 0, st0, 0) == NOTHING;
    HookedScans(family, r, bound);
  }

  // ---- a protocol read at the other family's offset -----------------------------------------------

  const TO_LAN6 := XtExpr(XtTarget, XtDnat, true, Some(DnatInfo(Some(IpAddr(Zeros(15) + [1])), 80)), None, None, None)
  const FOREIGN := Rule(1, [Payload(1, Network, 9, 1), Cmp(Eq, 1, Hex([1])), Xt(TO_LAN6)])

  /** Offset 9 of an IPv6 header is the second byte of the source address, here 1 as in 2001::/16;
      the scan reads it as a protocol that has no ports. */
  lemma {:induction false} ForeignOffsetHidesForward(pkt: Packet, bound: nat)
    requires pkt.family == "ip6" && pkt.src.Is6() && pkt.src.bytes[1] == 1
    ensures SilentForward(Hooked("ip6", FOREIGN), pkt, bound)
    ensures Ordered(FOREIGN) && !ProtocolTests("ip6", FOREIGN)
  {
    assert [1][0] != [6][0] && [1][0] != [17][0];
    ForeignMatch(pkt);
    OtherIsSilent("ip6", FOREIGN, bound, Hex([1]));
    HookedIsSilent(pkt, FOREIGN, bound, Target(IpAddr(Zeros(15) + [1]), 80));
    TestedRightAfter(FOREIGN, Hex([1]));
  }

  lemma {:induction false} ForeignMatch(pkt: Packet)
    requires pkt.family == "ip6" && pkt.src.Is6() && pkt.src.bytes[1] == 1
    ensures MatchRule(pkt, FOREIGN, []) == (Match, Rewrite(Target(IpAddr(Zeros(15) + [1]), 80)))
  {
    assert pkt.src.bytes[1..2] == [1];
    assert PayloadBytes(pkt, Network, 9, 1) == Some([1]);
    assert [1][..1] == [1];
    CompareEqual([1], [1]);
    ThreeMatch(pkt, FOREIGN, map[1 := [1]], Target(IpAddr(Zeros(15) + [1]), 80));
  }
}
