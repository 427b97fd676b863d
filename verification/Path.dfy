/** The path and the verdict tell one story: which rule rewrote the packet, and which rule
    stopped it. */
module Path {
  import opened Wrappers
  import opened Facts
  import opened Matcher
  import opened Traversal

  predicate NoRewrite(hits: seq<Hit>) {
    forall h :: h in hits ==> h.action != TagDnat
  }

  /** The last hit whose action is a rewrite. */
  function LastDnat(hits: seq<Hit>): Option<Hit> {
    if hits == [] then None
    else if hits[|hits| - 1].action == TagDnat then Some(hits[|hits| - 1])
    else LastDnat(hits[..|hits| - 1])
  }

  lemma {:induction false} LastDnatOf(a: seq<Hit>, b: seq<Hit>)
    ensures NoRewrite(b) ==> LastDnat(a + b) == LastDnat(a)
    ensures b != [] && b[|b| - 1].action == TagDnat ==> LastDnat(a + b) == Some(b[|b| - 1])
    ensures LastDnat(b).Some? ==> LastDnat(a + b) == LastDnat(b)
    ensures LastDnat(b).None? <==> NoRewrite(b)
    decreases |b|
  {
    if b == [] {
      assert a + b == a;
    } else {
      var front := b[..|b| - 1];
      assert (a + b)[..|a + b| - 1] == a + front;
      assert b == front + [b[|b| - 1]];
      LastDnatOf(a, front);
    }
  }

  /** The rule of a hit, met by the packet again, matches and rewrites to this target. */
  predicate Rewrites(rs: Ruleset, family: string, pkt: Packet, h: Hit, target: Target) {
    MatchRule(pkt, h.rule, TableSetsIn(rs.tables, family, h.table)) == (Match, Rewrite(target))
  }

  predicate LastRewrites(rs: Ruleset, family: string, pkt: Packet, hits: seq<Hit>, target: Target) {
    hits != [] && hits[|hits| - 1].action == TagDnat && Rewrites(rs, family, pkt, hits[|hits| - 1], target)
  }

  /** The hit names the rule a verdict's reason names. */
  predicate NamesRule(h: Hit, table: string, chain: string, handle: nat) {
    h.table == table && h.chain == chain && h.handle == handle
  }

  /** What the hits of a walk say about its result. */
  predicate Tells(rs: Ruleset, family: string, pkt: Packet, w: Walk) {
    match w.result
    case Accepted(Some(target)) => LastRewrites(rs, family, pkt, w.hits, target)
    case Accepted(None) => NoRewrite(w.hits)
    case FellOff => NoRewrite(w.hits)
    case Unwound => NoRewrite(w.hits)
    case Dropped(ByRule(rejected, table, chain, handle)) =>
      && w.hits != []
      && NamesRule(w.hits[|w.hits| - 1], table, chain, handle)
      && w.hits[|w.hits| - 1].action == (if rejected then TagReject else TagDrop)
    case Unresolved(RuleUnresolved(handle, table, chain)) =>
      && w.hits != []
      && NamesRule(w.hits[|w.hits| - 1], table, chain, handle)
      && MatchRule(pkt, w.hits[|w.hits| - 1].rule, TableSetsIn(rs.tables, family, table)).0 == Unknown
    case _ => true
  }

  lemma {:induction false} TellsAfter(rs: Ruleset, family: string, pkt: Packet, w: Walk, a: seq<Hit>)
    requires Tells(rs, family, pkt, w) && NoRewrite(a)
    ensures Tells(rs, family, pkt, w.After(a))
  {
    if w.hits != [] {
      assert (a + w.hits)[|a + w.hits| - 1] == w.hits[|w.hits| - 1];
    }
  }

  lemma {:induction false} ChainTells(rs: Ruleset, family: string, pkt: Packet, bound: nat, table: string, ch: Chain,
                                      depth: nat)
    ensures Tells(rs, family, pkt, WalkChain(PacketContext(rs, family, bound, pkt), table, ch, depth))
    decreases Left(PacketContext(rs, family, bound, pkt), depth), |ch.rules| + 1
  {
    if depth <= bound {
      RulesTell(rs, family, pkt, bound, table, ch, ch.rules, depth);
    }
  }

  lemma {:induction false} RulesTell(rs: Ruleset, family: string, pkt: Packet, bound: nat, table: string, ch: Chain,
                                     rules: seq<Rule>, depth: nat)
    requires depth <= bound
    ensures Tells(rs, family, pkt, WalkRules(PacketContext(rs, family, bound, pkt), table, ch, rules, depth))
    decreases Left(PacketContext(rs, family, bound, pkt), depth), |rules|
  {
    var cx := PacketContext(rs, family, bound, pkt);
    if rules != [] {
      match RuleEffect(cx, table, ch, rules[0])
      case Pass(hits) =>
        RulesTell(rs, family, pkt, bound, table, ch, rules[1..], depth);
        TellsAfter(rs, family, pkt, WalkRules(cx, table, ch, rules[1..], depth), hits);
      case Stop(_, _) => StopTells(rs, family, pkt, cx, table, ch, rules[0]);
      case Enter(target, _, _) =>
        ChainTells(rs, family, pkt, bound, table, target, depth + 1);
        RulesTell(rs, family, pkt, bound, table, ch, rules[1..], depth);
        EnterTells(rs, family, pkt, cx, table, ch, rules, depth);
    }
  }

  lemma {:induction false} StopTells(rs: Ruleset, family: string, pkt: Packet, cx: Context, table: string, ch: Chain,
                                     r: Rule)
    requires cx.matcher(table, ch, r) == MatchRule(pkt, r, TableSetsIn(rs.tables, family, table))
    requires RuleEffect(cx, table, ch, r).Stop?
    ensures var e := RuleEffect(cx, table, ch, r);
      Tells(rs, family, pkt, Walk(e.result, [e.hit]))
  {
  }

  /** A jump or goto: what its chain tells, and what the rules after it tell, is kept. */
  lemma {:induction false} EnterTells(rs: Ruleset, family: string, pkt: Packet, cx: Context, table: string, ch: Chain,
                                      rules: seq<Rule>, depth: nat)
    requires depth <= cx.bound && rules != [] && RuleEffect(cx, table, ch, rules[0]).Enter?
    requires Tells(rs, family, pkt, WalkChain(cx, table, RuleEffect(cx, table, ch, rules[0]).target, depth + 1))
    requires Tells(rs, family, pkt, WalkRules(cx, table, ch, rules[1..], depth))
    ensures Tells(rs, family, pkt, WalkRules(cx, table, ch, rules, depth))
  {
    var e := RuleEffect(cx, table, ch, rules[0]);
    var sub := WalkChain(cx, table, e.target, depth + 1);
    TellsAfter(rs, family, pkt, sub, [e.hit]);
    if sub.result.FellOff? && !e.isGoto {
      TellsAfter(rs, family, pkt, WalkRules(cx, table, ch, rules[1..], depth), [e.hit] + sub.hits);
    }
  }

  /** What a rewrite in force before the walk becomes. */
  ghost predicate RewriteIsLast(rs: Ruleset, family: string, pkt: Packet, hits: seq<Hit>, before: Option<Target>,
                                after: Option<Target>) {
    match LastDnat(hits)
    case None => after == before
    case Some(h) => after.Some? && Rewrites(rs, family, pkt, h, after.value)
  }

  lemma {:induction false} StopTellsAfter(rs: Ruleset, family: string, pkt: Packet, w: Walk, a: seq<Hit>)
    requires Tells(rs, family, pkt, w) && (w.result.Dropped? || w.result.Unresolved?)
    ensures Tells(rs, family, pkt, w.After(a))
  {
    if w.hits != [] {
      assert (a + w.hits)[|a + w.hits| - 1] == w.hits[|w.hits| - 1];
    }
  }

  lemma {:induction false} RewriteAfter(rs: Ruleset, family: string, pkt: Packet, w: Walk, rest: seq<Hit>,
                                        before: Option<Target>, after: Option<Target>)
    requires w.result.Accepted? && Tells(rs, family, pkt, w)
    requires RewriteIsLast(rs, family, pkt, rest, LastRewrite(w.result, before), after)
    ensures RewriteIsLast(rs, family, pkt, w.hits + rest, before, after)
  {
    LastDnatOf(w.hits, rest);
    LastDnatOf([], w.hits);
    assert [] + w.hits == w.hits;
  }

  /** Base chains stop at a verdict, which the last hit explains, or accept with a rewrite. */
  ghost predicate BasesTellWalk(rs: Ruleset, family: string, pkt: Packet, w: Walk, before: Option<Target>) {
    if w.result.Accepted? then RewriteIsLast(rs, family, pkt, w.hits, before, w.result.dnat)
    else (w.result.Dropped? || w.result.Unresolved?) && Tells(rs, family, pkt, w)
  }

  lemma {:induction false} BasesTell(rs: Ruleset, family: string, pkt: Packet, bound: nat, bases: seq<BaseChain>,
                                     dnat: Option<Target>)
    ensures BasesTellWalk(rs, family, pkt, WalkBases(PacketContext(rs, family, bound, pkt), bases, dnat), dnat)
  {
    var cx := PacketContext(rs, family, bound, pkt);
    if bases != [] {
      ChainTells(rs, family, pkt, bound, bases[0].table, bases[0].chain, 0);
      var w := WalkChain(cx, bases[0].table, bases[0].chain, 0);
      if w.result.Accepted? {
        var d := LastRewrite(w.result, dnat);
        BasesTell(rs, family, pkt, bound, bases[1..], d);
        var rest := WalkBases(cx, bases[1..], d);
        if rest.result.Accepted? {
          RewriteAfter(rs, family, pkt, w, rest.hits, dnat, rest.result.dnat);
        } else {
          StopTellsAfter(rs, family, pkt, rest, w.hits);
        }
      }
    }
  }

  /** On accept the rewrite `Traverse` returns is that of the last hit whose action is dnat, over
      all base chains of the hook, and there is none exactly when no hit is. When a rule drops
      the packet or cannot be resolved, that rule is the last hit. */
  lemma {:induction false} PathTellsVerdict(rs: Ruleset, family: string, hook: string, pkt: Packet, bound: nat)
    ensures var w := Traverse(PacketContext(rs, family, bound, pkt), hook, pkt);
      w.result.Accepted? ==>
        match LastDnat(w.hits)
        case None => w.result.dnat == None
        case Some(h) => w.result.dnat.Some? && Rewrites(rs, family, pkt, h, w.result.dnat.value)
    ensures var w := Traverse(PacketContext(rs, family, bound, pkt), hook, pkt);
      !w.result.Accepted? ==> Tells(rs, family, pkt, w)
  {
    BasesTell(rs, family, pkt, bound, Bases(rs, family, hook), None);
  }
}
