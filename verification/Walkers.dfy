/** The walk as the source performs it: one mutable walker per hook, appending hits and
    remembering the last rewrite. Each method is tied to the functions of `Traversal`. */
module Walkers {
  import opened Wrappers
  import opened Facts
  import opened Sorting
  import opened Matcher
  import opened Traversal

  /** `all` is `seen` followed by the walk `rest`. */
  ghost predicate Joined(all: Walk, seen: seq<Hit>, rest: Walk) {
    all.result == rest.result && all.hits == seen + rest.hits
  }

  /** The rules of the chain before `i` are behind, with `seen` recorded. */
  ghost predicate Ahead(cx: Context, table: string, ch: Chain, i: nat, depth: nat, seen: seq<Hit>) {
    && depth <= cx.bound && i <= |ch.rules|
    && Joined(WalkRules(cx, table, ch, ch.rules, depth), seen, WalkRules(cx, table, ch, ch.rules[i..], depth))
  }

  lemma {:induction false} AheadFirst(cx: Context, table: string, ch: Chain, depth: nat)
    requires depth <= cx.bound
    ensures Ahead(cx, table, ch, 0, depth, [])
  {
    assert ch.rules[0..] == ch.rules;
    assert [] + WalkRules(cx, table, ch, ch.rules, depth).hits == WalkRules(cx, table, ch, ch.rules, depth).hits;
  }

  lemma {:induction false} RestSplits(ch: Chain, i: nat)
    requires i < |ch.rules|
    ensures ch.rules[i..] != [] && ch.rules[i..][0] == ch.rules[i] && ch.rules[i..][1..] == ch.rules[i + 1..]
  {
  }

  lemma {:induction false} PassAhead(cx: Context, table: string, ch: Chain, i: nat, depth: nat, start: seq<Hit>,
                                     seen: seq<Hit>)
    requires Ahead(cx, table, ch, i, depth, seen) && i < |ch.rules| && RuleEffect(cx, table, ch, ch.rules[i]).Pass?
    ensures var here := RuleEffect(cx, table, ch, ch.rules[i]).hits;
      Ahead(cx, table, ch, i + 1, depth, seen + here) && (start + seen) + here == start + (seen + here)
  {
    RestSplits(ch, i);
    var here := RuleEffect(cx, table, ch, ch.rules[i]).hits;
    ConcatAssociates(start, seen, here);
    ConcatAssociates(seen, here, WalkRules(cx, table, ch, ch.rules[i + 1..], depth).hits);
  }

  lemma {:induction false} StopAhead(cx: Context, table: string, ch: Chain, i: nat, depth: nat, start: seq<Hit>,
                                     seen: seq<Hit>)
    requires Ahead(cx, table, ch, i, depth, seen) && i < |ch.rules| && RuleEffect(cx, table, ch, ch.rules[i]).Stop?
    ensures var e := RuleEffect(cx, table, ch, ch.rules[i]);
      && WalkRules(cx, table, ch, ch.rules, depth) == Walk(e.result, seen + [e.hit])
      && (start + seen) + [e.hit] == start + (seen + [e.hit])
  {
    RestSplits(ch, i);
    ConcatAssociates(start, seen, [RuleEffect(cx, table, ch, ch.rules[i]).hit]);
  }

  /** Back from the chain a jump or goto entered. */
  lemma {:induction false} EnterAhead(cx: Context, table: string, ch: Chain, i: nat, depth: nat, start: seq<Hit>,
                                      seen: seq<Hit>)
    requires Ahead(cx, table, ch, i, depth, seen) && i < |ch.rules| && RuleEffect(cx, table, ch, ch.rules[i]).Enter?
    ensures var e := RuleEffect(cx, table, ch, ch.rules[i]);
      var sub := WalkChain(cx, table, e.target, depth + 1);
      var here := [e.hit] + sub.hits;
      var all := WalkRules(cx, table, ch, ch.rules, depth);
      && ((start + seen) + [e.hit]) + sub.hits == start + (seen + here)
      && if sub.result.Unwound? || (e.isGoto && sub.result.FellOff?) then all == Walk(Unwind(table, ch), seen + here)
         else if sub.result.FellOff? then Ahead(cx, table, ch, i + 1, depth, seen + here)
         else all == Walk(sub.result, seen + here)
  {
    RestSplits(ch, i);
    var e := RuleEffect(cx, table, ch, ch.rules[i]);
    var sub := WalkChain(cx, table, e.target, depth + 1);
    var here := [e.hit] + sub.hits;
    ConcatAssociates(start + seen, [e.hit], sub.hits);
    ConcatAssociates(start, seen, here);
    ConcatAssociates(seen, here, WalkRules(cx, table, ch, ch.rules[i + 1..], depth).hits);
  }

  lemma {:induction false} EndAhead(cx: Context, table: string, ch: Chain, depth: nat, seen: seq<Hit>)
    requires Ahead(cx, table, ch, |ch.rules|, depth, seen)
    ensures WalkRules(cx, table, ch, ch.rules, depth) ==
      Walk(if ch.base then BasePolicy(ch, PolicyAtEnd(table, ch.name)) else FellOff, seen)
  {
    assert ch.rules[|ch.rules|..] == [] && seen + [] == seen;
  }

  class Walker {
    const rs: Ruleset
    const family: string
    const pkt: Packet
    const bound: nat
    ghost const cx: Context
    var hits: seq<Hit>
    var dnat: Option<Target>

    constructor (rs: Ruleset, family: string, pkt: Packet, bound: nat)
      ensures this.rs == rs && this.family == family && this.pkt == pkt && this.bound == bound
      ensures hits == [] && dnat == None && Valid() && cx == PacketContext(rs, family, bound, pkt)
    {
      this.rs, this.family, this.pkt, this.bound := rs, family, pkt, bound;
      cx := PacketContext(rs, family, bound, pkt);
      hits, dnat := [], None;
    }

    /** `cx` is what the fields describe. */
    ghost predicate Valid() {
      cx == PacketContext(rs, family, bound, pkt)
    }

    /** The switch over one rule's outcome and action. */
    method Decide(table: string, ch: Chain, r: Rule, sets: seq<NftSet>) returns (e: Effect)
      requires Valid() && sets == TableSetsIn(rs.tables, family, table)
      ensures e == RuleEffect(cx, table, ch, r)
    {
      var out, act := RunRule(pkt, r, sets);
      assert (out, act) == cx.matcher(table, ch, r);
      var hit := Hit(family, table, ch.name, ch.hook, ch.priority, r.handle, ActionTag(act), r);
      match out {
        case NoMatch => return Pass([]);
        case Skipped => return Pass([hit.(action := TagSkipped)]);
        case Unknown => return Stop(Unresolved(RuleUnresolved(r.handle, table, ch.name)), hit);
        case Match =>
      }
      match act {
        case NoAction => return Pass([hit]);
        case Rewrite(target) => return Stop(Accepted(Some(target)), hit);
        case Does(v) =>
          match v {
            case Accept => return Stop(Accepted(None), hit);
            case Drop => return Stop(Dropped(ByRule(false, table, ch.name, r.handle)), hit);
            case Reject => return Stop(Dropped(ByRule(true, table, ch.name, r.handle)), hit);
            case Return =>
              return Stop(if ch.base then BasePolicy(ch, PolicyAfterReturn(table, ch.name)) else FellOff, hit);
            case Jump(name) =>
              var target := FindChainIn(rs.tables, family, table, name);
              if target.None? {
                return Stop(Unresolved(NoSuchChain(name)), hit);
              }
              return Enter(target.value, false, hit);
            case Goto(name) =>
              var target := FindChainIn(rs.tables, family, table, name);
              if target.None? {
                return Stop(Unresolved(NoSuchChain(name)), hit);
              }
              return Enter(target.value, true, hit);
            case Continue => return Pass([hit]);
            case OtherVerdict(name) => return Stop(Unresolved(UnhandledVerdict(name)), hit);
          }
      }
    }

    /** The hits of the walk are appended, and the rewrite is replaced exactly when the walk
        answered with one. */
    method WalkChain(table: string, ch: Chain, depth: nat) returns (res: Result)
      requires Valid()
      modifies this
      ensures res == Traversal.WalkChain(cx, table, ch, depth).result
      ensures hits == old(hits) + Traversal.WalkChain(cx, table, ch, depth).hits
      ensures dnat == LastRewrite(res, old(dnat))
      decreases Left(cx, depth)
    {
      if depth > bound {
        return Unresolved(NestingExceeded);
      }
      var sets := TableSetsIn(rs.tables, family, table);
      ghost var start := hits;
      ghost var seen: seq<Hit> := [];
      AheadFirst(cx, table, ch, depth);
      for i := 0 to |ch.rules|
        invariant hits == start + seen && dnat == old(dnat)
        invariant Ahead(cx, table, ch, i, depth, seen)
      {
        var e := Decide(table, ch, ch.rules[i], sets);
        match e {
          case Pass(passed) =>
            PassAhead(cx, table, ch, i, depth, start, seen);
            hits := hits + passed;
            seen := seen + passed;
          case Stop(result, hit) =>
            StopAhead(cx, table, ch, i, depth, start, seen);
            hits := hits + [hit];
            dnat := LastRewrite(result, dnat);
            return result;
          case Enter(target, isGoto, hit) =>
            EnterAhead(cx, table, ch, i, depth, start, seen);
            hits := hits + [hit];
            var sub := WalkChain(table, target, depth + 1);
            seen := seen + ([hit] + Traversal.WalkChain(cx, table, target, depth + 1).hits);
            if sub.Unwound? || (isGoto && sub.FellOff?) {
              return Unwind(table, ch);
            }
            if !sub.FellOff? {
              return sub;
            }
        }
      }
      EndAhead(cx, table, ch, depth, seen);
      if ch.base {
        return BasePolicy(ch, PolicyAtEnd(table, ch.name));
      }
      res := FellOff;
    }
  }

  /** The base chains before `i` have accepted, with these hits and this rewrite in force. */
  ghost predicate BasesAhead(cx: Context, bases: seq<BaseChain>, i: nat, dnat: Option<Target>, hits: seq<Hit>) {
    i <= |bases| && WalkBases(cx, bases, None) == WalkBases(cx, bases[i..], dnat).After(hits)
  }

  lemma {:induction false} NextBaseAhead(cx: Context, bases: seq<BaseChain>, i: nat, dnat: Option<Target>,
                                         hits: seq<Hit>)
    requires BasesAhead(cx, bases, i, dnat, hits) && i < |bases|
    ensures var w := WalkChain(cx, bases[i].table, bases[i].chain, 0);
      match w.result
      case Accepted(_) => BasesAhead(cx, bases, i + 1, LastRewrite(w.result, dnat), hits + w.hits)
      case Dropped(_) => WalkBases(cx, bases, None) == Walk(w.result, hits + w.hits)
      case Unresolved(_) => WalkBases(cx, bases, None) == Walk(w.result, hits + w.hits)
      case _ =>
        var unexpected := Unresolved(UnexpectedVerdict(bases[i].table, bases[i].chain.name));
        WalkBases(cx, bases, None) == Walk(unexpected, hits + w.hits)
  {
    var rest, w := bases[i..], WalkChain(cx, bases[i].table, bases[i].chain, 0);
    assert rest[0] == bases[i] && rest[1..] == bases[i + 1..];
    if w.result.Accepted? {
      ConcatAssociates(hits, w.hits, WalkBases(cx, rest[1..], LastRewrite(w.result, dnat)).hits);
    }
  }

  /** `Traverse`: refuse what cannot be walked, collect the base chains of the hook, sort them,
      and push the packet through each. */
  method TraverseHook(rs: Ruleset, family: string, hook: string, pkt: Packet, bound: nat)
    returns (w: Walk)
    ensures w == Traverse(PacketContext(rs, family, bound, pkt), hook, pkt)
  {
    var ingress := Ingress(rs, pkt);
    if ingress != [] {
      return Walk(Unresolved(IngressChain(ingress[0].table, ingress[0].chain.name)), []);
    }
    var unplaced := Unplaced(rs, family);
    if unplaced != [] {
      return Walk(Unresolved(UnknownHook(unplaced[0].table, unplaced[0].chain.name, unplaced[0].chain.hook)), []);
    }
    var bases := Sort(OnHook(rs, family, hook), BaseLe);
    ghost var cx := PacketContext(rs, family, bound, pkt);
    assert Traverse(cx, hook, pkt) == WalkBases(cx, bases, None);
    w := WalkEach(rs, family, pkt, bound, bases);
  }

  /** One walker across all base chains of the hook, in order. */
  method WalkEach(rs: Ruleset, family: string, pkt: Packet, bound: nat, bases: seq<BaseChain>) returns (w: Walk)
    ensures w == WalkBases(PacketContext(rs, family, bound, pkt), bases, None)
  {
    var walker := new Walker(rs, family, pkt, bound);
    ghost var cx := PacketContext(rs, family, bound, pkt);
    assert bases[0..] == bases;
    for i := 0 to |bases|
      invariant walker.Valid() && walker.cx == cx
      invariant BasesAhead(cx, bases, i, walker.dnat, walker.hits)
    {
      NextBaseAhead(cx, bases, i, walker.dnat, walker.hits);
      var res := walker.WalkChain(bases[i].table, bases[i].chain, 0);
      match res {
        case Accepted(_) =>
        case Dropped(_) => return Walk(res, walker.hits);
        case Unresolved(_) => return Walk(res, walker.hits);
        case _ => return Walk(Unresolved(UnexpectedVerdict(bases[i].table, bases[i].chain.name)), walker.hits);
      }
    }
    assert bases[|bases|..] == [];
    w := Walk(Accepted(walker.dnat), walker.hits);
  }
}
