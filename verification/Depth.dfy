/** The nesting bound: what raising it changes, and how many hits it allows. */
module Depth {
  import opened Wrappers
  import opened Facts
  import opened Traversal
  import opened Machine

  // ---- raising the bound ---------------------------------------------------------------

  lemma {:induction false} RaiseChain(cx: Context, more: nat, table: string, ch: Chain, depth: nat)
    requires more >= cx.bound && WalkChain(cx, table, ch, depth).result != Unresolved(NestingExceeded)
    ensures WalkChain(cx.(bound := more), table, ch, depth) == WalkChain(cx, table, ch, depth)
    decreases Left(cx, depth), |ch.rules| + 1
  {
    RaiseRules(cx, more, table, ch, ch.rules, depth);
  }

  lemma {:induction false} RaiseRules(cx: Context, more: nat, table: string, ch: Chain, rules: seq<Rule>, depth: nat)
    requires depth <= cx.bound <= more
    requires WalkRules(cx, table, ch, rules, depth).result != Unresolved(NestingExceeded)
    ensures WalkRules(cx.(bound := more), table, ch, rules, depth) == WalkRules(cx, table, ch, rules, depth)
    decreases Left(cx, depth), |rules|
  {
    var cy := cx.(bound := more);
    if rules != [] {
      assert RuleEffect(cy, table, ch, rules[0]) == RuleEffect(cx, table, ch, rules[0]);
      match RuleEffect(cx, table, ch, rules[0])
      case Pass(_) => RaiseRules(cx, more, table, ch, rules[1..], depth);
      case Stop(_, _) =>
      case Enter(target, isGoto, hit) =>
        RaiseChain(cx, more, table, target, depth + 1);
        if WalkChain(cx, table, target, depth + 1).result.FellOff? && !isGoto {
          RaiseRules(cx, more, table, ch, rules[1..], depth);
        }
    }
  }

  lemma {:induction false} RaiseBases(cx: Context, more: nat, bases: seq<BaseChain>, dnat: Option<Target>)
    requires more >= cx.bound && WalkBases(cx, bases, dnat).result != Unresolved(NestingExceeded)
    ensures WalkBases(cx.(bound := more), bases, dnat) == WalkBases(cx, bases, dnat)
  {
    if bases != [] {
      RaiseChain(cx, more, bases[0].table, bases[0].chain, 0);
      var w := WalkChain(cx, bases[0].table, bases[0].chain, 0);
      if w.result.Accepted? {
        RaiseBases(cx, more, bases[1..], LastRewrite(w.result, dnat));
      }
    }
  }

  /** A larger bound changes nothing but the nesting answer: any other result, and every hit of
      it, stays as it was. */
  lemma {:induction false} RaisingTheBound(cx: Context, more: nat, hook: string, pkt: Packet)
    requires more >= cx.bound && Traverse(cx, hook, pkt).result != Unresolved(NestingExceeded)
    ensures Traverse(cx.(bound := more), hook, pkt) == Traverse(cx, hook, pkt)
  {
    if Ingress(cx.rs, pkt) == [] && Unplaced(cx.rs, cx.family) == [] {
      RaiseBases(cx, more, Bases(cx.rs, cx.family, hook), None);
    }
  }

  // ---- how long the path can get ---------------------------------------------------------

  /** R + R^2 + ... + R^n. */
  function Geometric(r: nat, n: nat): nat {
    if n == 0 then 0 else r * (1 + Geometric(r, n - 1))
  }

  predicate ShortChains(rs: Ruleset, r: nat) {
    forall t, ch :: t in rs.tables && ch in t.chains ==> |ch.rules| <= r
  }

  lemma {:induction false} MulAtMost(a: nat, b: nat, c: nat)
    requires a <= b
    ensures a * c <= b * c
  {
  }

  lemma {:induction false} EnteredIsShort(cx: Context, r: nat, table: string, ch: Chain, rule: Rule)
    requires ShortChains(cx.rs, r) && RuleEffect(cx, table, ch, rule).Enter?
    ensures |RuleEffect(cx, table, ch, rule).target.rules| <= r
  {
    var act := cx.matcher(table, ch, rule).1;
    FoundInTables(cx, cx.rs.tables, table, act.verdict.chain);
  }

  lemma {:induction false} ChainHits(cx: Context, r: nat, table: string, ch: Chain, depth: nat)
    requires ShortChains(cx.rs, r) && |ch.rules| <= r
    ensures |WalkChain(cx, table, ch, depth).hits| <= Geometric(r, Left(cx, depth))
    decreases Left(cx, depth), |ch.rules| + 1
  {
    if depth <= cx.bound {
      RuleHits(cx, r, table, ch, ch.rules, depth);
      MulAtMost(|ch.rules|, r, 1 + Geometric(r, Left(cx, depth) - 1));
    }
  }

  lemma {:induction false} RuleHits(cx: Context, r: nat, table: string, ch: Chain, rules: seq<Rule>, depth: nat)
    requires ShortChains(cx.rs, r) && depth <= cx.bound
    ensures |WalkRules(cx, table, ch, rules, depth).hits| <= |rules| * (1 + Geometric(r, Left(cx, depth) - 1))
    decreases Left(cx, depth), |rules|
  {
    if rules != [] {
      var per := 1 + Geometric(r, Left(cx, depth) - 1);
      assert |rules| * per == per + |rules[1..]| * per;
      match RuleEffect(cx, table, ch, rules[0])
      case Pass(_) => RuleHits(cx, r, table, ch, rules[1..], depth);
      case Stop(_, _) =>
      case Enter(target, _, _) =>
        EnteredIsShort(cx, r, table, ch, rules[0]);
        ChainHits(cx, r, table, target, depth + 1);
        RuleHits(cx, r, table, ch, rules[1..], depth);
    }
  }

  /** With at most R rules in a chain, one base chain records at most R + R^2 + ... + R^(bound+1)
      hits, on every ruleset, jump loops included. */
  lemma {:induction false} PathLength(cx: Context, r: nat, table: string, ch: Chain)
    requires ShortChains(cx.rs, r) && |ch.rules| <= r
    ensures |WalkChain(cx, table, ch, 0).hits| <= Geometric(r, cx.bound + 1)
  {
    ChainHits(cx, r, table, ch, 0);
  }
}
