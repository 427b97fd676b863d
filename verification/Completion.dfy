/** Every concrete meaning the unresolvable parts of a ruleset could have. A completion gives
    each expression the matcher gives up on a meaning of its own; a verdict is sound when it is
    the verdict of every completion. */
module Completion {
  import opened Bytes
  import opened Facts
  import opened Sorting
  import opened Matcher
  import opened Traversal
  import opened Machine

  /** Where a rule got stuck: the expression and everything executed so far. */
  datatype Site = Site(table: string, chain: string, rule: Rule, index: nat, regs: Regs, act: Action)

  /** What an expression does once its meaning is known: go on, fail the rule, or end it. */
  datatype Effectual = GoOn(regs: Regs, act: Action) | Break | End(act: Action)

  /** One choice of meaning. A load puts `bytes` in its register or breaks the rule, a test fires
      or not, and an expression with no known shape does anything at all. */
  datatype Meaning = Meaning(fires: bool, bytes: Bytes, anything: Effectual)

  type Completed = Site -> Meaning

  /** One choice of meanings for every step of a run: a rule met twice, or two equal rules, may
      behave differently each time. */
  type Schedule = nat -> Completed

  function Concrete(e: Expr, regs: Regs, act: Action, m: Meaning): Effectual {
    var load := (dest: nat) => if m.fires then GoOn(regs[dest := m.bytes], act) else Break;
    var test := if m.fires then GoOn(regs, act) else Break;
    match e
    case Payload(dest, _, _, _) => load(dest)
    case Meta(_, dest) => load(dest)
    case Bitwise(_, dest, _, _) => load(dest)
    case Ct(_, dest) => load(dest)
    case Immediate(dest, _) => load(dest)
    case Fib(_, dest, _, _) => load(dest)
    case Cmp(_, _, _) => test
    case Range(_, _, _, _) => test
    case Xt(x) => if x.kind == XtMatch then test else m.anything
    case _ => m.anything
  }

  /** The rule under a completion: resolved expressions as the matcher has them. */
  function CompleteFrom(pkt: Packet, site: Site, sets: seq<NftSet>, o: Completed): (Outcome, Action)
    requires site.index <= |site.rule.exprs|
    decreases |site.rule.exprs| - site.index
  {
    if site.index == |site.rule.exprs| then (Match, site.act)
    else
      var e := site.rule.exprs[site.index];
      match StepExpr(pkt, e, sets, site.regs, site.act)
      case Next(regs, act) => CompleteFrom(pkt, site.(index := site.index + 1, regs := regs, act := act), sets, o)
      case Fail => (NoMatch, site.act)
      case Stuck =>
        match Concrete(e, site.regs, site.act, o(site))
        case GoOn(regs, act) => CompleteFrom(pkt, site.(index := site.index + 1, regs := regs, act := act), sets, o)
        case Break => (NoMatch, site.act)
        case End(act) => (Match, act)
  }

  function CompleteMatcher(rs: Ruleset, family: string, pkt: Packet, o: Completed): RuleMatcher {
    (table: string, ch: Chain, r: Rule) =>
      CompleteFrom(pkt, Site(table, ch.name, r, 0, map[], NoAction), TableSetsIn(rs.tables, family, table), o)
  }

  // ---- rules -------------------------------------------------------------------------

  /** `c` is an answer a completion of `a` may give: a decided rule stays as it is, and a
      skipped one still decides nothing. */
  predicate Completes(a: (Outcome, Action), c: (Outcome, Action)) {
    match a.0
    case Unknown => true
    case Skipped => c.0 == NoMatch || (c.0 == Match && c.1 == NoAction)
    case _ => c == a
  }

  /** In a rule whose expressions are all indifferent but for unresolved xt matches, no
      completion ever acquires an action. */
  lemma {:induction false} IndifferentRule(pkt: Packet, site: Site, sets: seq<NftSet>, o: Completed)
    requires site.index <= |site.rule.exprs| && site.act == NoAction
    requires forall e :: e in site.rule.exprs ==>
      Indifferent(pkt, e) || (e.Xt? && e.xt.kind == XtMatch && XtEval(pkt, e.xt).XtUnresolved?)
    ensures Completes((Skipped, NoAction), CompleteFrom(pkt, site, sets, o))
    decreases |site.rule.exprs| - site.index
  {
    if site.index < |site.rule.exprs| {
      var e := site.rule.exprs[site.index];
      assert e in site.rule.exprs;
      match StepExpr(pkt, e, sets, site.regs, site.act)
      case Next(regs, act) =>
        IndifferentRule(pkt, site.(index := site.index + 1, regs := regs, act := act), sets, o);
      case Fail =>
      case Stuck =>
        match Concrete(e, site.regs, site.act, o(site)) {
          case GoOn(regs, act) =>
            IndifferentRule(pkt, site.(index := site.index + 1, regs := regs, act := act), sets, o);
          case _ =>
        }
    }
  }

  /** A skipped rule: from its first expression on, every completion decides nothing, even when
      decoding one match exposes an unresolved load after it. */
  lemma {:induction false} SkippableStaysNeutral(pkt: Packet, start: Site, sets: seq<NftSet>, o: Completed, idx: nat)
    requires start.index == 0 && start.act == NoAction
    requires idx < |start.rule.exprs| && Skippable(pkt, start.rule, idx)
    requires XtEval(pkt, start.rule.exprs[idx].xt).XtUnresolved?
    ensures Completes((Skipped, NoAction), CompleteFrom(pkt, start, sets, o))
  {
    forall e | e in start.rule.exprs
      ensures Indifferent(pkt, e) || (e.Xt? && e.xt.kind == XtMatch && XtEval(pkt, e.xt).XtUnresolved?)
    {
      var i :| 0 <= i < |start.rule.exprs| && start.rule.exprs[i] == e;
    }
    IndifferentRule(pkt, start, sets, o);
  }

  lemma {:induction false} RuleCompletesFrom(pkt: Packet, start: Site, site: Site, sets: seq<NftSet>, o: Completed)
    requires start.index == 0 && start.act == NoAction && site.rule == start.rule
    requires site.index <= |site.rule.exprs|
    requires CompleteFrom(pkt, start, sets, o) == CompleteFrom(pkt, site, sets, o)
    ensures Completes(
      MatchFrom(pkt, site.rule, sets, site.index, site.regs, site.act), CompleteFrom(pkt, start, sets, o))
    decreases |site.rule.exprs| - site.index
  {
    if site.index < |site.rule.exprs| {
      var e := site.rule.exprs[site.index];
      match StepExpr(pkt, e, sets, site.regs, site.act)
      case Next(regs, act) =>
        RuleCompletesFrom(pkt, start, site.(index := site.index + 1, regs := regs, act := act), sets, o);
      case Fail =>
      case Stuck =>
        if Skippable(pkt, site.rule, site.index) {
          SkippableStaysNeutral(pkt, start, sets, o, site.index);
        }
    }
  }

  lemma {:induction false} RuleCompletes(rs: Ruleset, family: string, pkt: Packet, o: Completed, table: string,
                                         ch: Chain, r: Rule)
    ensures Completes(PacketMatcher(rs, family, pkt)(table, ch, r), CompleteMatcher(rs, family, pkt, o)(table, ch, r))
  {
    var start := Site(table, ch.name, r, 0, map[], NoAction);
    RuleCompletesFrom(pkt, start, start, TableSetsIn(rs.tables, family, table), o);
  }

  // ---- runs under a schedule of meanings ------------------------------------------------

  /** The machine, with the rules at step `t` met as `ms(t)` has it. */
  function RunUnder(cx: Context, ms: nat -> RuleMatcher, t: nat, n: nat, c: Config): Config
    decreases n
  {
    if n == 0 then c else RunUnder(cx, ms, t + 1, n - 1, Machine.Step(cx.(matcher := ms(t)), c))
  }

  function ScheduledMatchers(rs: Ruleset, family: string, pkt: Packet, o: Schedule): nat -> RuleMatcher {
    (t: nat) => CompleteMatcher(rs, family, pkt, o(t))
  }

  lemma {:induction false} StaysHaltedUnder(cx: Context, ms: nat -> RuleMatcher, t: nat, n: nat, c: Config)
    requires c.Halted?
    ensures RunUnder(cx, ms, t, n, c) == c
    decreases n
  {
    if n > 0 {
      StaysHaltedUnder(cx, ms, t + 1, n - 1, c);
    }
  }

  /** Under one schedule a machine that halts does so in one way only. */
  lemma {:induction false} HaltsOnce(cx: Context, ms: nat -> RuleMatcher, t: nat, m: nat, n: nat, c: Config)
    requires RunUnder(cx, ms, t, m, c).Halted? && RunUnder(cx, ms, t, n, c).Halted?
    ensures RunUnder(cx, ms, t, m, c) == RunUnder(cx, ms, t, n, c)
    decreases m
  {
    if c.Halted? {
      StaysHaltedUnder(cx, ms, t, m, c);
      StaysHaltedUnder(cx, ms, t, n, c);
    } else {
      HaltsOnce(cx, ms, t + 1, m - 1, n - 1, Machine.Step(cx.(matcher := ms(t)), c));
    }
  }

  /** The hits that steered the packet: all but skipped rules and rules without effect. */
  function Steering(hits: seq<Hit>): seq<Hit> {
    if hits == [] then [] else SteeringOne(hits[0]) + Steering(hits[1..])
  }

  function SteeringOne(hit: Hit): seq<Hit> {
    if hit.action == TagSkipped || hit.action == TagNone then [] else [hit]
  }

  lemma {:induction false} SteeringConcat(a: seq<Hit>, b: seq<Hit>)
    ensures Steering(a + b) == Steering(a) + Steering(b)
  {
    ConcatHead(a, b);
    if a != [] {
      SteeringConcat(a[1..], b);
      ConcatAssociates(SteeringOne(a[0]), Steering(a[1..]), Steering(b));
    }
  }

  /** One configuration but for hits that steered nothing. */
  ghost predicate Alike(c: Config, d: Config) {
    && Steering(c.hits) == Steering(d.hits)
    && match c
       case Running(_, _, _, _, _, _) => d == c.(hits := d.hits)
       case Halted(_, _) => d == c.(hits := d.hits)
  }

  predicate GaveUp(c: Config) {
    c.Halted? && c.judgement.JUnknown?
  }

  /** A step appends to the hits and does not look at them. */
  lemma {:induction false} StepAppends(cx: Context, c: Config, h: seq<Hit>) returns (more: seq<Hit>)
    ensures var s := Machine.Step(cx, c);
      s.hits == c.hits + more && Machine.Step(cx, c.(hits := h)) == s.(hits := h + more)
  {
    assert c.hits + [] == c.hits && h + [] == h;
    more := [];
    if c.Running? && c.cur.rest != [] {
      var ch, r := c.cur.chain, c.cur.rest[0];
      var (out, act) := cx.matcher(c.base.table, ch, r);
      more :=
        match out
        case NoMatch => []
        case Skipped => [HitOf(cx, c.base.table, ch, r, TagSkipped)]
        case _ => [HitOf(cx, c.base.table, ch, r, ActionTag(act))];
    }
  }

  /** A rule both matchers answer alike makes the same step. */
  lemma {:induction false} SameAnswerSameStep(cx: Context, m: RuleMatcher, c: Config)
    requires c.Running? && c.cur.rest != [] ==>
      m(c.base.table, c.cur.chain, c.cur.rest[0]) == cx.matcher(c.base.table, c.cur.chain, c.cur.rest[0])
    ensures Machine.Step(cx.(matcher := m), c) == Machine.Step(cx, c)
  {
    forall table, name ensures FindChain(cx.(matcher := m), table, name) == FindChain(cx, table, name) {}
  }

  /** One step: a decided rule does the same under its completion, and a skipped one moves on
      either way. */
  lemma {:induction false} StepAlike(cx: Context, m: RuleMatcher, c: Config, d: Config)
    requires Alike(c, d)
    requires forall table, ch, r :: Completes(cx.matcher(table, ch, r), m(table, ch, r))
    ensures GaveUp(Machine.Step(cx, c)) || Alike(Machine.Step(cx, c), Machine.Step(cx.(matcher := m), d))
  {
    var skips := c.Running? && c.cur.rest != [] && cx.matcher(c.base.table, c.cur.chain, c.cur.rest[0]).0.Skipped?;
    if !GaveUp(Machine.Step(cx, c)) {
      if c.Running? && c.cur.rest != [] {
        assert Completes(
          cx.matcher(c.base.table, c.cur.chain, c.cur.rest[0]), m(c.base.table, c.cur.chain, c.cur.rest[0]));
      }
      if skips {
        SkipAlike(cx, m, c, d);
      } else {
        SameAnswerSameStep(cx, m, d);
        var more := StepAppends(cx, c, d.hits);
        SteeringConcat(c.hits, more);
        SteeringConcat(d.hits, more);
      }
    }
  }

  lemma {:induction false} SkipAlike(cx: Context, m: RuleMatcher, c: Config, d: Config)
    requires Alike(c, d) && c.Running? && c.cur.rest != []
    requires cx.matcher(c.base.table, c.cur.chain, c.cur.rest[0]).0.Skipped?
    requires Completes(cx.matcher(c.base.table, c.cur.chain, c.cur.rest[0]),
      m(c.base.table, c.cur.chain, c.cur.rest[0]))
    ensures Alike(Machine.Step(cx, c), Machine.Step(cx.(matcher := m), d))
  {
    var table, ch, r := c.base.table, c.cur.chain, c.cur.rest[0];
    forall hits, tag | tag == TagSkipped || tag == TagNone
      ensures Steering(hits + [HitOf(cx, table, ch, r, tag)]) == Steering(hits)
    {
      var h := HitOf(cx, table, ch, r, tag);
      SteeringConcat(hits, [h]);
      assert [h][1..] == [] && Steering([h]) == SteeringOne(h) + Steering([]);
    }
    assert HitOf(cx.(matcher := m), table, ch, r, TagNone) == HitOf(cx, table, ch, r, TagNone);
    assert Steering(d.hits + [HitOf(cx, table, ch, r, TagNone)]) == Steering(d.hits);
  }

  lemma {:induction false} RunAlike(cx: Context, ms: nat -> RuleMatcher, t: nat, n: nat, c: Config, d: Config)
    requires Alike(c, d) && !GaveUp(Run(cx, n, c))
    requires forall i, table, ch, r :: Completes(cx.matcher(table, ch, r), ms(i)(table, ch, r))
    ensures Alike(Run(cx, n, c), RunUnder(cx, ms, t, n, d))
    decreases n
  {
    if n > 0 {
      StepAlike(cx, ms(t), c, d);
      if GaveUp(Machine.Step(cx, c)) {
        StaysHalted(cx, n - 1, Machine.Step(cx, c));
      }
      RunAlike(cx, ms, t + 1, n - 1, Machine.Step(cx, c), Machine.Step(cx.(matcher := ms(t)), d));
    }
  }

  // ---- soundness ----------------------------------------------------------------------

  predicate Decided(res: Result) {
    res.Accepted? || res.Dropped?
  }

  /** Under this schedule the hook, run by the machine with no nesting limit, halts with this
      judgement and these steering hits. */
  ghost predicate HookJudges(cx: Context, hook: string, ms: nat -> RuleMatcher, j: Judgement, steering: seq<Hit>) {
    exists n: nat, hits ::
      RunUnder(cx, ms, 0, n, Load(cx, hook)) == Halted(j, hits) && Steering(hits) == steering
  }

  /** Whenever `Traverse` says accept or drop, that is the verdict, with the same rewrite and the
      same steering rules, whatever everything unresolved means, each time it is met. */
  lemma {:induction false} DecidedInEveryCompletion(rs: Ruleset, family: string, hook: string, pkt: Packet, bound: nat,
                                                    o: Schedule)
    requires RegularJumps(PacketContext(rs, family, bound, pkt))
    requires Decided(Traverse(PacketContext(rs, family, bound, pkt), hook, pkt).result)
    ensures var cx := PacketContext(rs, family, bound, pkt);
      var w := Traverse(cx, hook, pkt);
      HookJudges(cx, hook, ScheduledMatchers(rs, family, pkt, o), JudgementOf(w.result), Steering(w.hits))
  {
    var cx, ms := PacketContext(rs, family, bound, pkt), ScheduledMatchers(rs, family, pkt, o);
    var w, c := Traverse(cx, hook, pkt), Load(cx, hook);
    forall t, table, ch, r ensures Completes(cx.matcher(table, ch, r), ms(t)(table, ch, r)) {
      RuleCompletes(rs, family, pkt, o(t), table, ch, r);
    }
    TraverseRefinesMachine(cx, hook, pkt);
    var n: nat :| Run(cx, n, c) == Halted(JudgementOf(w.result), w.hits);
    RunAlike(cx, ms, 0, n, c, c);
    var last := RunUnder(cx, ms, 0, n, c);
    assert last == Halted(JudgementOf(w.result), last.hits);
  }
}
