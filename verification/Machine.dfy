/** An independent reading of the same hook: an explicit-stack machine with no nesting limit.
    A jump saves the rest of the calling chain, a goto forgets every saved frame, a return or
    the end of a chain resumes the last saved frame, and when none is left the policy of the
    base chain decides. A base chain that accepts hands the packet to the next one. */
module Machine {
  import opened Wrappers
  import opened Facts
  import opened Sorting
  import opened Matcher
  import opened Traversal

  datatype Judgement = JAccept(dnat: Option<Target>) | JDrop | JUnknown

  /** A chain being executed: its remaining rules, and how many jumps and gotos were followed
      to get there. */
  datatype Frame = Frame(chain: Chain, rest: seq<Rule>, nest: nat)

  datatype Config =
    | Running(
        base: BaseChain, cur: Frame, saved: seq<Frame>, queue: seq<BaseChain>, dnat: Option<Target>, hits: seq<Hit>)
    | Halted(judgement: Judgement, hits: seq<Hit>)

  /** Load the next base chain, or accept when all have accepted. */
  function NextBase(queue: seq<BaseChain>, dnat: Option<Target>, hits: seq<Hit>): Config {
    if queue == [] then Halted(JAccept(dnat), hits)
    else
      Running(queue[0], Frame(queue[0].chain, queue[0].chain.rules, 0), [], queue[1..], dnat, hits)
  }

  function Leave(base: BaseChain, saved: seq<Frame>, queue: seq<BaseChain>, dnat: Option<Target>,
                 hits: seq<Hit>): Config {
    if saved != [] then Running(base, saved[|saved| - 1], saved[..|saved| - 1], queue, dnat, hits)
    else
      match base.chain.policy
      case PolicyAccept => NextBase(queue, dnat, hits)
      case PolicyDrop => Halted(JDrop, hits)
      case OtherPolicy(_) => Halted(JUnknown, hits)
  }

  /** Follow a jump or goto to the named chain. */
  function Call(cx: Context, c: Config, name: string, saved: seq<Frame>, hits: seq<Hit>): Config
    requires c.Running?
  {
    var target := FindChain(cx, c.base.table, name);
    if target.None? then Halted(JUnknown, hits)
    else c.(cur := Frame(target.value, target.value.rules, c.cur.nest + 1), saved := saved, hits := hits)
  }

  function Step(cx: Context, c: Config): Config {
    if c.Halted? then c
    else if c.cur.rest == [] then Leave(c.base, c.saved, c.queue, c.dnat, c.hits)
    else
      var ch, r := c.cur.chain, c.cur.rest[0];
      var after := c.cur.(rest := c.cur.rest[1..]);
      var (out, act) := cx.matcher(c.base.table, ch, r);
      var hits := c.hits + [HitOf(cx, c.base.table, ch, r, ActionTag(act))];
      match out
      case NoMatch => c.(cur := after)
      case Skipped => c.(cur := after, hits := c.hits + [HitOf(cx, c.base.table, ch, r, TagSkipped)])
      case Unknown => Halted(JUnknown, hits)
      case Match =>
        match act
        case NoAction => c.(cur := after, hits := hits)
        case Rewrite(target) => NextBase(c.queue, Some(target), hits)
        case Does(v) =>
          match v
          case Accept => NextBase(c.queue, c.dnat, hits)
          case Drop => Halted(JDrop, hits)
          case Reject => Halted(JDrop, hits)
          case Return => Leave(c.base, c.saved, c.queue, c.dnat, hits)
          case Jump(name) => Call(cx, c, name, c.saved + [after], hits)
          case Goto(name) => Call(cx, c, name, [], hits)
          case Continue => c.(cur := after, hits := hits)
          case OtherVerdict(_) => Halted(JUnknown, hits)
  }

  function Run(cx: Context, n: nat, c: Config): Config {
    if n == 0 then c else Run(cx, n - 1, Step(cx, c))
  }

  ghost predicate Reaches(cx: Context, c: Config, d: Config) {
    exists n: nat :: Run(cx, n, c) == d
  }

  lemma {:induction false} RunAdds(cx: Context, m: nat, n: nat, c: Config)
    ensures Run(cx, n, Run(cx, m, c)) == Run(cx, m + n, c)
  {
    if m > 0 {
      RunAdds(cx, m - 1, n, Step(cx, c));
    }
  }

  lemma {:induction false} ReachTransitive(cx: Context, c: Config, d: Config, e: Config)
    requires Reaches(cx, c, d) && Reaches(cx, d, e)
    ensures Reaches(cx, c, e)
  {
    var m: nat :| Run(cx, m, c) == d;
    var n: nat :| Run(cx, n, d) == e;
    RunAdds(cx, m, n, c);
  }

  lemma {:induction false} ReachStep(cx: Context, c: Config, e: Config)
    requires Reaches(cx, Step(cx, c), e)
    ensures Reaches(cx, c, e)
  {
    var n: nat :| Run(cx, n, Step(cx, c)) == e;
    assert Run(cx, n + 1, c) == e;
  }

  lemma {:induction false} ReachSelf(cx: Context, c: Config)
    ensures Reaches(cx, c, c)
  {
    assert Run(cx, 0, c) == c;
  }

  // ---- the recursion refines the machine -------------------------------------------

  /** The chain belongs to a table of that name. */
  predicate InTable(cx: Context, table: string, ch: Chain) {
    exists t :: t in cx.rs.tables && t.name == table && Serves(t, cx.family) && ch in t.chains
  }

  /** No rule of the table jumps or goes to a base chain. */
  ghost predicate RegularTargets(cx: Context, table: string) {
    forall ch, r :: InTable(cx, table, ch) && r in ch.rules && RuleEffect(cx, table, ch, r).Enter? ==>
      !RuleEffect(cx, table, ch, r).target.base
  }

  /** Where the machine stands once a chain entered with these saved frames has answered. */
  function Answered(res: Result, base: BaseChain, saved: seq<Frame>, queue: seq<BaseChain>, dnat: Option<Target>,
                    hits: seq<Hit>): Config {
    match res
    case Accepted(d) => NextBase(queue, LastRewrite(res, dnat), hits)
    case Dropped(_) => Halted(JDrop, hits)
    case Unresolved(_) => Halted(JUnknown, hits)
    case FellOff => Leave(base, saved, queue, dnat, hits)
    case Unwound => Leave(base, [], queue, dnat, hits)
  }

  /** More than `bound` nested jumps and gotos have really been followed. */
  predicate TooDeep(cx: Context, c: Config) {
    c.Running? && c.cur.nest > cx.bound
  }

  ghost predicate ReachesTooDeep(cx: Context, c: Config) {
    exists d :: Reaches(cx, c, d) && TooDeep(cx, d)
  }

  /** The machine follows the recursion: it arrives where the answer leads, with the same hits,
      or it really nests deeper than the bound. */
  ghost predicate Follows(cx: Context, c: Config, w: Walk)
    requires c.Running?
  {
    if w.result == Unresolved(NestingExceeded) then ReachesTooDeep(cx, c)
    else Reaches(cx, c, Answered(w.result, c.base, c.saved, c.queue, c.dnat, c.hits + w.hits))
  }

  /** A configuration the simulation starts from: part of a chain of the table, and the base
      chain itself only at the bottom. */
  predicate Proper(cx: Context, c: Config) {
    && c.Running?
    && InTable(cx, c.base.table, c.cur.chain)
    && (forall r :: r in c.cur.rest ==> r in c.cur.chain.rules)
    && (c.cur.chain.base ==> c.cur.chain == c.base.chain && c.saved == [])
  }

  lemma {:induction false} FollowsAfter(cx: Context, c: Config, d: Config, w: Walk, all: Walk, here: seq<Hit>)
    requires c.Running? && d.Running? && Reaches(cx, c, d) && Follows(cx, d, w)
    requires d.base == c.base && d.saved == c.saved && d.queue == c.queue && d.dnat == c.dnat
    requires d.hits == c.hits + here && all == w.After(here)
    ensures Follows(cx, c, all)
  {
    assert d.hits + w.hits == c.hits + all.hits;
    if w.result == Unresolved(NestingExceeded) {
      var e :| Reaches(cx, d, e) && TooDeep(cx, e);
      ReachTransitive(cx, c, d, e);
    } else {
      ReachTransitive(cx, c, d, Answered(w.result, d.base, d.saved, d.queue, d.dnat, d.hits + w.hits));
    }
  }

  lemma {:induction false} FoundInChains(chains: seq<Chain>, name: string)
    ensures FindInChains(chains, name).Some? ==> FindInChains(chains, name).value in chains
  {
    if chains != [] && chains[0].name != name {
      FoundInChains(chains[1..], name);
    }
  }

  lemma {:induction false} FoundInTables(cx: Context, tables: seq<Table>, table: string, name: string)
    requires forall t :: t in tables ==> t in cx.rs.tables
    ensures var ch := FindChainIn(tables, cx.family, table, name);
      ch.Some? ==> InTable(cx, table, ch.value)
  {
    if tables != [] {
      FoundInChains(tables[0].chains, name);
      FoundInTables(cx, tables[1..], table, name);
    }
  }

  /** A followed jump or goto lands on a regular chain of the same table. */
  lemma {:induction false} TargetIsProper(cx: Context, table: string, ch: Chain, r: Rule)
    requires RegularTargets(cx, table) && InTable(cx, table, ch) && r in ch.rules
    requires RuleEffect(cx, table, ch, r).Enter?
    ensures InTable(cx, table, RuleEffect(cx, table, ch, r).target)
    ensures !RuleEffect(cx, table, ch, r).target.base
  {
    var act := cx.matcher(table, ch, r).1;
    FoundInTables(cx, cx.rs.tables, table, act.verdict.chain);
  }

  lemma {:induction false} SimulateChain(cx: Context, c: Config, depth: nat)
    requires Proper(cx, c) && c.cur.nest == depth && c.cur.rest == c.cur.chain.rules
    requires RegularTargets(cx, c.base.table)
    ensures Follows(cx, c, WalkChain(cx, c.base.table, c.cur.chain, depth))
    decreases Left(cx, depth), |c.cur.chain.rules| + 1
  {
    if depth > cx.bound {
      ReachSelf(cx, c);
      assert TooDeep(cx, c);
    } else {
      SimulateRules(cx, c, depth);
    }
  }

  lemma {:induction false} SimulateRules(cx: Context, c: Config, depth: nat)
    requires Proper(cx, c) && c.cur.nest == depth <= cx.bound
    requires RegularTargets(cx, c.base.table)
    ensures Follows(cx, c, WalkRules(cx, c.base.table, c.cur.chain, c.cur.rest, depth))
    decreases Left(cx, depth), |c.cur.rest|
  {
    var table, ch := c.base.table, c.cur.chain;
    ReachSelf(cx, Step(cx, c));
    ReachStep(cx, c, Step(cx, c));
    if c.cur.rest == [] {
      assert c.hits + [] == c.hits;
    } else {
      var after := c.cur.(rest := c.cur.rest[1..]);
      match RuleEffect(cx, table, ch, c.cur.rest[0])
      case Pass(hits) =>
        var d := c.(cur := after, hits := c.hits + hits);
        assert c.hits + [] == c.hits;
        assert Step(cx, c) == d;
        SimulateRules(cx, d, depth);
        FollowsAfter(cx, c, d, WalkRules(cx, table, ch, after.rest, depth),
          WalkRules(cx, table, ch, c.cur.rest, depth), hits);
      case Stop(result, hit) =>
        assert Step(cx, c) == Answered(result, c.base, c.saved, c.queue, c.dnat, c.hits + [hit]);
      case Enter(target, isGoto, hit) =>
        var e := c.(cur := Frame(target, target.rules, depth + 1),
          saved := if isGoto then [] else c.saved + [after], hits := c.hits + [hit]);
        assert Step(cx, c) == e;
        TargetIsProper(cx, table, ch, c.cur.rest[0]);
        SimulateChain(cx, e, depth + 1);
        var sub := Below(cx, c, depth);
        if sub.result.FellOff? && !isGoto {
          SimulateRules(cx, Resumed(cx, c, depth), depth);
          EnterResumes(cx, c, e, depth);
        } else if sub.result == Unresolved(NestingExceeded) {
          EnterTooDeep(cx, c, e, depth);
        } else {
          EnterAnswers(cx, c, e, depth);
        }
    }
  }

  /** One step took `c` into the chain its rule jumps or goes to, and the machine follows the
      recursion there. */
  ghost predicate Entered(cx: Context, c: Config, e: Config, depth: nat) {
    && c.Running? && c.cur.rest != [] && c.cur.nest == depth <= cx.bound
    && (c.cur.chain.base ==> c.cur.chain == c.base.chain && c.saved == [])
    && var x := RuleEffect(cx, c.base.table, c.cur.chain, c.cur.rest[0]);
      && x.Enter?
      && e == c.(cur := Frame(x.target, x.target.rules, depth + 1),
           saved := if x.isGoto then [] else c.saved + [c.cur.(rest := c.cur.rest[1..])], hits := c.hits + [x.hit])
      && Step(cx, c) == e
      && Follows(cx, e, WalkChain(cx, c.base.table, x.target, depth + 1))
  }

  /** The answer of the chain a rule entered. */
  function Below(cx: Context, c: Config, depth: nat): Walk
    requires c.Running? && c.cur.rest != [] && RuleEffect(cx, c.base.table, c.cur.chain, c.cur.rest[0]).Enter?
  {
    WalkChain(cx, c.base.table, RuleEffect(cx, c.base.table, c.cur.chain, c.cur.rest[0]).target, depth + 1)
  }

  /** After a jump into a chain that fell off its end, the caller's next rule. */
  function Resumed(cx: Context, c: Config, depth: nat): Config
    requires c.Running? && c.cur.rest != [] && RuleEffect(cx, c.base.table, c.cur.chain, c.cur.rest[0]).Enter?
  {
    c.(cur := c.cur.(rest := c.cur.rest[1..]),
       hits := c.hits + ([RuleEffect(cx, c.base.table, c.cur.chain, c.cur.rest[0]).hit] + Below(cx, c, depth).hits))
  }

  lemma {:induction false} EnterResumes(cx: Context, c: Config, e: Config, depth: nat)
    requires Entered(cx, c, e, depth) && Below(cx, c, depth).result.FellOff?
    requires !RuleEffect(cx, c.base.table, c.cur.chain, c.cur.rest[0]).isGoto
    requires var d := Resumed(cx, c, depth); Follows(cx, d, WalkRules(cx, c.base.table, c.cur.chain, d.cur.rest, depth))
    ensures Follows(cx, c, WalkRules(cx, c.base.table, c.cur.chain, c.cur.rest, depth))
  {
    var d, sub := Resumed(cx, c, depth), Below(cx, c, depth);
    var here := [RuleEffect(cx, c.base.table, c.cur.chain, c.cur.rest[0]).hit] + sub.hits;
    assert e.hits + sub.hits == c.hits + here;
    assert e.saved[..|e.saved| - 1] == c.saved;
    assert Answered(sub.result, e.base, e.saved, e.queue, e.dnat, e.hits + sub.hits) == d;
    ReachStep(cx, c, d);
    EnterUnfolds(cx, c.base.table, c.cur.chain, c.cur.rest, depth);
    FollowsAfter(cx, c, d, WalkRules(cx, c.base.table, c.cur.chain, d.cur.rest, depth),
      WalkRules(cx, c.base.table, c.cur.chain, c.cur.rest, depth), here);
  }

  lemma {:induction false} EnterTooDeep(cx: Context, c: Config, e: Config, depth: nat)
    requires Entered(cx, c, e, depth) && Below(cx, c, depth).result == Unresolved(NestingExceeded)
    ensures Follows(cx, c, WalkRules(cx, c.base.table, c.cur.chain, c.cur.rest, depth))
  {
    EnterUnfolds(cx, c.base.table, c.cur.chain, c.cur.rest, depth);
    var f :| Reaches(cx, e, f) && TooDeep(cx, f);
    ReachStep(cx, c, f);
  }

  /** Every other answer ends the base chain, or leaves it to its policy. */
  lemma {:induction false} EnterAnswers(cx: Context, c: Config, e: Config, depth: nat)
    requires Entered(cx, c, e, depth) && Below(cx, c, depth).result != Unresolved(NestingExceeded)
    requires Below(cx, c, depth).result.FellOff? ==> RuleEffect(cx, c.base.table, c.cur.chain, c.cur.rest[0]).isGoto
    ensures Follows(cx, c, WalkRules(cx, c.base.table, c.cur.chain, c.cur.rest, depth))
  {
    var sub := Below(cx, c, depth);
    var here := [RuleEffect(cx, c.base.table, c.cur.chain, c.cur.rest[0]).hit] + sub.hits;
    assert e.hits + sub.hits == c.hits + here;
    var f := Answered(sub.result, e.base, e.saved, e.queue, e.dnat, c.hits + here);
    ReachStep(cx, c, f);
    EnterUnfolds(cx, c.base.table, c.cur.chain, c.cur.rest, depth);
    var w := WalkRules(cx, c.base.table, c.cur.chain, c.cur.rest, depth);
    assert w.hits == here;
    assert Answered(w.result, c.base, c.saved, c.queue, c.dnat, c.hits + here) == f;
  }

  // ---- a whole hook ----------------------------------------------------------------

  function JudgementOf(res: Result): Judgement {
    match res
    case Accepted(d) => JAccept(d)
    case Dropped(_) => JDrop
    case _ => JUnknown
  }

  ghost predicate RegularBases(cx: Context, bases: seq<BaseChain>) {
    forall b :: b in bases ==> b.chain.base && InTable(cx, b.table, b.chain) && RegularTargets(cx, b.table)
  }

  /** Base chains by recursion and base chains by machine agree on verdict, rewrite and the
      whole hit list, unless the machine really exceeds the nesting bound. */
  lemma {:induction false} BasesRefine(cx: Context, bases: seq<BaseChain>, dnat: Option<Target>, hits: seq<Hit>)
    requires RegularBases(cx, bases)
    ensures var w := WalkBases(cx, bases, dnat);
      if w.result == Unresolved(NestingExceeded) then ReachesTooDeep(cx, NextBase(bases, dnat, hits))
      else Reaches(cx, NextBase(bases, dnat, hits), Halted(JudgementOf(w.result), hits + w.hits))
  {
    var c := NextBase(bases, dnat, hits);
    if bases == [] {
      assert hits + [] == hits;
      ReachSelf(cx, c);
    } else {
      var b := bases[0];
      var w := WalkChain(cx, b.table, b.chain, 0);
      SimulateChain(cx, c, 0);
      BaseAnswers(cx, b.table, b.chain, b.chain.rules, 0);
      if w.result.Accepted? {
        var d := LastRewrite(w.result, dnat);
        var rest := WalkBases(cx, bases[1..], d);
        BasesRefine(cx, bases[1..], d, hits + w.hits);
        assert hits + (w.hits + rest.hits) == (hits + w.hits) + rest.hits;
        var next := NextBase(bases[1..], d, hits + w.hits);
        if rest.result == Unresolved(NestingExceeded) {
          var e :| Reaches(cx, next, e) && TooDeep(cx, e);
          ReachTransitive(cx, c, next, e);
        } else {
          ReachTransitive(cx, c, next, Halted(JudgementOf(rest.result), hits + w.hits + rest.hits));
        }
      }
    }
  }

  /** A base chain always answers accept, drop or unknown. */
  lemma {:induction false} BaseAnswers(cx: Context, table: string, ch: Chain, rules: seq<Rule>, depth: nat)
    requires ch.base && depth <= cx.bound
    ensures !WalkRules(cx, table, ch, rules, depth).result.FellOff?
    ensures !WalkRules(cx, table, ch, rules, depth).result.Unwound?
    decreases |rules|
  {
    if rules != [] {
      BaseAnswers(cx, table, ch, rules[1..], depth);
    }
  }

  /** The machine loaded with the sorted base chains of a hook. */
  function Load(cx: Context, hook: string): Config {
    NextBase(Bases(cx.rs, cx.family, hook), None, [])
  }

  lemma {:induction false} ChainsWhereMembers(t: Table, chains: seq<Chain>, p: Chain -> bool, b: BaseChain)
    ensures b in ChainsWhere(t, chains, p) <==> b.table == t.name && b.chain in chains && p(b.chain)
  {
    if chains != [] {
      ChainsWhereMembers(t, chains[1..], p, b);
      assert chains == [chains[0]] + chains[1..];
    }
  }

  predicate FromTable(t: Table, q: Table -> bool, p: Chain -> bool, b: BaseChain) {
    q(t) && b.table == t.name && b.chain in t.chains && p(b.chain)
  }

  lemma {:induction false} TablesWhereMembers(tables: seq<Table>, q: Table -> bool, p: Chain -> bool, b: BaseChain)
    ensures b in TablesWhere(tables, q, p) <==> exists t :: t in tables && FromTable(t, q, p, b)
  {
    if tables != [] {
      TablesWhereMembers(tables[1..], q, p, b);
      ChainsWhereMembers(tables[0], tables[0].chains, p, b);
      if b in TablesWhere(tables, q, p) && !FromTable(tables[0], q, p, b) {
        var t :| t in tables[1..] && FromTable(t, q, p, b);
        assert t in tables;
      }
      if exists t :: t in tables && FromTable(t, q, p, b) {
        var t :| t in tables && FromTable(t, q, p, b);
        assert t == tables[0] || t in tables[1..];
      } else {
        assert tables[0] in tables;
      }
    }
  }

  /** Jump and goto targets of every table that serves the family are regular chains. */
  ghost predicate RegularJumps(cx: Context) {
    forall t :: t in cx.rs.tables && Serves(t, cx.family) ==> RegularTargets(cx, t.name)
  }

  /** Every jump and goto written in the ruleset leads to a regular chain, or to none. */
  ghost predicate JumpsAreRegular(rs: Ruleset, family: string) {
    forall t, ch, r, e ::
      (t in rs.tables && Serves(t, family) && ch in t.chains && r in ch.rules && e in r.exprs
       && e.Verdict? && Transfers(Does(e.verdict))) ==>
        var target := FindChainIn(rs.tables, family, t.name, e.verdict.chain);
        target.Some? ==> !target.value.base
  }

  /** The only jumps a rule can take are the ones written in it. */
  lemma {:induction false} TransferIsWritten(pkt: Packet, r: Rule, sets: seq<NftSet>, i: nat, regs: Regs, act: Action)
    requires i <= |r.exprs|
    requires Transfers(act) ==> Expr.Verdict(act.verdict) in r.exprs
    ensures var out := MatchFrom(pkt, r, sets, i, regs, act);
      Transfers(out.1) ==> Expr.Verdict(out.1.verdict) in r.exprs
    decreases |r.exprs| - i
  {
    if i < |r.exprs| {
      assert r.exprs[i] in r.exprs;
      match StepExpr(pkt, r.exprs[i], sets, regs, act)
      case Next(regs', act') => TransferIsWritten(pkt, r, sets, i + 1, regs', act');
      case _ =>
    }
  }

  /** So the jump assumption can be read off the ruleset, for every packet at once. */
  lemma {:induction false} WrittenJumpsAreRegular(rs: Ruleset, family: string, bound: nat, pkt: Packet)
    requires JumpsAreRegular(rs, family)
    ensures RegularJumps(PacketContext(rs, family, bound, pkt))
  {
    var cx := PacketContext(rs, family, bound, pkt);
    forall table, ch, r | InTable(cx, table, ch) && r in ch.rules && RuleEffect(cx, table, ch, r).Enter?
      ensures !RuleEffect(cx, table, ch, r).target.base
    {
      var t :| t in rs.tables && t.name == table && Serves(t, family) && ch in t.chains;
      var act := cx.matcher(table, ch, r).1;
      assert Transfers(act);
      TransferIsWritten(pkt, r, TableSetsIn(rs.tables, family, table), 0, map[], NoAction);
      assert Expr.Verdict(act.verdict) in r.exprs;
    }
  }

  lemma {:induction false} BasesAreRegular(cx: Context, hook: string)
    requires RegularJumps(cx)
    ensures RegularBases(cx, Bases(cx.rs, cx.family, hook))
  {
    var on := OnHook(cx.rs, cx.family, hook);
    SortPermutes(on, BaseLe);
    SameMembers(Sort(on, BaseLe), on);
    forall b | b in Bases(cx.rs, cx.family, hook)
      ensures b.chain.base && InTable(cx, b.table, b.chain) && RegularTargets(cx, b.table)
    {
      TablesWhereMembers(
        cx.rs.tables, (t: Table) => Serves(t, cx.family), (ch: Chain) => ch.base && ch.hook == hook, b);
    }
  }

  /** The walk of a hook refines the machine: whatever `Traverse` answers after entering the
      first base chain, the machine with no nesting limit halts with the same verdict, the same
      rewrite and the same hits in the same order; the one exception is the nesting answer, and
      then the machine really follows more than `bound` nested jumps and gotos. */
  lemma {:induction false} TraverseRefinesMachine(cx: Context, hook: string, pkt: Packet)
    requires RegularJumps(cx) && Ingress(cx.rs, pkt) == [] && Unplaced(cx.rs, cx.family) == []
    ensures var w := Traverse(cx, hook, pkt);
      if w.result == Unresolved(NestingExceeded) then ReachesTooDeep(cx, Load(cx, hook))
      else Reaches(cx, Load(cx, hook), Halted(JudgementOf(w.result), w.hits))
  {
    BasesAreRegular(cx, hook);
    BasesRefine(cx, Bases(cx.rs, cx.family, hook), None, []);
    var w := Traverse(cx, hook, pkt);
    assert [] + w.hits == w.hits;
  }

  /** A machine that halts does so in one way only. */
  lemma {:induction false} HaltsOneWay(cx: Context, c: Config, d: Config, e: Config)
    requires Reaches(cx, c, d) && Reaches(cx, c, e) && d.Halted? && e.Halted?
    ensures d == e
  {
    var m: nat :| Run(cx, m, c) == d;
    var n: nat :| Run(cx, n, c) == e;
    if m <= n {
      RunAdds(cx, m, n - m, c);
      StaysHalted(cx, n - m, d);
    } else {
      RunAdds(cx, n, m - n, c);
      StaysHalted(cx, m - n, e);
    }
  }

  lemma {:induction false} StaysHalted(cx: Context, n: nat, c: Config)
    requires c.Halted?
    ensures Run(cx, n, c) == c
  {
    if n > 0 {
      StaysHalted(cx, n - 1, c);
    }
  }
}
