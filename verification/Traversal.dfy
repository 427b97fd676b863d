/** Pushing a packet through one hook: base chains in priority order, and within each the
    recursion over jumps, gotos and returns. Every definition takes the rule matcher and the
    nesting bound as parameters of a context. */
module Traversal {
  import opened Wrappers
  import opened Bytes
  import opened Facts
  import opened Sorting
  import opened Matcher

  /** Why a walk stopped: a tag naming the rule, chain or table the source's sentence names. */
  datatype Reason =
    | RuleUnresolved(handle: nat, table: string, chain: string)
    | NestingExceeded
    | NoSuchChain(chain: string)
    | UnhandledVerdict(name: string)
    | BadPolicy(chain: string, text: string)
    | ByRule(rejected: bool, table: string, chain: string, handle: nat)
    | PolicyAtEnd(table: string, chain: string)
    | PolicyAfterReturn(table: string, chain: string)
    | PolicyAfterGoto(table: string, chain: string)
    | IngressChain(table: string, chain: string)
    | UnknownHook(table: string, chain: string, hook: string)
    | UnexpectedVerdict(table: string, chain: string)

  /** What walking a chain yields. `FellOff` is a regular chain that ran out, `Unwound` a goto
      that fell through. */
  datatype Result =
    | Accepted(dnat: Option<Target>)
    | Dropped(reason: Reason)
    | Unresolved(reason: Reason)
    | FellOff
    | Unwound

  datatype Tag =
    | TagNone | TagSkipped | TagDnat | TagAccept | TagDrop | TagReject | TagReturn | TagJump | TagGoto
    | TagContinue | TagOther(name: string)

  function ActionTag(act: Action): Tag {
    match act
    case NoAction => TagNone
    case Rewrite(_) => TagDnat
    case Does(v) =>
      match v
      case Accept => TagAccept
      case Drop => TagDrop
      case Reject => TagReject
      case Return => TagReturn
      case Jump(_) => TagJump
      case Goto(_) => TagGoto
      case Continue => TagContinue
      case OtherVerdict(name) => TagOther(name)
  }

  /** One rule the packet reached. */
  datatype Hit = Hit(
    family: string,
    table: string,
    chain: string,
    hook: string,
    priority: int,
    handle: nat,
    action: Tag,
    rule: Rule)

  /** How one rule of one chain of one table meets the packet. */
  type RuleMatcher = (string, Chain, Rule) -> (Outcome, Action)

  datatype Context = Context(rs: Ruleset, family: string, bound: nat, matcher: RuleMatcher)

  predicate Serves(t: Table, family: string) {
    t.family == family || t.family == "inet"
  }

  function FindInChains(chains: seq<Chain>, name: string): Option<Chain> {
    if chains == [] then None
    else if chains[0].name == name then Some(chains[0])
    else FindInChains(chains[1..], name)
  }

  /** The first chain of that name in a table of that name, tables in document order. */
  function FindChainIn(tables: seq<Table>, family: string, table: string, name: string): Option<Chain> {
    if tables == [] then None
    else
      var t := tables[0];
      var here := if t.name == table && Serves(t, family) then FindInChains(t.chains, name) else None;
      if here.Some? then here else FindChainIn(tables[1..], family, table, name)
  }

  function FindChain(cx: Context, table: string, name: string): Option<Chain> {
    FindChainIn(cx.rs.tables, cx.family, table, name)
  }

  function TableSetsIn(tables: seq<Table>, family: string, table: string): seq<NftSet> {
    if tables == [] then []
    else if tables[0].name == table && Serves(tables[0], family) then tables[0].sets
    else TableSetsIn(tables[1..], family, table)
  }

  /** The matcher the walker uses: each rule against the sets of its own table. */
  function PacketMatcher(rs: Ruleset, family: string, pkt: Packet): RuleMatcher {
    (table: string, ch: Chain, r: Rule) => MatchRule(pkt, r, TableSetsIn(rs.tables, family, table))
  }

  function BasePolicy(ch: Chain, reason: Reason): Result {
    match ch.policy
    case PolicyAccept => Accepted(None)
    case PolicyDrop => Dropped(reason)
    case OtherPolicy(text) => Unresolved(BadPolicy(ch.name, text))
  }

  /** A goto's fallthrough: no caller resumes, and the base chain's policy decides. */
  function Unwind(table: string, ch: Chain): Result {
    if ch.base then BasePolicy(ch, PolicyAfterGoto(table, ch.name)) else Unwound
  }

  function HitOf(cx: Context, table: string, ch: Chain, r: Rule, action: Tag): Hit {
    Hit(cx.family, table, ch.name, ch.hook, ch.priority, r.handle, action, r)
  }

  /** A jump or goto. */
  predicate Transfers(act: Action) {
    act.Does? && (act.verdict.Jump? || act.verdict.Goto?)
  }

  /** What one rule does to the walk of its chain. */
  datatype Effect =
    | Pass(hits: seq<Hit>)                              // on to the next rule
    | Stop(result: Result, hit: Hit)                    // the chain is decided
    | Enter(target: Chain, isGoto: bool, hit: Hit)      // into another chain

  function RuleEffect(cx: Context, table: string, ch: Chain, r: Rule): Effect {
    var (out, act) := cx.matcher(table, ch, r);
    var hit := HitOf(cx, table, ch, r, ActionTag(act));
    match out
    case NoMatch => Pass([])
    case Skipped => Pass([HitOf(cx, table, ch, r, TagSkipped)])
    case Unknown => Stop(Unresolved(RuleUnresolved(r.handle, table, ch.name)), hit)
    case Match =>
      match act
      case NoAction => Pass([hit])
      case Rewrite(target) => Stop(Accepted(Some(target)), hit)
      case Does(v) =>
        match v
        case Accept => Stop(Accepted(None), hit)
        case Drop => Stop(Dropped(ByRule(false, table, ch.name, r.handle)), hit)
        case Reject => Stop(Dropped(ByRule(true, table, ch.name, r.handle)), hit)
        case Return =>
          Stop(if ch.base then BasePolicy(ch, PolicyAfterReturn(table, ch.name)) else FellOff, hit)
        case Jump(name) =>
          var t := FindChain(cx, table, name);
          if t.None? then Stop(Unresolved(NoSuchChain(name)), hit) else Enter(t.value, false, hit)
        case Goto(name) =>
          var t := FindChain(cx, table, name);
          if t.None? then Stop(Unresolved(NoSuchChain(name)), hit) else Enter(t.value, true, hit)
        case Continue => Pass([hit])
        case OtherVerdict(name) => Stop(Unresolved(UnhandledVerdict(name)), hit)
  }

  /** The answer of a chain and the rules reached on the way, in order. */
  datatype Walk = Walk(result: Result, hits: seq<Hit>) {
    function After(before: seq<Hit>): Walk {
      Walk(result, before + hits)
    }
  }

  /** The rewrite in force after a chain has answered. */
  function LastRewrite(res: Result, before: Option<Target>): Option<Target> {
    if res.Accepted? && res.dnat.Some? then res.dnat else before
  }

  function Left(cx: Context, depth: nat): nat {
    if depth <= cx.bound then cx.bound + 1 - depth else 0
  }

  function WalkChain(cx: Context, table: string, ch: Chain, depth: nat): Walk
    decreases Left(cx, depth), |ch.rules| + 1
  {
    if depth > cx.bound then Walk(Unresolved(NestingExceeded), [])
    else WalkRules(cx, table, ch, ch.rules, depth)
  }

  function WalkRules(cx: Context, table: string, ch: Chain, rules: seq<Rule>, depth: nat): Walk
    requires depth <= cx.bound
    decreases Left(cx, depth), |rules|
  {
    if rules == [] then
      Walk(if ch.base then BasePolicy(ch, PolicyAtEnd(table, ch.name)) else FellOff, [])
    else
      match RuleEffect(cx, table, ch, rules[0])
      case Pass(hits) => WalkRules(cx, table, ch, rules[1..], depth).After(hits)
      case Stop(result, hit) => Walk(result, [hit])
      case Enter(target, isGoto, hit) =>
        var sub := WalkChain(cx, table, target, depth + 1).After([hit]);
        if sub.result.Unwound? || (isGoto && sub.result.FellOff?) then Walk(Unwind(table, ch), sub.hits)
        else if sub.result.FellOff? then WalkRules(cx, table, ch, rules[1..], depth).After(sub.hits)
        else sub
  }

  /** A jump or goto, case by case. */
  lemma {:induction false} EnterUnfolds(cx: Context, table: string, ch: Chain, rules: seq<Rule>, depth: nat)
    requires depth <= cx.bound && rules != [] && RuleEffect(cx, table, ch, rules[0]).Enter?
    ensures var e := RuleEffect(cx, table, ch, rules[0]);
      var sub := WalkChain(cx, table, e.target, depth + 1);
      WalkRules(cx, table, ch, rules, depth) ==
      if sub.result.Unwound? || (e.isGoto && sub.result.FellOff?) then Walk(Unwind(table, ch), [e.hit] + sub.hits)
      else if sub.result.FellOff? then WalkRules(cx, table, ch, rules[1..], depth).After([e.hit] + sub.hits)
      else sub.After([e.hit])
  {
  }

  // ---- one hook ------------------------------------------------------------------

  predicate ChainSeesIface(devices: seq<string>, iface: string) {
    devices == [] || iface == "" || iface in devices
  }

  predicate IngressBlocks(ch: Chain, iface: string) {
    ch.base && ch.hook == "ingress" && ChainSeesIface(ch.devices, iface)
  }

  predicate KnownHook(hook: string) {
    hook in {"ingress", "egress", "prerouting", "input", "forward", "output", "postrouting"}
  }

  datatype BaseChain = BaseChain(table: string, chain: Chain)

  function ChainsWhere(t: Table, chains: seq<Chain>, p: Chain -> bool): seq<BaseChain> {
    if chains == [] then []
    else (if p(chains[0]) then [BaseChain(t.name, chains[0])] else []) + ChainsWhere(t, chains[1..], p)
  }

  /** The chains satisfying `p`, of the tables satisfying `q`, in document order. */
  function TablesWhere(tables: seq<Table>, q: Table -> bool, p: Chain -> bool): seq<BaseChain> {
    if tables == [] then []
    else
      (if q(tables[0]) then ChainsWhere(tables[0], tables[0].chains, p) else []) + TablesWhere(tables[1..], q, p)
  }

  /** Ingress base chains of any family that could see the packet. */
  function Ingress(rs: Ruleset, pkt: Packet): seq<BaseChain> {
    TablesWhere(rs.tables, (t: Table) => true, (ch: Chain) => IngressBlocks(ch, pkt.inIface))
  }

  /** Base chains registered on a hook that has no name here. */
  function Unplaced(rs: Ruleset, family: string): seq<BaseChain> {
    TablesWhere(rs.tables, (t: Table) => Serves(t, family), (ch: Chain) => ch.base && !KnownHook(ch.hook))
  }

  function OnHook(rs: Ruleset, family: string, hook: string): seq<BaseChain> {
    TablesWhere(rs.tables, (t: Table) => Serves(t, family), (ch: Chain) => ch.base && ch.hook == hook)
  }

  function Codes(s: string): seq<int> {
    seq(|s|, i requires 0 <= i < |s| => s[i] as int)
  }

  function CompareText(a: string, b: string): int {
    Compare(Codes(a), Codes(b))
  }

  /** Ascending priority, then table, then chain name. */
  predicate BaseLe(a: BaseChain, b: BaseChain) {
    if a.chain.priority != b.chain.priority then a.chain.priority < b.chain.priority
    else if a.table != b.table then CompareText(a.table, b.table) < 0
    else CompareText(a.chain.name, b.chain.name) <= 0
  }

  function Bases(rs: Ruleset, family: string, hook: string): seq<BaseChain> {
    Sort(OnHook(rs, family, hook), BaseLe)
  }

  /** Base chains one after the other: an accept goes on to the next, anything else ends the
      hook. The rewrite is the last one a base chain answered with. */
  function WalkBases(cx: Context, bases: seq<BaseChain>, dnat: Option<Target>): Walk {
    if bases == [] then Walk(Accepted(dnat), [])
    else
      var w := WalkChain(cx, bases[0].table, bases[0].chain, 0);
      match w.result
      case Accepted(_) => WalkBases(cx, bases[1..], LastRewrite(w.result, dnat)).After(w.hits)
      case Dropped(_) => w
      case Unresolved(_) => w
      case _ => Walk(Unresolved(UnexpectedVerdict(bases[0].table, bases[0].chain.name)), w.hits)
  }

  function Traverse(cx: Context, hook: string, pkt: Packet): Walk {
    var ingress := Ingress(cx.rs, pkt);
    var unplaced := Unplaced(cx.rs, cx.family);
    if ingress != [] then
      Walk(Unresolved(IngressChain(ingress[0].table, ingress[0].chain.name)), [])
    else if unplaced != [] then
      Walk(Unresolved(UnknownHook(unplaced[0].table, unplaced[0].chain.name, unplaced[0].chain.hook)), [])
    else WalkBases(cx, Bases(cx.rs, cx.family, hook), None)
  }

  /** The context of an actual packet. */
  function PacketContext(rs: Ruleset, family: string, bound: nat, pkt: Packet): Context {
    Context(rs, family, bound, PacketMatcher(rs, family, pkt))
  }
}
