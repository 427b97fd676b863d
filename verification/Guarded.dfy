/** The other two readers of a document, on expressions whose object may be missing: the forward
    scan and the renderer. On a document the guard accepts neither crashes, and both do what they
    do on the typed document. */
module Guarded {
  import opened Wrappers
  import opened Facts
  import opened Traversal
  import opened Documents
  import opened Forwards
  import opened Rendering

  // ---- the document, typed -----------------------------------------------------------------

  function TypedRules(rules: seq<RawRule>): (rs: seq<Rule>)
    requires forall r :: r in rules ==> Whole(r)
  {
    if rules == [] then [] else [Typed(rules[0])] + TypedRules(rules[1..])
  }

  function TypedChain(ch: RawChain): Chain
    requires forall r :: r in ch.rules ==> Whole(r)
  {
    ch.frame.(rules := TypedRules(ch.rules))
  }

  predicate WholeChains(chains: seq<RawChain>) {
    forall ch, r :: ch in chains && r in ch.rules ==> Whole(r)
  }

  function TypedChains(chains: seq<RawChain>): seq<Chain>
    requires WholeChains(chains)
  {
    if chains == [] then [] else [TypedChain(chains[0])] + TypedChains(chains[1..])
  }

  function TypedTable(t: RawTable): Table
    requires WholeChains(t.chains)
  {
    Table(t.family, t.name, TypedChains(t.chains), t.sets)
  }

  function TypedTables(tables: seq<RawTable>): seq<Table>
    requires forall t :: t in tables ==> WholeChains(t.chains)
  {
    if tables == [] then [] else [TypedTable(tables[0])] + TypedTables(tables[1..])
  }

  // ---- the forward scan; `None` is the crash --------------------------------------------------

  function Both(a: Option<Found>, b: Option<Found>): Option<Found> {
    if a.None? || b.None? then None else Some(a.value.Then(b.value))
  }

  function FindRaw(chains: seq<RawChain>, name: string): Option<RawChain> {
    if chains == [] then None
    else if chains[0].name == name then Some(chains[0])
    else FindRaw(chains[1..], name)
  }

  /** What a note needs to name a table, a chain or a rule. */
  function TableFrame(t: RawTable): Table {
    Table(t.family, t.name, [], t.sets)
  }

  function RawScanChain(bound: nat, t: RawTable, ch: RawChain, m: FwdMatch, depth: nat): Option<Found>
    decreases ScanLeft(bound, depth), 2, 0
  {
    if depth > bound then Some(NOTHING) else RawScanRules(bound, t, ch, ch.rules, m, depth)
  }

  function RawScanRules(bound: nat, t: RawTable, ch: RawChain, rules: seq<RawRule>, m: FwdMatch,
                        depth: nat): Option<Found>
    requires depth <= bound
    decreases ScanLeft(bound, depth), 1, |rules|
  {
    if rules == [] then Some(NOTHING)
    else
      Both(RawScanRule(bound, t, ch, rules[0], 0, ScanState(map[], map[], m), depth),
        RawScanRules(bound, t, ch, rules[1..], m, depth))
  }

  function RawScanRule(bound: nat, t: RawTable, ch: RawChain, r: RawRule, i: nat, st: ScanState,
                       depth: nat): Option<Found>
    requires depth <= bound && i <= |r.exprs|
    decreases ScanLeft(bound, depth), 0, |r.exprs| - i
  {
    if i == |r.exprs| then Some(NOTHING)
    else
      var e := Deref(r.exprs[i]);
      if e.None? then None
      else
        match ScanExpr(t.sets, e.value, st)
        case ScanOn(st') => RawScanRule(bound, t, ch, r, i + 1, st', depth)
        case ScanEmit(target) => Some(Emit(TableFrame(t), ch.frame, Rule(r.handle, []), st.m, target))
        case ScanFollow(name) =>
          var target := FindRaw(t.chains, name);
          if target.None? then Some(NOTHING) else RawScanChain(bound, t, target.value, st.m, depth + 1)
        case ScanEnd => Some(NOTHING)
  }

  function RawScanBases(bound: nat, t: RawTable, chains: seq<RawChain>): Option<Found> {
    if chains == [] then Some(NOTHING)
    else
      var f := chains[0].frame;
      Both(if f.base && f.hook == "prerouting" then RawScanChain(bound, t, chains[0], NO_CONSTRAINT,
                        0) else Some(NOTHING),
        RawScanBases(bound, t, chains[1..]))
  }

  function RawScanTables(bound: nat, tables: seq<RawTable>): Option<Found> {
    if tables == [] then Some(NOTHING)
    else
      Both(if TableFamilies(tables[0].family) == [] then Some(NOTHING) else RawScanBases(bound, tables[0],
                         tables[0].chains),
        RawScanTables(bound, tables[1..]))
  }

  lemma {:induction false} FindRawAgrees(chains: seq<RawChain>, name: string)
    requires WholeChains(chains)
    ensures match FindRaw(chains, name)
      case None => FindInChains(TypedChains(chains), name) == None
      case Some(ch) => ch in chains && FindInChains(TypedChains(chains), name) == Some(TypedChain(ch))
  {
    if chains != [] {
      assert TypedChains(chains)[1..] == TypedChains(chains[1..]);
      FindRawAgrees(chains[1..], name);
    }
  }

  lemma {:induction false} ScanChainAgrees(bound: nat, t: RawTable, ch: RawChain, m: FwdMatch, depth: nat)
    requires WholeChains(t.chains) && ch in t.chains
    ensures RawScanChain(bound, t, ch, m, depth) == Some(ScanChain(bound, TypedTable(t), TypedChain(ch), m, depth))
    decreases ScanLeft(bound, depth), 2, 0
  {
    if depth <= bound {
      ScanRulesAgree(bound, t, ch, ch.rules, m, depth);
    }
  }

  lemma {:induction false} ScanRulesAgree(bound: nat, t: RawTable, ch: RawChain, rules: seq<RawRule>, m: FwdMatch,
                                          depth: nat)
    requires WholeChains(t.chains) && ch in t.chains && depth <= bound && forall r :: r in rules ==> r in ch.rules
    ensures RawScanRules(bound, t, ch, rules, m, depth) ==
      Some(ScanRules(bound, TypedTable(t), TypedChain(ch), TypedRules(rules), m, depth))
    decreases ScanLeft(bound, depth), 1, |rules|
  {
    if rules != [] {
      assert TypedRules(rules)[1..] == TypedRules(rules[1..]);
      ScanRuleAgrees(bound, t, ch, rules[0], 0, ScanState(map[], map[], m), depth);
      ScanRulesAgree(bound, t, ch, rules[1..], m, depth);
    }
  }

  lemma {:induction false} ScanRuleAgrees(bound: nat, t: RawTable, ch: RawChain, r: RawRule, i: nat, st: ScanState,
                                          depth: nat)
    requires WholeChains(t.chains) && ch in t.chains && depth <= bound && Whole(r) && i <= |r.exprs|
    ensures RawScanRule(bound, t, ch, r, i, st, depth) ==
      Some(ScanRule(bound, TypedTable(t), TypedChain(ch), Typed(r), i, st, depth))
    decreases ScanLeft(bound, depth), 0, |r.exprs| - i
  {
    if i < |r.exprs| {
      assert r.exprs[i] in r.exprs;
      var e := Deref(r.exprs[i]).value;
      assert Typed(r).exprs[i] == e;
      match ScanExpr(t.sets, e, st)
      case ScanOn(st') => ScanRuleAgrees(bound, t, ch, r, i + 1, st', depth);
      case ScanEmit(target) =>
        EmitAgrees(TableFrame(t), TypedTable(t), ch.frame, TypedChain(ch), Rule(r.handle, []), Typed(r), st.m, target);
      case ScanFollow(name) =>
        FindRawAgrees(t.chains, name);
        if FindRaw(t.chains, name).Some? {
          ScanChainAgrees(bound, t, FindRaw(t.chains, name).value, st.m, depth + 1);
        }
      case ScanEnd =>
    }
  }

  /** What a rewrite emits depends on names, family and handle only. */
  lemma {:induction false} EmitAgrees(t: Table, t': Table, ch: Chain, ch': Chain, r: Rule, r': Rule, m: FwdMatch,
                                      target: FwdTarget)
    requires t.family == t'.family && t.name == t'.name && ch.name == ch'.name && r.handle == r'.handle
    ensures Emit(t, ch, r, m, target) == Emit(t', ch', r', m, target)
  {
    assert RowFamilies(t, target) == RowFamilies(t', target);
  }

  lemma {:induction false} ScanBasesAgree(bound: nat, t: RawTable, chains: seq<RawChain>)
    requires WholeChains(t.chains) && forall ch :: ch in chains ==> ch in t.chains
    ensures RawScanBases(bound, t, chains) == Some(ScanBases(bound, TypedTable(t), TypedChains(chains)))
  {
    if chains != [] {
      assert TypedChains(chains)[1..] == TypedChains(chains[1..]);
      ScanChainAgrees(bound, t, chains[0], NO_CONSTRAINT, 0);
      ScanBasesAgree(bound, t, chains[1..]);
    }
  }

  /** In a document `Validate` accepts, the forward scan reads no missing object, and finds what
      it finds in the typed document. */
  lemma {:induction false} ScanNeverCrashes(bound: nat, tables: seq<RawTable>)
    requires WholeDocument(tables)
    ensures RawScanTables(bound, tables) == Some(ScanTables(bound, TypedTables(tables)))
  {
    if tables != [] {
      assert TypedTables(tables)[1..] == TypedTables(tables[1..]);
      ScanBasesAgree(bound, tables[0], tables[0].chains);
      ScanNeverCrashes(bound, tables[1..]);
    }
  }

  // ---- the renderer; `None` is the crash --------------------------------------------------------

  /** The rendering loop. A comparison with nothing pending is stepped over unread; of every other
      expression the object its kind promises is read. */
  ghost function RawRenderFrom(es: seq<RawExpr>, line: Line): Option<Line>
    decreases |es|
  {
    if es == [] then Some(line)
    else if es[0].kind == OfCmp && line.pending == Nothing then RawRenderFrom(es[1..], line)
    else
      var e := Deref(es[0]);
      if e.None? then None else RawRenderFrom(es[1..], RenderExpr(e.value, line))
  }

  lemma {:induction false} OnlyCmpIsCmp(e: Expr)
    requires KindOf(e) == OfCmp
    ensures e.Cmp?
  {
  }

  /** What the loop steps over would have said nothing. */
  lemma {:induction false} NothingToSay(e: RawExpr, line: Line)
    requires e.kind == OfCmp && Deref(e).Some? && line.pending == Nothing
    ensures RenderExpr(Deref(e).value, line) == line
  {
    DerefKind(e);
    OnlyCmpIsCmp(Deref(e).value);
  }

  /** With every object there, the loop renders the typed expressions. */
  lemma {:induction false} RenderAgrees(es: seq<RawExpr>, ts: seq<Expr>, line: Line)
    requires |es| == |ts| && forall i :: 0 <= i < |es| ==> Deref(es[i]) == Some(ts[i])
    ensures RawRenderFrom(es, line) == Some(RenderFrom(ts, line))
    decreases |es|
  {
    if es != [] {
      if es[0].kind == OfCmp && line.pending == Nothing {
        NothingToSay(es[0], line);
      }
      RenderAgrees(es[1..], ts[1..], RenderExpr(ts[0], line));
    }
  }

  /** Loads give the next comparison something to be about. */
  predicate Opens(k: Kind) {
    k == Kind.OfMeta || k == OfPayload || k == Kind.OfCt || k == OfFib
  }

  /** Tests and rewrites leave nothing pending. */
  predicate Closes(k: Kind) {
    k == OfCmp || k == OfRange || k == OfLookup || k == OfNat
  }

  /** Whether something is pending after an expression of this kind. */
  predicate PendingAfter(k: Kind, before: bool) {
    Opens(k) || (before && !Closes(k))
  }

  /** Whether something is pending in front of expression `n`: a load, and no test or rewrite since. */
  predicate PendingAt(es: seq<RawExpr>, n: nat, start: bool)
    requires n <= |es|
    decreases |es|
  {
    if n == 0 then start else PendingAt(es[1..], n - 1, PendingAfter(es[0].kind, start))
  }

  /** The object of expression `n` is missing, and the renderer does read it. */
  predicate ReadsMissing(es: seq<RawExpr>, n: nat, start: bool) {
    n < |es| && Deref(es[n]).None? && (es[n].kind == OfCmp ==> PendingAt(es, n, start))
  }

  lemma {:induction false} PendingIsKept(e: Expr, line: Line)
    ensures RenderExpr(e, line).pending != Nothing <==> PendingAfter(KindOf(e), line.pending != Nothing)
  {
  }

  lemma {:induction false} DerefKind(e: RawExpr)
    requires Deref(e).Some?
    ensures KindOf(Deref(e).value) == e.kind || (KindOf(Deref(e).value).OfLater? && e.kind.OfLater?)
  {
  }

  lemma {:induction false} LikeKinds(k: Kind, k': Kind, start: bool)
    requires k == k' || (k.OfLater? && k'.OfLater?)
    ensures PendingAfter(k, start) == PendingAfter(k', start)
  {
  }

  lemma {:induction false} PendingFollowsKind(e: RawExpr, line: Line)
    requires Deref(e).Some?
    ensures RenderExpr(Deref(e).value, line).pending != Nothing <==> PendingAfter(e.kind, line.pending != Nothing)
  {
    var v := Deref(e).value;
    DerefKind(e);
    LikeKinds(KindOf(v), e.kind, line.pending != Nothing);
    PendingIsKept(v, line);
  }

  /** Some missing object is read. */
  ghost predicate MissesOne(es: seq<RawExpr>, start: bool) {
    exists n: nat :: ReadsMissing(es, n, start)
  }

  lemma {:induction false} OneOrLater(es: seq<RawExpr>, start: bool)
    requires es != []
    ensures MissesOne(es, start) <==>
      ReadsMissing(es, 0, start) || MissesOne(es[1..], PendingAfter(es[0].kind, start))
  {
    var rest, after := es[1..], PendingAfter(es[0].kind, start);
    if n: nat :| ReadsMissing(es, n, start) {
      if n > 0 {
        assert rest[n - 1] == es[n] && ReadsMissing(rest, n - 1, after);
      }
    }
    if n: nat :| ReadsMissing(rest, n, after) {
      assert rest[n] == es[n + 1] && ReadsMissing(es, n + 1, start);
    }
  }

  lemma {:induction false} RenderReads(es: seq<RawExpr>, line: Line)
    ensures RawRenderFrom(es, line) == None <==> MissesOne(es, line.pending != Nothing)
    decreases |es|
  {
    if es != [] {
      OneOrLater(es, line.pending != Nothing);
      if es[0].kind == OfCmp && line.pending == Nothing {
        RenderReads(es[1..], line);
      } else if Deref(es[0]).Some? {
        PendingFollowsKind(es[0], line);
        RenderReads(es[1..], RenderExpr(Deref(es[0]).value, line));
      }
    }
  }

  /** The renderer crashes exactly when an object is missing that is not that of a comparison with
      nothing pending; on the rules the guard accepts it renders the typed rule. */
  lemma {:induction false} RenderCrashesExactly(r: RawRule)
    ensures RawRenderFrom(r.exprs, BLANK) == None <==> MissesOne(r.exprs, false)
    ensures Whole(r) ==> RawRenderFrom(r.exprs, BLANK) == Some(RenderFrom(Typed(r).exprs, BLANK))
  {
    RenderReads(r.exprs, BLANK);
    if Whole(r) {
      TypedAt(r);
      RenderAgrees(r.exprs, Typed(r).exprs, BLANK);
    }
  }

  /** So the guard refuses more than the renderer needs: a lone comparison without its object
      renders, to nothing. */
  lemma {:induction false} LoneComparisonRenders(handle: nat)
    ensures var r := RawRule(handle, [RawExpr(OfCmp, None)]);
      !Whole(r) && RawRenderFrom(r.exprs, BLANK) == Some(BLANK)
  {
    var r := RawRule(handle, [RawExpr(OfCmp, None)]);
    assert r.exprs[0] in r.exprs && Deref(r.exprs[0]).None?;
    assert r.exprs[1..] == [];
  }
}
