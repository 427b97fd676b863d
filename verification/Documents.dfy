/** Documents from outside the process. An expression names a kind, and the object of that kind
    may be missing; reading a missing object is a crash. `Validate` is the guard in front of the
    evaluator, and everything else in this project works on what it lets through. */
module Documents {
  import opened Wrappers
  import opened Facts
  import opened Matcher

  datatype Kind =
    | OfPayload | OfCmp | OfMeta | OfBitwise | OfCt | OfLookup | OfRange | OfFib
    | OfImmediate | OfNat | OfVerdict | OfXt
    | OfOther | OfUnknown | OfLater(text: string)

  /** The kind whose object an expression is; nothing carries an object of the last three. */
  function KindOf(e: Expr): Kind {
    match e
    case Payload(_, _, _, _) => OfPayload
    case Cmp(_, _, _) => OfCmp
    case Meta(_, _) => OfMeta
    case Bitwise(_, _, _, _) => OfBitwise
    case Ct(_, _) => OfCt
    case Lookup(_, _, _, _, _) => OfLookup
    case Range(_, _, _, _) => OfRange
    case Fib(_, _, _, _) => OfFib
    case Immediate(_, _) => OfImmediate
    case Nat(_, _, _) => OfNat
    case Verdict(_) => OfVerdict
    case Xt(_) => OfXt
    case Transparent => OfOther
    case Undecoded => OfUnknown
    case Later => OfLater("")
  }

  /** An expression as it came, with the object under its kind's name, if there is one. Objects under
      other names are never read. */
  datatype RawExpr = RawExpr(kind: Kind, content: Option<Expr>)

  datatype RawRule = RawRule(handle: nat, exprs: seq<RawExpr>)

  /** A chain: everything but its rules, and the rules as they came. */
  datatype RawChain = RawChain(frame: Chain, rules: seq<RawRule>) {
    const name := frame.name
  }

  datatype RawTable = RawTable(family: string, name: string, chains: seq<RawChain>, sets: seq<NftSet>)

  /** Reading the object the kind promises; `None` is the crash. */
  function Deref(e: RawExpr): Option<Expr> {
    if e.kind == OfOther then Some(Transparent)
    else if e.kind == OfUnknown then Some(Undecoded)
    else if e.kind.OfLater? then Some(Later)
    else if e.content.Some? && KindOf(e.content.value) == e.kind then e.content
    else None
  }

  predicate Whole(r: RawRule) {
    forall e :: e in r.exprs ==> Deref(e).Some?
  }

  /** The rule the rest of the project evaluates. */
  function Typed(r: RawRule): Rule
    requires Whole(r)
  {
    var n := |r.exprs|;
    Rule(r.handle, seq(n, i requires 0 <= i < n => assert r.exprs[i] in r.exprs; Deref(r.exprs[i]).value))
  }

  // ---- the guard ---------------------------------------------------------------------------

  /** Where a document is broken. */
  datatype Problem = Problem(table: string, chain: string, handle: nat, index: nat)

  predicate Broken(tables: seq<RawTable>, t: nat, c: nat, r: nat, i: nat) {
    && t < |tables| && c < |tables[t].chains| && r < |tables[t].chains[c].rules|
    && i < |tables[t].chains[c].rules[r].exprs|
    && Deref(tables[t].chains[c].rules[r].exprs[i]).None?
  }

  /** Document order: tables, then chains, then rules, then expressions. */
  predicate Before(a: (nat, nat, nat, nat), b: (nat, nat, nat, nat)) {
    || a.0 < b.0
    || (a.0 == b.0 && a.1 < b.1)
    || (a.0 == b.0 && a.1 == b.1 && a.2 < b.2)
    || (a.0 == b.0 && a.1 == b.1 && a.2 == b.2 && a.3 < b.3)
  }

  function ProblemAt(tables: seq<RawTable>, t: nat, c: nat, r: nat, i: nat): Problem
    requires Broken(tables, t, c, r, i)
  {
    var ch := tables[t].chains[c];
    Problem(tables[t].name, ch.name, ch.rules[r].handle, i)
  }

  /** `p` names the first broken expression in document order. */
  ghost predicate FirstProblem(tables: seq<RawTable>, p: Problem) {
    exists t: nat, c: nat, r: nat, i: nat ::
      && Broken(tables, t, c, r, i)
      && p == ProblemAt(tables, t, c, r, i)
      && forall t': nat, c': nat, r': nat, i': nat ::
        Broken(tables, t', c', r', i') ==> !Before((t', c', r', i'), (t, c, r, i))
  }

  ghost predicate WholeDocument(tables: seq<RawTable>) {
    forall t, ch, r :: t in tables && ch in t.chains && r in ch.rules ==> Whole(r)
  }

  lemma {:induction false} NothingBroken(tables: seq<RawTable>)
    requires forall t: nat, c: nat, r: nat, i: nat :: !Broken(tables, t, c, r, i)
    ensures WholeDocument(tables)
  {
    forall table, ch, r, e | table in tables && ch in table.chains && r in ch.rules && e in r.exprs
      ensures Deref(e).Some?
    {
      var t :| 0 <= t < |tables| && tables[t] == table;
      var c :| 0 <= c < |table.chains| && table.chains[c] == ch;
      var k :| 0 <= k < |ch.rules| && ch.rules[k] == r;
      var i :| 0 <= i < |r.exprs| && r.exprs[i] == e;
      assert !Broken(tables, t, c, k, i);
    }
  }

  /** A broken expression with none before it. */
  lemma {:induction false} BrokenFirst(tables: seq<RawTable>, t: nat, c: nat, r: nat, i: nat)
    requires Broken(tables, t, c, r, i)
    requires forall t': nat, c': nat, r': nat, i': nat ::
      Broken(tables, t', c', r', i') ==> !Before((t', c', r', i'), (t, c, r, i))
    ensures !WholeDocument(tables) && FirstProblem(tables, ProblemAt(tables, t, c, r, i))
  {
    var chain := tables[t].chains[c];
    var rule := chain.rules[r];
    assert rule.exprs[i] in rule.exprs && !Whole(rule);
    assert tables[t] in tables && chain in tables[t].chains && rule in chain.rules;
  }

  /** Accepts exactly the documents in which every object is there, and otherwise names the first
      missing one. */
  method Validate(tables: seq<RawTable>) returns (problem: Option<Problem>)
    ensures problem.None? <==> WholeDocument(tables)
    ensures problem.Some? ==> FirstProblem(tables, problem.value)
  {
    for t := 0 to |tables|
      invariant forall t': nat, c', r', i' :: Broken(tables, t', c', r', i') ==> t' >= t
    {
      var chains := tables[t].chains;
      for c := 0 to |chains|
        invariant forall t': nat, c', r', i' :: Broken(tables, t', c', r', i') ==>
          !Before((t', c', r', i'), (t, c, 0, 0))
      {
        var rules := chains[c].rules;
        for r := 0 to |rules|
          invariant forall t': nat, c', r', i' :: Broken(tables, t', c', r', i') ==>
            !Before((t', c', r', i'), (t, c, r, 0))
        {
          var exprs := rules[r].exprs;
          for i := 0 to |exprs|
            invariant forall t': nat, c', r', i' :: Broken(tables, t', c', r', i') ==>
              !Before((t', c', r', i'), (t, c, r, i))
          {
            if Deref(exprs[i]).None? {
              BrokenFirst(tables, t, c, r, i);
              return Some(Problem(tables[t].name, chains[c].name, rules[r].handle, i));
            }
          }
        }
      }
    }
    NothingBroken(tables);
    return None;
  }

  // ---- the matcher on unguarded rules ----------------------------------------------------------

  /** An expression the skip test passes over, without reading any object but an xt. */
  predicate Harmless(pkt: Packet, e: RawExpr) {
    var k := e.kind;
    if k == OfPayload || k == OfCmp || k == OfMeta || k == OfBitwise || k == OfOther then true
    else
      var x := Deref(e);
      && k == OfXt && x.Some? && x.value.Xt?
      && XtEval(pkt, x.value.xt).XtResolved? && XtEval(pkt, x.value.xt).act == NoAction
  }

  predicate MissingXt(e: RawExpr) {
    e.kind == OfXt && Deref(e).None?
  }

  /** The skip test from expression `i` on. */
  function RawSkippable(pkt: Packet, r: RawRule, idx: nat, i: nat): Option<bool>
    requires i <= |r.exprs|
    decreases |r.exprs| - i
  {
    if i == |r.exprs| then Some(true)
    else if i == idx then RawSkippable(pkt, r, idx, i + 1)
    else if MissingXt(r.exprs[i]) then None
    else if Harmless(pkt, r.exprs[i]) then RawSkippable(pkt, r, idx, i + 1)
    else Some(false)
  }

  /** The rule loop, reading each object as it gets there; `None` is the crash. */
  function RawMatchFrom(pkt: Packet, r: RawRule, sets: seq<NftSet>, i: nat, regs: Regs, act: Action): Option<(Outcome,
                        Action)>
    requires i <= |r.exprs|
    decreases |r.exprs| - i
  {
    if i == |r.exprs| then Some((Match, act))
    else
      var e := Deref(r.exprs[i]);
      if e.None? then None
      else
        match StepExpr(pkt, e.value, sets, regs, act)
        case Next(regs', act') => RawMatchFrom(pkt, r, sets, i + 1, regs', act')
        case Fail => Some((NoMatch, act))
        case Stuck =>
          if e.value.Xt? && e.value.xt.kind == XtMatch then
            match RawSkippable(pkt, r, i, 0)
            case None => None
            case Some(skip) => Some((if skip then Skipped else Unknown, act))
          else Some((Unknown, act))
  }

  /** All expressions from `i` on, but for `idx`, are indifferent. */
  predicate RestIndifferent(pkt: Packet, es: seq<Expr>, idx: nat, i: nat)
    requires i <= |es|
    decreases |es| - i
  {
    i == |es| || ((i == idx || Indifferent(pkt, es[i])) && RestIndifferent(pkt, es, idx, i + 1))
  }

  lemma {:induction false} RestMeansAll(pkt: Packet, es: seq<Expr>, idx: nat, i: nat)
    requires i <= |es|
    ensures RestIndifferent(pkt, es, idx, i) <==> forall j :: i <= j < |es| && j != idx ==> Indifferent(pkt, es[j])
    decreases |es| - i
  {
    if i < |es| {
      RestMeansAll(pkt, es, idx, i + 1);
    }
  }

  lemma {:induction false} HarmlessIsIndifferent(pkt: Packet, e: RawExpr)
    requires Deref(e).Some?
    ensures !MissingXt(e) && (Harmless(pkt, e) <==> Indifferent(pkt, Deref(e).value))
  {
  }

  lemma {:induction false} SkipTestAgrees(pkt: Packet, r: RawRule, es: seq<Expr>, idx: nat, i: nat)
    requires |es| == |r.exprs| && forall j :: 0 <= j < |es| ==> Deref(r.exprs[j]) == Some(es[j])
    requires i <= |es|
    ensures RawSkippable(pkt, r, idx, i) == Some(RestIndifferent(pkt, es, idx, i))
    decreases |es| - i
  {
    if i < |es| {
      SkipTestAgrees(pkt, r, es, idx, i + 1);
      HarmlessIsIndifferent(pkt, r.exprs[i]);
    }
  }

  lemma {:induction false} TypedAt(r: RawRule)
    requires Whole(r)
    ensures var es := Typed(r).exprs;
      |es| == |r.exprs| && forall i :: 0 <= i < |es| ==> Deref(r.exprs[i]) == Some(es[i])
  {
    forall i | 0 <= i < |r.exprs| ensures Deref(r.exprs[i]) == Some(Typed(r).exprs[i]) {
      assert r.exprs[i] in r.exprs;
    }
  }

  lemma {:induction false} StuckAgrees(pkt: Packet, r: RawRule, i: nat)
    requires Whole(r) && i < |r.exprs|
    ensures var e := Typed(r).exprs[i];
      if e.Xt? && e.xt.kind == XtMatch then RawSkippable(pkt, r, i, 0) == Some(Skippable(pkt, Typed(r), i))
      else !Skippable(pkt, Typed(r), i)
  {
    TypedAt(r);
    SkipTestAgrees(pkt, r, Typed(r).exprs, i, 0);
    RestMeansAll(pkt, Typed(r).exprs, i, 0);
  }

  lemma {:induction false} RuleLoopAgrees(pkt: Packet, r: RawRule, sets: seq<NftSet>, i: nat, regs: Regs, act: Action)
    requires Whole(r) && i <= |r.exprs|
    ensures RawMatchFrom(pkt, r, sets, i, regs, act) == Some(MatchFrom(pkt, Typed(r), sets, i, regs, act))
    decreases |r.exprs| - i
  {
    if i < |r.exprs| {
      assert r.exprs[i] in r.exprs;
      var e := Deref(r.exprs[i]).value;
      assert Typed(r).exprs[i] == e && |Typed(r).exprs| == |r.exprs|;
      match StepExpr(pkt, e, sets, regs, act)
      case Next(regs', act') => RuleLoopAgrees(pkt, r, sets, i + 1, regs', act');
      case Fail =>
      case Stuck => StuckAgrees(pkt, r, i);
    }
  }

  /** In a document `Validate` accepts, no rule crashes on any packet, and the answer is that of
      the typed rule. */
  lemma {:induction false} WholeDocumentsNeverCrash(tables: seq<RawTable>, t: RawTable, ch: RawChain, r: RawRule,
                                                    pkt: Packet, sets: seq<NftSet>)
    requires WholeDocument(tables) && t in tables && ch in t.chains && r in ch.rules
    ensures RawMatchFrom(pkt, r, sets, 0, map[], NoAction) == Some(MatchRule(pkt, Typed(r), sets))
  {
    RuleLoopAgrees(pkt, r, sets, 0, map[], NoAction);
  }

  // ---- exactly when the rule loop crashes -------------------------------------------------------

  predicate WholeTo(r: RawRule, n: nat)
    requires n <= |r.exprs|
  {
    forall i :: 0 <= i < n ==> Deref(r.exprs[i]).Some?
  }

  /** The first `n` expressions as a typed rule. */
  function TypedPrefix(r: RawRule, n: nat): (t: Rule)
    requires n <= |r.exprs| && WholeTo(r, n)
    ensures |t.exprs| == n && forall i :: 0 <= i < n ==> t.exprs[i] == Deref(r.exprs[i]).value
  {
    Rule(r.handle, seq(n, i requires 0 <= i < n => Deref(r.exprs[i]).value))
  }

  /** An xt match that cannot be resolved: the loop stops here and starts the skip test. */
  predicate StartsSkipTest(pkt: Packet, e: RawExpr) {
    var x := Deref(e);
    x.Some? && x.value.Xt? && x.value.xt.kind == XtMatch && XtEval(pkt, x.value.xt).XtUnresolved?
  }

  /** The skip test started at `idx` gets to `j`, and misses an object there. */
  predicate SkipTestMisses(pkt: Packet, r: RawRule, idx: nat, j: nat) {
    && j < |r.exprs| && j != idx && MissingXt(r.exprs[j])
    && forall k :: 0 <= k < j && k != idx ==> Harmless(pkt, r.exprs[k])
  }

  /** At `n` an object is missing, or the skip test started there gets to a missing one. */
  ghost predicate MissesAt(pkt: Packet, r: RawRule, n: nat)
    requires n < |r.exprs|
  {
    Deref(r.exprs[n]).None? || (StartsSkipTest(pkt, r.exprs[n]) && exists j :: SkipTestMisses(pkt, r, n, j))
  }

  /** The packet gets from expression `i` as far as `n`. */
  predicate GetsTo(pkt: Packet, r: RawRule, sets: seq<NftSet>, i: nat, n: nat, regs: Regs, act: Action) {
    i <= n < |r.exprs| && WholeTo(r, n) && MatchFrom(pkt, TypedPrefix(r, n), sets, i, regs, act).0 == Match
  }

  lemma {:induction false} SkipTestCrashes(pkt: Packet, r: RawRule, idx: nat, i: nat)
    requires i <= |r.exprs| && forall k :: 0 <= k < i && k != idx ==> Harmless(pkt, r.exprs[k])
    ensures RawSkippable(pkt, r, idx, i) == None <==> exists j :: i <= j && SkipTestMisses(pkt, r, idx, j)
    decreases |r.exprs| - i
  {
    if i < |r.exprs| {
      if i == idx || (Harmless(pkt, r.exprs[i]) && !MissingXt(r.exprs[i])) {
        SkipTestCrashes(pkt, r, idx, i + 1);
      } else if MissingXt(r.exprs[i]) {
        assert SkipTestMisses(pkt, r, idx, i);
      }
    }
  }

  lemma {:induction false} MatchGoesOn(pkt: Packet, r: Rule, sets: seq<NftSet>, i: nat, regs: Regs, act: Action)
    requires i < |r.exprs|
    ensures var s := StepExpr(pkt, r.exprs[i], sets, regs, act);
      MatchFrom(pkt, r, sets, i, regs, act).0 == Match <==>
        s.Next? && MatchFrom(pkt, r, sets, i + 1, s.regs, s.act).0 == Match
  {
  }

  /** One step of the loop moves every later position one step closer. */
  lemma {:induction false} GetsToNext(pkt: Packet, r: RawRule, sets: seq<NftSet>, i: nat, n: nat, regs: Regs,
                                      act: Action)
    requires i < n < |r.exprs| && Deref(r.exprs[i]).Some?
    ensures var s := StepExpr(pkt, Deref(r.exprs[i]).value, sets, regs, act);
      GetsTo(pkt, r, sets, i, n, regs, act) <==> s.Next? && GetsTo(pkt, r, sets, i + 1, n, s.regs, s.act)
  {
    if WholeTo(r, n) {
      assert TypedPrefix(r, n).exprs[i] == Deref(r.exprs[i]).value;
      MatchGoesOn(pkt, TypedPrefix(r, n), sets, i, regs, act);
    }
  }

  /** The loop started at `i` reaches a missing object. */
  ghost predicate Crashes(pkt: Packet, r: RawRule, sets: seq<NftSet>, i: nat, regs: Regs, act: Action) {
    exists n :: GetsTo(pkt, r, sets, i, n, regs, act) && MissesAt(pkt, r, n)
  }

  /** Reaching one is a matter of this expression, or of the ones after it. */
  lemma {:induction false} CrashesHereOrLater(pkt: Packet, r: RawRule, sets: seq<NftSet>, i: nat, regs: Regs,
                                              act: Action)
    requires i < |r.exprs| && WholeTo(r, i)
    ensures Deref(r.exprs[i]).None? ==> Crashes(pkt, r, sets, i, regs, act)
    ensures Deref(r.exprs[i]).Some? ==>
      var s := StepExpr(pkt, Deref(r.exprs[i]).value, sets, regs, act);
      Crashes(pkt, r, sets, i, regs, act) <==>
        MissesAt(pkt, r, i) || (s.Next? && Crashes(pkt, r, sets, i + 1, s.regs, s.act))
  {
    assert GetsTo(pkt, r, sets, i, i, regs, act);
    if Deref(r.exprs[i]).Some? {
      var s := StepExpr(pkt, Deref(r.exprs[i]).value, sets, regs, act);
      forall n | i < n < |r.exprs|
        ensures GetsTo(pkt, r, sets, i, n, regs, act) <==> s.Next? && GetsTo(pkt, r, sets, i + 1, n, s.regs, s.act)
      {
        GetsToNext(pkt, r, sets, i, n, regs, act);
      }
    } else {
      assert MissesAt(pkt, r, i);
    }
  }

  lemma {:induction false} StuckXt(pkt: Packet, e: Expr, sets: seq<NftSet>, regs: Regs, act: Action)
    requires e.Xt?
    ensures StepExpr(pkt, e, sets, regs, act).Stuck? <==> XtEval(pkt, e.xt).XtUnresolved?
  {
  }

  /** What the loop answers where it is stuck. */
  lemma {:induction false} StuckAnswer(pkt: Packet, r: RawRule, sets: seq<NftSet>, i: nat, regs: Regs, act: Action,
                                       e: Expr)
    requires i < |r.exprs| && Deref(r.exprs[i]) == Some(e) && StepExpr(pkt, e, sets, regs, act).Stuck?
    ensures RawMatchFrom(pkt, r, sets, i, regs, act) == None <==>
      e.Xt? && e.xt.kind == XtMatch && RawSkippable(pkt, r, i, 0) == None
  {
  }

  /** With its object there, an expression misses one only when it is stuck. */
  lemma {:induction false} StuckMisses(pkt: Packet, r: RawRule, sets: seq<NftSet>, i: nat, regs: Regs, act: Action)
    requires i < |r.exprs| && Deref(r.exprs[i]).Some?
    ensures var s := StepExpr(pkt, Deref(r.exprs[i]).value, sets, regs, act);
      if s.Stuck? then RawMatchFrom(pkt, r, sets, i, regs, act) == None <==> MissesAt(pkt, r, i)
      else !MissesAt(pkt, r, i)
  {
    var e := Deref(r.exprs[i]).value;
    if e.Xt? {
      StuckXt(pkt, e, sets, regs, act);
    }
    if StepExpr(pkt, e, sets, regs, act).Stuck? {
      StuckAnswer(pkt, r, sets, i, regs, act, e);
      SkipTestCrashes(pkt, r, i, 0);
    }
  }

  /** Where it is not stuck, the loop goes on or has failed. */
  lemma {:induction false} LoopGoesOn(pkt: Packet, r: RawRule, sets: seq<NftSet>, i: nat, regs: Regs, act: Action)
    requires i < |r.exprs| && Deref(r.exprs[i]).Some?
    ensures var s := StepExpr(pkt, Deref(r.exprs[i]).value, sets, regs, act);
      && (s.Next? ==> RawMatchFrom(pkt, r, sets, i, regs, act) == RawMatchFrom(pkt, r, sets, i + 1, s.regs, s.act))
      && (s.Fail? ==> RawMatchFrom(pkt, r, sets, i, regs, act).Some?)
  {
  }

  lemma {:induction false} GuardIsExactFrom(pkt: Packet, r: RawRule, sets: seq<NftSet>, i: nat, regs: Regs, act: Action)
    requires i <= |r.exprs| && WholeTo(r, i)
    ensures RawMatchFrom(pkt, r, sets, i, regs, act) == None <==> Crashes(pkt, r, sets, i, regs, act)
    decreases |r.exprs| - i
  {
    if i < |r.exprs| {
      CrashesHereOrLater(pkt, r, sets, i, regs, act);
      if Deref(r.exprs[i]).Some? {
        StuckMisses(pkt, r, sets, i, regs, act);
        LoopGoesOn(pkt, r, sets, i, regs, act);
        var s := StepExpr(pkt, Deref(r.exprs[i]).value, sets, regs, act);
        if s.Next? {
          GuardIsExactFrom(pkt, r, sets, i + 1, s.regs, s.act);
        }
      }
    }
  }

  /** The rule loop crashes exactly when the packet gets to an expression whose object is missing,
      or to an unresolved match whose skip test does. */
  lemma {:induction false} GuardIsExact(pkt: Packet, r: RawRule, sets: seq<NftSet>)
    ensures RawMatchFrom(pkt, r, sets, 0, map[], NoAction) == None <==> Crashes(pkt, r, sets, 0, map[], NoAction)
  {
    GuardIsExactFrom(pkt, r, sets, 0, map[], NoAction);
  }
}
