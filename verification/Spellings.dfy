/** Different compilations of one condition give the same outcome: a range as two ordered
    comparisons, as a range expression or as an interval set, and a prefix as a partial load or
    as a masked one. */
module Spellings {
  import opened Wrappers
  import opened Bytes
  import opened Facts
  import opened Sets
  import opened Intervals
  import opened Matcher

  /** A stretch of expressions, run from given registers. */
  function Steps(pkt: Packet, es: seq<Expr>, sets: seq<NftSet>, regs: Regs, act: Action): Step {
    if es == [] then Next(regs, act)
    else
      match StepExpr(pkt, es[0], sets, regs, act)
      case Next(regs', act') => Steps(pkt, es[1..], sets, regs', act')
      case s => s
  }

  /** Wherever a rule contains the stretch, it passes on to what follows, or the rule fails. */
  lemma {:induction false} StepsInRule(pkt: Packet, r: Rule, sets: seq<NftSet>, i: nat, n: nat, regs: Regs, act: Action)
    requires i + n <= |r.exprs|
    ensures match Steps(pkt, r.exprs[i..i + n], sets, regs, act)
      case Next(regs', act') => MatchFrom(pkt, r, sets, i, regs, act) == MatchFrom(pkt, r, sets, i + n, regs', act')
      case Fail => MatchFrom(pkt, r, sets, i, regs, act).0 == NoMatch
      case Stuck => MatchFrom(pkt, r, sets, i, regs, act).0 in {Skipped, Unknown}
    decreases n
  {
    if n > 0 {
      var es := r.exprs[i..i + n];
      assert es[0] == r.exprs[i] && es[1..] == r.exprs[i + 1..i + 1 + (n - 1)];
      var s := StepExpr(pkt, r.exprs[i], sets, regs, act);
      if s.Next? {
        StepsInRule(pkt, r, sets, i + 1, n - 1, s.regs, s.act);
      }
    }
  }

  // ---- comparisons are numeric ------------------------------------------------------------

  /** Every comparison of a register's leading bytes is the comparison of the big-endian numbers,
      whatever field the register was loaded from; without an operator it is unresolved. */
  lemma {:induction false} ComparisonIsNumeric(reg: Bytes, data: Bytes)
    requires |data| <= |reg|
    ensures var v, d := Num(reg[..|data|]), Num(data);
      && CmpTest(reg, Eq, Hex(data)) == Some(v == d) && CmpTest(reg, Neq, Hex(data)) == Some(v != d)
      && CmpTest(reg, Lt, Hex(data)) == Some(v < d) && CmpTest(reg, Lte, Hex(data)) == Some(v <= d)
      && CmpTest(reg, Gt, Hex(data)) == Some(v > d) && CmpTest(reg, Gte, Hex(data)) == Some(v >= d)
      && CmpTest(reg, OtherOp, Hex(data)) == None
  {
    CompareIsNumeric(reg[..|data|], data);
  }

  // ---- three compilations of one range ---------------------------------------------------

  function Verdicted(b: bool, regs: Regs, act: Action): Step {
    if b then Next(regs, act) else Fail
  }

  lemma {:induction false} OneTest(pkt: Packet, e: Expr, sets: seq<NftSet>, regs: Regs, act: Action)
    ensures Steps(pkt, [e], sets, regs, act) == StepExpr(pkt, e, sets, regs, act)
  {
    assert [e][1..] == [];
  }

  /** `reg` holds at least as many bytes as the bounds, which are in order. */
  predicate RangeOn(regs: Regs, reg: nat, lo: Bytes, hi: Bytes) {
    reg in regs && |lo| == |hi| <= |regs[reg]| && Num(lo) <= Num(hi)
  }

  predicate Inside(regs: Regs, reg: nat, lo: Bytes, hi: Bytes)
    requires RangeOn(regs, reg, lo, hi)
  {
    Num(lo) <= Num(regs[reg][..|lo|]) <= Num(hi)
  }

  lemma {:induction false} PairOfComparisons(pkt: Packet, sets: seq<NftSet>, regs: Regs, act: Action, reg: nat,
                                             lo: Bytes, hi: Bytes)
    requires RangeOn(regs, reg, lo, hi)
    ensures Steps(pkt, [Cmp(Gte, reg, Hex(lo)), Cmp(Lte, reg, Hex(hi))], sets, regs, act)
      == Verdicted(Inside(regs, reg, lo, hi), regs, act)
  {
    var a, b := Cmp(Gte, reg, Hex(lo)), Cmp(Lte, reg, Hex(hi));
    CompareIsNumeric(regs[reg][..|lo|], lo);
    CompareIsNumeric(regs[reg][..|lo|], hi);
    assert [a, b][1..] == [b];
    OneTest(pkt, b, sets, regs, act);
  }

  lemma {:induction false} RangeExpression(pkt: Packet, sets: seq<NftSet>, regs: Regs, act: Action, reg: nat,
                                           lo: Bytes, hi: Bytes)
    requires RangeOn(regs, reg, lo, hi)
    ensures Steps(pkt, [Range(Eq, reg, Hex(lo), Hex(hi))], sets, regs, act)
      == Verdicted(Inside(regs, reg, lo, hi), regs, act)
    ensures Steps(pkt, [Range(Neq, reg, Hex(lo), Hex(hi))], sets, regs, act)
      == Verdicted(!Inside(regs, reg, lo, hi), regs, act)
  {
    CompareIsNumeric(regs[reg][..|lo|], lo);
    CompareIsNumeric(regs[reg][..|lo|], hi);
    OneTest(pkt, Range(Eq, reg, Hex(lo), Hex(hi)), sets, regs, act);
    OneTest(pkt, Range(Neq, reg, Hex(lo), Hex(hi)), sets, regs, act);
  }

  /** The set holds the kernel's encoding of [lo, hi], its elements in any order. */
  ghost predicate EncodesRange(s: NftSet, lo: Bytes, hi: Bytes) {
    && s.interval && !s.isMap && !s.concatenation
    && ReadBounds(s.elements).Some?
    && multiset(ReadBounds(s.elements).value) == multiset(Encode([Interval(lo, hi)], |lo|))
  }

  lemma {:induction false} IntervalLookup(pkt: Packet, sets: seq<NftSet>, regs: Regs, act: Action, e: Expr, lo: Bytes,
                                          hi: Bytes)
    requires e.Lookup? && !e.isDestRegSet && RangeOn(regs, e.sourceRegister, lo, hi)
    requires FindSet(e, sets).Some? && EncodesRange(FindSet(e, sets).value, lo, hi)
    ensures Steps(pkt, [e], sets, regs, act)
      == Verdicted(Inside(regs, e.sourceRegister, lo, hi) != e.invert, regs, act)
  {
    var s, ivs, reg := FindSet(e, sets).value, [Interval(lo, hi)], regs[e.sourceRegister];
    var bs := ReadBounds(s.elements).value;
    KernelEncodingMeansUnion(ivs, |lo|, bs, reg);
    InUnionHead(ivs, Num(reg[..|lo|]));
    assert ivs[1..] == [];
    assert s.elements != [] by {
      SameCount(bs, Encode(ivs, |lo|));
    }
    OneTest(pkt, e, sets, regs, act);
  }

  lemma {:induction false} SameCount(a: seq<Bound>, b: seq<Bound>)
    requires multiset(a) == multiset(b)
    ensures |a| == |b|
  {
    assert |multiset(a)| == |a| && |multiset(b)| == |b|;
  }

  /** The ordered pair, the range expression and the interval set are one test; the negated
      range and the inverted lookup are its complement. */
  lemma {:induction false} RangeSpellingsAgree(pkt: Packet, sets: seq<NftSet>, regs: Regs, act: Action, e: Expr,
                                               lo: Bytes, hi: Bytes)
    requires e.Lookup? && !e.isDestRegSet && !e.invert && RangeOn(regs, e.sourceRegister, lo, hi)
    requires FindSet(e, sets).Some? && EncodesRange(FindSet(e, sets).value, lo, hi)
    ensures var reg := e.sourceRegister;
      var pair := Steps(pkt, [Cmp(Gte, reg, Hex(lo)), Cmp(Lte, reg, Hex(hi))], sets, regs, act);
      && pair in {Next(regs, act), Fail}
      && Steps(pkt, [Range(Eq, reg, Hex(lo), Hex(hi))], sets, regs, act) == pair
      && Steps(pkt, [e], sets, regs, act) == pair
      && Steps(pkt, [Range(Neq, reg, Hex(lo), Hex(hi))], sets, regs, act) ==
        (if pair.Fail? then Next(regs, act) else Fail)
      && Steps(pkt, [e.(invert := true)], sets, regs, act) == (if pair.Fail? then Next(regs, act) else Fail)
  {
    PairOfComparisons(pkt, sets, regs, act, e.sourceRegister, lo, hi);
    RangeExpression(pkt, sets, regs, act, e.sourceRegister, lo, hi);
    IntervalLookup(pkt, sets, regs, act, e, lo, hi);
    SameSetInverted(e, sets);
    IntervalLookup(pkt, sets, regs, act, e.(invert := true), lo, hi);
  }

  lemma {:induction false} SameSetInverted(e: Expr, sets: seq<NftSet>)
    requires e.Lookup?
    ensures FindSet(e.(invert := true), sets) == FindSet(e, sets)
  {
    if sets != [] {
      SameSetInverted(e, sets[1..]);
    }
  }

  // ---- spellings of a prefix ----------------------------------------------------------------

  lemma {:induction false} CompareWithSameTail(a: Bytes, b: Bytes, tail: Bytes)
    requires |a| == |b|
    ensures Compare(a + tail, b + tail) == Compare(a, b)
  {
    if a == [] {
      assert a + tail == tail && b + tail == tail;
      CompareEqual(tail, tail);
    } else {
      assert (a + tail)[1..] == a[1..] + tail && (b + tail)[1..] == b[1..] + tail;
      CompareWithSameTail(a[1..], b[1..], tail);
    }
  }

  /** A mask of `n` full bytes keeps exactly the first `n` bytes. */
  lemma {:induction false} MaskKeepsPrefix(a: Bytes, n: nat)
    requires n <= |a|
    ensures MaskBytes(a, Ones(n) + Zeros(|a| - n), Zeros(|a|)) == a[..n] + Zeros(|a| - n)
  {
    var mask := Ones(n) + Zeros(|a| - n);
    var out := MaskBytes(a, mask, Zeros(|a|));
    forall i | 0 <= i < |a| ensures out[i] == (a[..n] + Zeros(|a| - n))[i] {
      MaskIdentities(a[i]);
      MaskIdentities(0);
    }
  }

  /** The field offset and value of an address of the packet's header. */
  function AddressField(pkt: Packet, destination: bool): (nat, IpAddr) {
    if pkt.family == "ip" then (if destination then (16, pkt.dst) else (12, pkt.src))
    else (if destination then (24, pkt.dst) else (8, pkt.src))
  }

  /** The packet carries address `a` of its family's width at this offset of its header. */
  predicate Carries(pkt: Packet, destination: bool, offset: nat, a: Bytes) {
    AddressField(pkt, destination) == (offset, IpAddr(a)) && |a| == if pkt.family == "ip" then 4 else 16
  }

  lemma {:induction false} AddressLoad(pkt: Packet, destination: bool, offset: nat, a: Bytes, n: nat)
    requires Carries(pkt, destination, offset, a) && 1 <= n <= |a|
    ensures PayloadBytes(pkt, Network, offset, n) == Some(a[..n])
  {
  }

  /** What a comparison of the first bytes of an address answers. */
  function PrefixTest(a: Bytes, op: CmpOp, prefix: Bytes): Option<bool>
    requires |prefix| <= |a|
  {
    CmpHolds(op, Compare(a[..|prefix|], prefix))
  }

  predicate Passes(s: Step, t: Option<bool>, act: Action) {
    match t
    case None => s.Stuck?
    case Some(true) => s.Next? && s.act == act
    case Some(false) => s.Fail?
  }

  /** Load just the bytes and compare them. */
  function PartialPrefix(offset: nat, reg: nat, op: CmpOp, prefix: Bytes): seq<Expr> {
    [Payload(reg, Network, offset, |prefix|), Cmp(op, reg, Hex(prefix))]
  }

  /** Load the whole address, mask it, and compare. */
  function MaskedPrefix(offset: nat, size: nat, reg: nat, masked: nat, op: CmpOp, prefix: Bytes, xor: Bytes): seq<Expr>
    requires |prefix| <= size
  {
    var rest := Zeros(size - |prefix|);
    [Payload(reg, Network, offset, size), Bitwise(reg, masked, Hex(Ones(|prefix|) + rest), Hex(xor)),
      Cmp(op, masked, Hex(prefix + rest))]
  }

  lemma {:induction false} PartialLoad(pkt: Packet, sets: seq<NftSet>, regs: Regs, act: Action, destination: bool,
                                       offset: nat, a: Bytes, reg: nat, op: CmpOp, prefix: Bytes)
    requires Carries(pkt, destination, offset, a) && 1 <= |prefix| <= |a|
    ensures Passes(Steps(pkt, PartialPrefix(offset, reg, op, prefix), sets, regs, act), PrefixTest(a, op, prefix), act)
  {
    var load, test := Payload(reg, Network, offset, |prefix|), Cmp(op, reg, Hex(prefix));
    var head := a[..|prefix|];
    AddressLoad(pkt, destination, offset, a, |prefix|);
    assert StepExpr(pkt, load, sets, regs, act) == Next(regs[reg := head], act);
    assert [load, test][1..] == [test];
    assert head[..|prefix|] == head;
    OneTest(pkt, test, sets, regs[reg := head], act);
  }

  lemma {:induction false} ThreeSteps(pkt: Packet, sets: seq<NftSet>, a: Expr, b: Expr, c: Expr, regs: Regs,
                                      regs1: Regs, regs2: Regs, act: Action)
    requires StepExpr(pkt, a, sets, regs, act) == Next(regs1, act)
    requires StepExpr(pkt, b, sets, regs1, act) == Next(regs2, act)
    ensures Steps(pkt, [a, b, c], sets, regs, act) == StepExpr(pkt, c, sets, regs2, act)
  {
    assert [a, b, c][1..] == [b, c] && [b, c][1..] == [c];
    OneTest(pkt, c, sets, regs2, act);
  }

  lemma {:induction false} MaskedBytes(a: Bytes, n: nat, xor: Bytes)
    requires n <= |a| && (xor == [] || xor == Zeros(|a|))
    ensures BitwiseBytes(a, Hex(Ones(n) + Zeros(|a| - n)), Hex(xor)) == Some(a[..n] + Zeros(|a| - n))
  {
    MaskKeepsPrefix(a, n);
    if xor == [] {
      assert |Ones(n) + Zeros(|a| - n)| == |a|;
    }
  }

  lemma {:induction false} MaskedTest(a: Bytes, op: CmpOp, prefix: Bytes)
    requires |prefix| <= |a|
    ensures var rest := Zeros(|a| - |prefix|);
      CmpTest(a[..|prefix|] + rest, op, Hex(prefix + rest)) == PrefixTest(a, op, prefix)
  {
    var rest := Zeros(|a| - |prefix|);
    var value := a[..|prefix|] + rest;
    assert value[..|prefix + rest|] == value;
    CompareWithSameTail(a[..|prefix|], prefix, rest);
  }

  /** Both loads of the masked spelling done, only the comparison is left. */
  lemma {:induction false} MaskedSteps(pkt: Packet, sets: seq<NftSet>, regs: Regs, act: Action, destination: bool,
                                       offset: nat, a: Bytes, reg: nat, masked: nat, op: CmpOp, prefix: Bytes,
                                       xor: Bytes)
    requires Carries(pkt, destination, offset, a) && 1 <= |prefix| <= |a| && (xor == [] || xor == Zeros(|a|))
    ensures var rest := Zeros(|a| - |prefix|);
      Steps(pkt, MaskedPrefix(offset, |a|, reg, masked, op, prefix, xor), sets, regs, act) ==
      StepExpr(pkt, Cmp(op, masked, Hex(prefix + rest)), sets, regs[reg := a][masked := a[..|prefix|] + rest], act)
  {
    var rest := Zeros(|a| - |prefix|);
    var load, mask := Payload(reg, Network, offset, |a|), Bitwise(reg, masked, Hex(Ones(|prefix|) + rest), Hex(xor));
    AddressLoad(pkt, destination, offset, a, |a|);
    assert a[..|a|] == a;
    MaskedBytes(a, |prefix|, xor);
    var regs1 := regs[reg := a];
    var regs2 := regs1[masked := a[..|prefix|] + rest];
    ThreeSteps(pkt, sets, load, mask, Cmp(op, masked, Hex(prefix + rest)), regs, regs1, regs2, act);
  }

  lemma {:induction false} MaskedLoad(pkt: Packet, sets: seq<NftSet>, regs: Regs, act: Action, destination: bool,
                                      offset: nat, a: Bytes, reg: nat, masked: nat, op: CmpOp, prefix: Bytes,
                                      xor: Bytes)
    requires Carries(pkt, destination, offset, a) && 1 <= |prefix| <= |a| && (xor == [] || xor == Zeros(|a|))
    ensures Passes(Steps(pkt, MaskedPrefix(offset, |a|, reg, masked, op, prefix, xor), sets, regs, act),
      PrefixTest(a, op, prefix), act)
  {
    MaskedSteps(pkt, sets, regs, act, destination, offset, a, reg, masked, op, prefix, xor);
    MaskedTest(a, op, prefix);
  }

  /** A byte-aligned prefix means one thing in all its spellings: the address starts with it. The
      same holds for every other comparison operator, on the first bytes of the address. */
  lemma {:induction false} PrefixSpellingsAgree(pkt: Packet, sets: seq<NftSet>, regs: Regs, act: Action,
                                                destination: bool,
                                                offset: nat, a: Bytes, reg: nat, masked: nat, op: CmpOp, prefix: Bytes)
    requires Carries(pkt, destination, offset, a) && 1 <= |prefix| <= |a|
    ensures var partial := Steps(pkt, PartialPrefix(offset, reg, op, prefix), sets, regs, act);
      var zeroXor := Steps(pkt, MaskedPrefix(offset, |a|, reg, masked, op, prefix, Zeros(|a|)), sets, regs, act);
      var noXor := Steps(pkt, MaskedPrefix(offset, |a|, reg, masked, op, prefix, []), sets, regs, act);
      && (partial.Next? <==> zeroXor.Next?) && (partial.Fail? <==> zeroXor.Fail?)
      && noXor == zeroXor
      && (op == Eq ==> (partial.Next? <==> prefix == a[..|prefix|]) && !partial.Stuck?)
      && (op == Neq ==> (partial.Next? <==> prefix != a[..|prefix|]) && !partial.Stuck?)
  {
    PartialLoad(pkt, sets, regs, act, destination, offset, a, reg, op, prefix);
    MaskedLoad(pkt, sets, regs, act, destination, offset, a, reg, masked, op, prefix, Zeros(|a|));
    MaskedLoad(pkt, sets, regs, act, destination, offset, a, reg, masked, op, prefix, []);
    MaskedSteps(pkt, sets, regs, act, destination, offset, a, reg, masked, op, prefix, Zeros(|a|));
    MaskedSteps(pkt, sets, regs, act, destination, offset, a, reg, masked, op, prefix, []);
    CompareEqual(a[..|prefix|], prefix);
  }
}
