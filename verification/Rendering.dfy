/** The one-line rendering of a rule for human eyes: what it names, and when what it says of a
    masked comparison is what the rule tests. */
module Rendering {
  import opened Wrappers
  import opened Bytes
  import opened Facts
  import opened Matcher
  import opened Prefixes
  import opened Masks
  import opened Spellings

  // ---- the pieces of a line --------------------------------------------------------------

  /** What the next comparison is about; `Nothing` before any load. */
  datatype Field =
    | Nothing
    | SourceAddress
    | DestinationAddress
    | Protocol
    | SourcePort
    | DestinationPort
    | At(base: PayloadBase, offset: nat, len: nat)
    | OfMeta(metaKey: MetaKey)
    | OfCt(ctKey: CtKey)
    | FibType(source: FibSource)
    | FibOif(source: FibSource, matchesIface: bool)

  datatype XtText =
    | DnatText(dnat: DnatInfo)
    | StatesText(states: seq<string>)
    | TypesText(types: seq<string>)
    | RecentText(recent: RecentInfo)
    | TargetText(name: XtName)
    | UndecodedText(name: XtName)

  datatype Part =
    | PrefixPart(field: Field, prefix: Bytes, length: nat)
    | MaskedPart(field: Field, mask: Hex, value: Hex)
    | ComparePart(field: Field, negated: bool, value: Hex)
    | RangePart(field: Field, negated: bool, from: Hex, to: Hex)
    | LookupPart(field: Field, negated: bool, set_: string, setId: nat)
    | NatPart(address: Option<Hex>, hasPort: bool, port: Option<Hex>)
    | XtPart(text: XtText)
    | VerdictPart(verdict: VerdictKind)
    | UnresolvedPart

  /** The state of the rendering loop. An empty mask is no mask. */
  datatype Line = Line(parts: seq<Part>, pending: Field, mask: Hex, immediates: map<nat, Hex>) {
    function Say(part: Part): Line {
      Line(parts + [part], Nothing, Hex([]), immediates)
    }
  }

  const BLANK := Line([], Nothing, Hex([]), map[])

  function PayloadName(base: PayloadBase, offset: nat, len: nat): Field {
    if base == Network && offset == 8 && len == 16 then SourceAddress
    else if base == Network && offset == 24 && len == 16 then DestinationAddress
    else if base == Network && offset == 12 then SourceAddress
    else if base == Network && offset == 16 then DestinationAddress
    else if base == Network && (offset == 9 || offset == 6) then Protocol
    else if base == Transport && offset == 0 then SourcePort
    else if base == Transport && offset == 2 then DestinationPort
    else At(base, offset, len)
  }

  function FibName(query: FibQuery, source: FibSource, matchesIface: bool): Field {
    if query == FibAddrType then FibType(source) else FibOif(source, matchesIface)
  }

  function XtPhrase(x: XtExpr): XtText {
    if x.name == XtDnat && x.dnat.Some? then DnatText(x.dnat.value)
    else if x.name == XtConntrack && x.conntrack.Some? && x.conntrack.value.matchesState then
      StatesText(x.conntrack.value.states)
    else if x.name == XtAddrType && x.addrType.Some? then TypesText(x.addrType.value.destTypes)
    else if x.name == XtRecent && x.recent.Some? then RecentText(x.recent.value)
    else if x.kind == XtTarget then TargetText(x.name)
    else UndecodedText(x.name)
  }

  function Recall(immediates: map<nat, Hex>, k: nat): Option<Hex> {
    if k in immediates then Some(immediates[k]) else None
  }

  /** The length of a prefix mask. */
  ghost function PrefixLength(mask: Bytes): (n: Option<nat>)
    ensures n.Some? ==> IsPrefixMask(mask, n.value)
    ensures n.None? ==> forall m :: !IsPrefixMask(mask, m)
  {
    if m :| IsPrefixMask(mask, m) then Some(m) else None
  }

  /** `maskedCmp`: neither the operator nor the xor is an argument. */
  ghost function MaskedCmp(field: Field, value: Hex, mask: Hex): Part {
    if mask.NotHex? || value.NotHex? || |mask.bytes| != |value.bytes| then MaskedPart(field, mask, value)
    else
      match PrefixLength(mask.bytes)
      case Some(n) => PrefixPart(field, value.bytes, n)
      case None => MaskedPart(field, mask, value)
  }

  ghost function RenderExpr(e: Expr, line: Line): Line {
    match e
    case Meta(key, _) => line.(pending := OfMeta(key))
    case Payload(_, base, offset, len) => line.(pending := PayloadName(base, offset, len))
    case Bitwise(_, _, mask, _) => line.(mask := mask)
    case Ct(key, _) => line.(pending := OfCt(key))
    case Immediate(k, data) => line.(immediates := line.immediates[k := data])
    case Nat(_, address, port) =>
      line.Say(NatPart(Recall(line.immediates, address), port != 0, Recall(line.immediates, port)))
    case Fib(query, _, source, iface) => line.(pending := FibName(query, source, iface), mask := Hex([]))
    case Range(op, _, from, to) => line.Say(RangePart(line.pending, op == Neq, from, to))
    case Lookup(_, set_, id, invert, _) => line.Say(LookupPart(line.pending, invert, set_,
                            if set_ == "" then id else 0))
    case Cmp(op, _, value) =>
      if line.pending == Nothing then line
      else if line.mask != Hex([]) then line.Say(MaskedCmp(line.pending, value, line.mask))
      else line.Say(ComparePart(line.pending, op == Neq, value))
    case Xt(x) => line.(parts := line.parts + [XtPart(XtPhrase(x))])
    case Verdict(v) => line.(parts := line.parts + [VerdictPart(v)])
    case Undecoded => line.(parts := line.parts + [UnresolvedPart])
    case Transparent => line
    case Later => line
  }

  ghost function RenderFrom(es: seq<Expr>, line: Line): Line
    decreases |es|
  {
    if es == [] then line else RenderFrom(es[1..], RenderExpr(es[0], line))
  }

  ghost function Render(r: Rule): seq<Part> {
    RenderFrom(r.exprs, BLANK).parts
  }

  // ---- the loop ----------------------------------------------------------------------------

  method RenderMasked(field: Field, value: Hex, mask: Hex) returns (part: Part)
    ensures part == MaskedCmp(field, value, mask)
  {
    if mask.NotHex? || value.NotHex? || |mask.bytes| != |value.bytes| {
      return MaskedPart(field, mask, value);
    }
    var n, ok := PrefixLen(mask.bytes);
    if ok {
      OneLength(mask.bytes, n, PrefixLength(mask.bytes).value);
      return PrefixPart(field, value.bytes, n);
    }
    part := MaskedPart(field, mask, value);
  }

  /** `RenderRule`, before its parts are joined with spaces. */
  method RenderRule(r: Rule) returns (parts: seq<Part>)
    ensures parts == Render(r)
  {
    parts := [];
    var pending, mask := Nothing, Hex([]);
    var immediates: map<nat, Hex> := map[];
    assert r.exprs[0..] == r.exprs;
    for i := 0 to |r.exprs|
      invariant Render(r) == RenderFrom(r.exprs[i..], Line(parts, pending, mask, immediates)).parts
    {
      assert r.exprs[i..][0] == r.exprs[i] && r.exprs[i..][1..] == r.exprs[i + 1..];
      match r.exprs[i] {
        case Meta(key, _) =>
          pending := OfMeta(key);
        case Payload(_, base, offset, len) =>
          pending := PayloadName(base, offset, len);
        case Bitwise(_, _, m, _) =>
          mask := m;
        case Ct(key, _) =>
          pending := OfCt(key);
        case Immediate(k, data) =>
          immediates := immediates[k := data];
        case Nat(_, address, port) =>
          parts := parts + [NatPart(Recall(immediates, address), port != 0, Recall(immediates, port))];
          pending, mask := Nothing, Hex([]);
        case Fib(query, _, source, iface) =>
          pending, mask := FibName(query, source, iface), Hex([]);
        case Range(op, _, from, to) =>
          parts := parts + [RangePart(pending, op == Neq, from, to)];
          pending, mask := Nothing, Hex([]);
        case Lookup(_, set_, id, invert, _) =>
          parts := parts + [LookupPart(pending, invert, set_, if set_ == "" then id else 0)];
          pending, mask := Nothing, Hex([]);
        case Cmp(op, _, value) =>
          if pending != Nothing {
            if mask != Hex([]) {
              var part := RenderMasked(pending, value, mask);
              parts := parts + [part];
            } else {
              parts := parts + [ComparePart(pending, op == Neq, value)];
            }
            pending, mask := Nothing, Hex([]);
          }
        case Xt(x) =>
          parts := parts + [XtPart(XtPhrase(x))];
        case Verdict(v) =>
          parts := parts + [VerdictPart(v)];
        case Undecoded =>
          parts := parts + [UnresolvedPart];
        case Transparent =>
        case Later =>
      }
    }
    assert r.exprs[|r.exprs|..] == [];
  }

  // ---- a masked comparison, as printed and as tested -----------------------------------------

  /** A load, a mask and a comparison. */
  function Triple(base: PayloadBase, offset: nat, len: nat, reg: nat, masked: nat, mask: Bytes, xor: Bytes, op: CmpOp,
                  value: Bytes): seq<Expr> {
    [Payload(reg, base, offset, len), Bitwise(reg, masked, Hex(mask), Hex(xor)), Cmp(op, masked, Hex(value))]
  }

  /** In any rule, whatever was rendered before: the three print as one prefix, and neither the
      operator nor the xor has a part in it. */
  lemma {:induction false} TriplePrints(line: Line, base: PayloadBase, offset: nat, len: nat, reg: nat, masked: nat,
                                        mask: Bytes, xor: Bytes, op: CmpOp, value: Bytes, n: nat)
    requires mask != [] && IsPrefixMask(mask, n) && |value| == |mask|
    ensures RenderFrom(Triple(base, offset, len, reg, masked, mask, xor, op, value), line) ==
      line.Say(PrefixPart(PayloadName(base, offset, len), value, n))
  {
    var es := Triple(base, offset, len, reg, masked, mask, xor, op, value);
    OneLength(mask, n, PrefixLength(mask).value);
    var line1 := RenderExpr(es[0], line);
    var line2 := RenderExpr(es[1], line1);
    assert RenderExpr(es[2], line2) == line.Say(PrefixPart(PayloadName(base, offset, len), value, n));
    ThreeRendered(es[0], es[1], es[2], line);
  }

  lemma {:induction false} ThreeRendered(a: Expr, b: Expr, c: Expr, line: Line)
    ensures RenderFrom([a, b, c], line) == RenderExpr(c, RenderExpr(b, RenderExpr(a, line)))
  {
    assert [a, b, c][1..] == [b, c] && [b, c][1..] == [c] && [c][1..] == [];
    var line2 := RenderExpr(b, RenderExpr(a, line));
    assert RenderFrom([c], line2) == RenderFrom([], RenderExpr(c, line2));
    assert RenderFrom([b, c], RenderExpr(a, line)) == RenderFrom([c], line2);
  }

  /** A rule goes on past the three, for a packet whose field loads as `a`, exactly when `a`
      passes the test. */
  lemma {:induction false} TripleTests(pkt: Packet, sets: seq<NftSet>, regs: Regs, act: Action, a: Bytes,
                                       base: PayloadBase, offset: nat,
                                       len: nat, reg: nat, masked: nat, mask: Bytes, xor: Bytes, op: CmpOp,
                                       value: Bytes)
    requires PayloadBytes(pkt, base, offset, len) == Some(a) && |a| >= |mask| == |value|
    requires xor == [] || |xor| == |mask|
    ensures Steps(pkt, Triple(base, offset, len, reg, masked, mask, xor, op, value), sets, regs, act).Next? <==>
      Tests(a, mask, xor, op, value)
  {
    var es := Triple(base, offset, len, reg, masked, mask, xor, op, value);
    var regs1 := regs[reg := a];
    var regs2 := regs1[masked := BitwiseBytes(a, Hex(mask), Hex(xor)).value];
    assert StepExpr(pkt, es[0], sets, regs, act) == Next(regs1, act);
    assert StepExpr(pkt, es[1], sets, regs1, act) == Next(regs2, act);
    ThreeSteps(pkt, sets, es[0], es[1], es[2], regs, regs1, regs2, act);
  }

  /** The printed prefix is what the rule tests, for every field the rule can load, if and only if
      the operator, the xor and the value fit. */
  lemma {:induction false} PrintedPrefixIsTested(line: Line, base: PayloadBase, offset: nat, len: nat, reg: nat,
                                                 masked: nat,
                                                 mask: Bytes, xor: Bytes, op: CmpOp, value: Bytes, n: nat)
    requires mask != [] && IsPrefixMask(mask, n) && |value| == |mask| && (xor == [] || |xor| == |mask|)
    ensures RenderFrom(Triple(base, offset, len, reg, masked, mask, xor, op, value), line) ==
      line.Say(PrefixPart(PayloadName(base, offset, len), value, n))
    ensures TestsPrefix(mask, xor, op, value, n) <==> Faithful(op, XorOf(mask, xor), value, n)
  {
    TriplePrints(line, base, offset, len, reg, masked, mask, xor, op, value, n);
    PrefixIsTested(mask, xor, op, value, n);
  }

  /** The negated rule prints like the plain one: in `ip saddr != 172.16.0.0/12 drop` the line
      claims the complement of what is tested. */
  lemma {:induction false} NegationIsNotPrinted(pkt: Packet, sets: seq<NftSet>, regs: Regs, act: Action, line: Line)
    requires pkt.family == "ip" && |pkt.src.bytes| == 4
    ensures var mask, value := [255, 240, 0, 0], [172, 16, 0, 0];
      var plain, negated := Triple(Network, 12, 4, 1, 2, mask, [], Eq, value),
        Triple(Network, 12, 4, 1, 2, mask, [], Neq, value);
      && RenderFrom(negated, line) == RenderFrom(plain, line) == line.Say(PrefixPart(SourceAddress, value, 12))
      && (Steps(pkt, plain, sets, regs, act).Next? <==> InPrefix(pkt.src.bytes, value, 12))
      && (Steps(pkt, negated, sets, regs, act).Next? <==> !InPrefix(pkt.src.bytes, value, 12))
  {
    var mask, value, a := [255, 240, 0, 0], [172, 16, 0, 0], pkt.src.bytes;
    TwelveBits();
    assert a[0..4] == a;
    assert PayloadBytes(pkt, Network, 12, 4) == Some(a);
    TriplePrints(line, Network, 12, 4, 1, 2, mask, [], Eq, value, 12);
    TriplePrints(line, Network, 12, 4, 1, 2, mask, [], Neq, value, 12);
    TripleTests(pkt, sets, regs, act, a, Network, 12, 4, 1, 2, mask, [], Eq, value);
    TripleTests(pkt, sets, regs, act, a, Network, 12, 4, 1, 2, mask, [], Neq, value);
    WithoutXor(value, 12);
    PrefixIsTested(mask, [], Eq, value, 12);
    TestsAsRegister(a, mask, [], Eq, value);
    TestsAsRegister(a, mask, [], Neq, value);
  }

  /** A load, then an unmasked comparison: the line has a sign for negation and none for order. */
  lemma {:induction false} PlainPrints(line: Line, base: PayloadBase, offset: nat, len: nat, reg: nat, op: CmpOp,
                                       value: Bytes)
    requires line.mask == Hex([]) && value != []
    ensures RenderFrom([Payload(reg, base, offset, len), Cmp(op, reg, Hex(value))], line) ==
      line.Say(ComparePart(PayloadName(base, offset, len), op == Neq, Hex(value)))
    ensures (forall a: Bytes :: |a| >= |value| ==>
      (CmpTest(a, op, Hex(value)) == Some(true) <==> SaysEqual(a, op, value)))
      <==> op == Eq || op == Neq || (op == Lte && value == Zeros(|value|)) || (op == Gte && value == Ones(|value|))
  {
    var load, test := Payload(reg, base, offset, len), Cmp(op, reg, Hex(value));
    assert [load, test][1..] == [test] && [test][1..] == [];
    assert RenderFrom([test], RenderExpr(load, line)) == RenderFrom([], RenderExpr(test, RenderExpr(load, line)));
    ComparisonIsTested(op, value);
  }

  /** In any rule, with any field pending: a mask that is no prefix and a comparison print as one
      equality, and neither the operator nor the xor has a part in it. */
  lemma {:induction false} MaskPrints(line: Line, from: nat, masked: nat, mask: Bytes, xor: Bytes, op: CmpOp,
                                      value: Bytes)
    requires line.pending != Nothing && mask != [] && |value| == |mask| && forall n :: !IsPrefixMask(mask, n)
    ensures RenderFrom([Bitwise(from, masked, Hex(mask), Hex(xor)), Cmp(op, masked, Hex(value))], line) ==
      line.Say(MaskedPart(line.pending, Hex(mask), Hex(value)))
  {
    var bits, test := Bitwise(from, masked, Hex(mask), Hex(xor)), Cmp(op, masked, Hex(value));
    assert [bits, test][1..] == [test] && [test][1..] == [];
    assert RenderFrom([test], RenderExpr(bits, line)) == RenderFrom([], RenderExpr(test, RenderExpr(bits, line)));
  }

  /** A rule goes on past the two, with `a` in the register, exactly when `a` passes the test. */
  lemma {:induction false} MaskTests(pkt: Packet, sets: seq<NftSet>, regs: Regs, act: Action, from: nat, masked: nat,
                                     mask: Bytes, xor: Bytes, op: CmpOp, value: Bytes)
    requires from in regs && |regs[from]| >= |mask| == |value| && (xor == [] || |xor| == |mask|)
    ensures Steps(pkt, [Bitwise(from, masked, Hex(mask), Hex(xor)), Cmp(op, masked, Hex(value))], sets, regs, act).Next?
      <==> Tests(regs[from], mask, xor, op, value)
  {
    var bits, test := Bitwise(from, masked, Hex(mask), Hex(xor)), Cmp(op, masked, Hex(value));
    var regs' := regs[masked := BitwiseBytes(regs[from], Hex(mask), Hex(xor)).value];
    assert [bits, test][1..] == [test];
    assert StepExpr(pkt, bits, sets, regs, act) == Next(regs', act);
    OneTest(pkt, test, sets, regs', act);
  }

  /** The printed equality is what the rule tests, for every field the rule can load, if and only
      if the operator, the mask, the xor and the value fit. */
  lemma {:induction false} PrintedMaskIsTested(line: Line, from: nat, masked: nat, mask: Bytes, xor: Bytes, op: CmpOp,
                                               value: Bytes)
    requires line.pending != Nothing && mask != [] && |value| == |mask| && forall n :: !IsPrefixMask(mask, n)
    requires xor == [] || |xor| == |mask|
    ensures RenderFrom([Bitwise(from, masked, Hex(mask), Hex(xor)), Cmp(op, masked, Hex(value))], line) ==
      line.Say(MaskedPart(line.pending, Hex(mask), Hex(value)))
    ensures TestsMask(mask, xor, op, value) <==> FaithfulMask(op, mask, XorOf(mask, xor), value)
  {
    MaskPrints(line, from, masked, mask, xor, op, value);
    MaskIsTested(mask, xor, op, value);
  }

  /** With no xor a negation tests the complement of the equality. */
  lemma {:induction false} NegationIsComplement(a: Bytes, mask: Bytes, xor: Bytes, value: Bytes)
    requires mask != [] && |value| == |mask| <= |a| && (xor == [] || xor == Zeros(|mask|))
    ensures Tests(a, mask, xor, Neq, value) <==> !EqualsMasked(a, mask, value)
  {
    TestsAsRegister(a, mask, xor, Neq, value);
    CompareEqual(MaskBytes(a, mask, Zeros(|mask|)), value);
  }

  /** What `ct state established,related` compiles to. */
  function EstablishedOrRelated(): seq<Expr> {
    [Ct(CtState, 1), Bitwise(1, 1, Hex([6, 0, 0, 0]), Hex([0, 0, 0, 0])), Cmp(Neq, 1, Hex([0, 0, 0, 0]))]
  }

  /** It prints as `ct state & 0x06000000 == 0x00000000`, and passes exactly the states of which
      that is not so: a new connection, of which it is, stops at it. */
  lemma {:induction false} CtStatePrintsBackwards(pkt: Packet, sets: seq<NftSet>, regs: Regs, act: Action, line: Line)
    requires pkt.ctState == "new"
    ensures var mask, value := [6, 0, 0, 0], [0, 0, 0, 0];
      && RenderFrom(EstablishedOrRelated(), line) == line.Say(MaskedPart(Field.OfCt(CtState), Hex(mask), Hex(value)))
      && (forall state: Bytes :: |state| == 4 ==>
           (Tests(state, mask, value, Neq, value) <==> !EqualsMasked(state, mask, value)))
      && CtBytes(pkt, CtState) == Some(U32(8)) && EqualsMasked(U32(8), mask, value)
      && !Steps(pkt, EstablishedOrRelated(), sets, regs, act).Next?
  {
    var es, mask, value := EstablishedOrRelated(), [6, 0, 0, 0], [0, 0, 0, 0];
    assert value == Zeros(4);
    NoPrefix();
    var line1 := RenderExpr(es[0], line);
    assert es[1..] == [es[1], es[2]];
    MaskPrints(line1, 1, 1, mask, value, Neq, value);
    forall state: Bytes | |state| == 4
      ensures Tests(state, mask, value, Neq, value) <==> !EqualsMasked(state, mask, value)
    {
      NegationIsComplement(state, mask, value, value);
    }
    NewIsNeither();
    var regs1 := regs[1 := U32(8)];
    assert StepExpr(pkt, es[0], sets, regs, act) == Next(regs1, act);
    MaskTests(pkt, sets, regs1, act, 1, 1, mask, value, Neq, value);
  }

  lemma {:induction false} NoPrefix()
    ensures forall n: nat :: !IsPrefixMask([6, 0, 0, 0], n)
  {
    var mask := [6, 0, 0, 0];
    assert Pow2(7) == 128 && Pow2(2) == 4;
    assert !ByteBit(6, 0) && ByteBit(6, 5);
    forall n: nat ensures !IsPrefixMask(mask, n) {
      assert !Bit(mask, 0) && Bit(mask, 5);
      assert IsPrefixMask(mask, n) ==> !(0 < n) && 5 < n;
    }
  }

  lemma {:induction false} NewIsNeither()
    ensures EqualsMasked(U32(8), [6, 0, 0, 0], [0, 0, 0, 0])
  {
    assert AndBits(1, 0, 5) == 0 by {
      AndBitsWithZero(1, 5);
    }
    assert AndBits(2, 1, 6) == 0 && AndBits(4, 3, 7) == 0 && AndBits(8, 6, 8) == 0;
    MaskIdentities(0);
    AndBitsWithZero(0, 8);
    assert And(8, 6) == 0 && And(0, 0) == 0 && Xor(0, 0) == 0;
    assert U32(8) == [8, 0, 0, 0] && Zeros(4) == [0, 0, 0, 0];
    assert MaskBytes([8, 0, 0, 0], [6, 0, 0, 0], [0, 0, 0, 0]) == [0, 0, 0, 0];
  }

  lemma {:induction false} TwelveBits()
    ensures IsPrefixMask([255, 240, 0, 0], 12)
    ensures forall k :: 12 <= k < 32 ==> !Bit([172, 16, 0, 0], k)
  {
    ByteDigits(255);
    ByteDigits(240);
    ByteDigits(16);
    ByteDigits(0);
    var mask, value := [255, 240, 0, 0], [172, 16, 0, 0];
    forall k | 0 <= k < 32 ensures Bit(mask, k) <==> k < 12 {
      assert mask[k / 8] == if k < 8 then 255 else if k < 16 then 240 else 0;
    }
    forall k | 12 <= k < 32 ensures !Bit(value, k) {
      assert value[k / 8] == if k < 16 then 16 else 0;
    }
  }

  lemma {:induction false} ByteDigits(b: Byte)
    requires b in {0, 16, 240, 255}
    ensures forall i :: 0 <= i < 8 ==> (ByteBit(b, i) <==> b == 255 || (b == 240 && i < 4) || (b == 16 && i == 3))
  {
    assert Pow2(0) == 1 && Pow2(1) == 2 && Pow2(2) == 4 && Pow2(3) == 8;
    assert Pow2(4) == 16 && Pow2(5) == 32 && Pow2(6) == 64 && Pow2(7) == 128;
    forall i | 0 <= i < 8
      ensures ByteBit(b, i) <==> b == 255 || (b == 240 && i < 4) || (b == 16 && i == 3)
    {
      assert Pow2(7 - i) == [128, 64, 32, 16, 8, 4, 2, 1][i];
    }
  }
}
