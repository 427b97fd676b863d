/** One rule against one packet: a register machine over byte strings whose answer is match,
    no match, unknown, or skipped. */
module Matcher {
  import opened Wrappers
  import opened Bytes
  import opened Facts
  import opened Sets

  type Regs = map<nat, Bytes>

  // ---- what a register is loaded with --------------------------------------

  /** The one encoding of 4-byte host-order registers used throughout. */
  function U32(v: nat): Bytes {
    [v % 256, v / 0x100 % 256, v / 0x1_0000 % 256, v / 0x100_0000 % 256]
  }

  function PortBytes(p: Port): Bytes {
    [p / 256, p % 256]
  }

  function PortOf(b: Bytes): Port
    requires |b| == 2
  {
    NumBound(b);
    assert Pow256(1) == 256;
    Num(b)
  }

  function ProtoNumber(proto: string): Byte {
    if proto == "udp" then 17 else 6
  }

  /** The part of an address a load asks for, when the load stays inside that address. */
  function AddrWindow(a: IpAddr, size: nat, fieldOffset: nat, offset: nat, len: nat): Option<Bytes> {
    if len == 0 || offset < fieldOffset then None
    else if offset - fieldOffset + len > size then None
    else if |a.bytes| != size then None
    else Some(a.bytes[offset - fieldOffset..offset - fieldOffset + len])
  }

  function PayloadBytes(pkt: Packet, base: PayloadBase, offset: nat, len: nat): Option<Bytes> {
    match base
    case Network =>
      if pkt.family == "ip" then
        if offset == 9 && len == 1 then Some([ProtoNumber(pkt.proto)])
        else
          var src := AddrWindow(pkt.src, 4, 12, offset, len);
          if src.Some? then src else AddrWindow(pkt.dst, 4, 16, offset, len)
      else
        if offset == 6 && len == 1 then Some([ProtoNumber(pkt.proto)])
        else
          var src := AddrWindow(pkt.src, 16, 8, offset, len);
          if src.Some? then src else AddrWindow(pkt.dst, 16, 24, offset, len)
    case Transport =>
      if offset == 0 && len == 2 then Some(PortBytes(pkt.srcPort))
      else if offset == 2 && len == 2 then Some(PortBytes(pkt.dstPort))
      else if offset == 13 && len == 1 && pkt.proto == "tcp" then Some([2])  // SYN and nothing else
      else None
    case _ => None
  }

  /** Keys with no value on the hooks walked: the rule cannot match. */
  predicate MetaAbsent(key: MetaKey) {
    key == Skuid || key == Skgid
  }

  function IfIndex(index: nat): Option<Bytes> {
    if index == 0 then None else Some(U32(index))
  }

  /** Interface names are byte strings; a character stands for one byte of the name. */
  function IfName(name: string): Bytes {
    seq(16, i requires i >= 0 => if i < |name| then name[i] as int % 256 else 0)
  }

  function MetaBytes(pkt: Packet, key: MetaKey): Option<Bytes> {
    match key
    case Iifname => Some(IfName(pkt.inIface))
    case Oifname => Some(IfName(pkt.outIface))
    case Iif => IfIndex(pkt.inIfaceIndex)
    case Oif => IfIndex(pkt.outIfaceIndex)
    case L4proto => Some([ProtoNumber(pkt.proto)])
    case Nfproto => Some([if pkt.family == "ip" then 2 else 10])
    case _ => None
  }

  function CtBytes(pkt: Packet, key: CtKey): Option<Bytes> {
    match key
    case CtState => if pkt.ctState == "new" then Some(U32(0x8)) else None
    case CtStatus => Some(U32(if pkt.dnatApplied then 0x20 else 0))
    case OtherCt => None
  }

  function FibBytes(pkt: Packet, query: FibQuery, source: FibSource, matchesIface: bool): Option<Bytes> {
    match query
    case FibAddrType => Some(U32(if source == Daddr && pkt.dstIsLocal then 2 else 1))
    case FibOifPresent =>
      if pkt.srcRouteDev == "" then None
      else if matchesIface && pkt.inIface != "" && pkt.srcRouteDev != pkt.inIface then None
      else Some(U32(1))
    case OtherFib => None
  }

  function MaskBytes(src: Bytes, mask: Bytes, xor: Bytes): (out: Bytes)
    requires |mask| == |xor| && |mask| <= |src|
  {
    seq(|mask|, i requires 0 <= i < |mask| => Xor(And(src[i], mask[i]), xor[i]))
  }

  /** `(src & mask) ^ xor`, where a missing xor is all zero. */
  function BitwiseBytes(src: Bytes, mask: Hex, xor: Hex): Option<Bytes> {
    if mask.NotHex? || xor.NotHex? then None
    else
      var x := if xor.bytes == [] then Zeros(|mask.bytes|) else xor.bytes;
      if |mask.bytes| != |x| || |src| < |mask.bytes| then None
      else Some(MaskBytes(src, mask.bytes, x))
  }

  // ---- tests ----------------------------------------------------------------

  /** `None` when the operator has no meaning here. */
  function CmpHolds(op: CmpOp, c: int): Option<bool> {
    match op
    case Eq => Some(c == 0)
    case Neq => Some(c != 0)
    case Gte => Some(c >= 0)
    case Lte => Some(c <= 0)
    case Gt => Some(c > 0)
    case Lt => Some(c < 0)
    case OtherOp => None
  }

  function CmpTest(reg: Bytes, op: CmpOp, data: Hex): Option<bool> {
    if data.NotHex? || |reg| < |data.bytes| then None
    else CmpHolds(op, Compare(reg[..|data.bytes|], data.bytes))
  }

  function RangeTest(reg: Bytes, op: CmpOp, from: Hex, to: Hex): Option<bool> {
    if from.NotHex? || to.NotHex? || |from.bytes| != |to.bytes| || |reg| < |from.bytes| then None
    else
      var v := reg[..|from.bytes|];
      var inside := Compare(v, from.bytes) >= 0 && Compare(v, to.bytes) <= 0;
      match op
      case Eq => Some(inside)
      case Neq => Some(!inside)
      case _ => None
  }

  // ---- iptables-nft extensions ----------------------------------------------

  datatype XtResult = XtUnresolved | XtResolved(hit: bool, act: Action)

  predicate KnownAddrTypes(types: seq<string>) {
    forall t :: t in types ==> t in {"unspec", "unicast", "local", "broadcast", "anycast", "multicast"}
  }

  function XtTargetResult(x: XtExpr): XtResult {
    match x.name
    case XtDnat =>
      if !x.decoded || x.dnat.None? || x.dnat.value.minIp.None? then XtUnresolved
      else XtResolved(true, Rewrite(Target(x.dnat.value.minIp.value, x.dnat.value.minPort)))
    case XtReject => XtResolved(true, Does(Drop))
    case XtLog => XtResolved(true, NoAction)
    case XtMasquerade => XtResolved(true, Does(Accept))
    case _ => XtUnresolved
  }

  function XtAddrTypeResult(pkt: Packet, i: AddrTypeInfo): XtResult {
    if i.destTypes == [] && i.sourceTypes == [] then XtUnresolved
    else if !KnownAddrTypes(i.destTypes) || !KnownAddrTypes(i.sourceTypes) then XtUnresolved
    else
      var dstRole := if pkt.dstIsLocal then "local" else "unicast";
      var dstHit := i.destTypes == [] || ((dstRole in i.destTypes) != i.invertDest);
      var srcHit := i.sourceTypes == [] || (("unicast" in i.sourceTypes) != i.invertSource);
      XtResolved(dstHit && srcHit, NoAction)
  }

  function XtRecentResult(i: RecentInfo): XtResult {
    if i.mode == "set" then XtResolved(!i.invert, NoAction)
    else if i.mode in {"check", "rcheck", "update", "remove"} then XtResolved(i.invert, NoAction)
    else XtUnresolved
  }

  function XtMatchResult(pkt: Packet, x: XtExpr): XtResult {
    match x.name
    case XtConntrack =>
      if !x.decoded || x.conntrack.None? || !x.conntrack.value.matchesState then XtUnresolved
      else XtResolved((pkt.ctState in x.conntrack.value.states) != x.conntrack.value.invert, NoAction)
    case XtAddrType =>
      if !x.decoded || x.addrType.None? then XtUnresolved else XtAddrTypeResult(pkt, x.addrType.value)
    case XtRecent =>
      if !x.decoded || x.recent.None? then XtUnresolved else XtRecentResult(x.recent.value)
    case XtIcmp | XtIcmp6 | XtRt | XtHl => XtResolved(false, NoAction)
    case _ => XtUnresolved
  }

  function XtEval(pkt: Packet, x: XtExpr): XtResult {
    if x.kind == XtTarget then XtTargetResult(x) else XtMatchResult(pkt, x)
  }

  // ---- one expression, one rule -----------------------------------------------

  /** One expression: go on with new registers and action, fail the rule, or be unresolvable. */
  datatype Step = Next(regs: Regs, act: Action) | Fail | Stuck

  function LoadStep(b: Option<Bytes>, dest: nat, regs: Regs, act: Action): Step {
    if b.None? then Stuck else Next(regs[dest := b.value], act)
  }

  function TestStep(t: Option<bool>, regs: Regs, act: Action): Step {
    if t.None? then Stuck else if t.value then Next(regs, act) else Fail
  }

  function NatStep(pkt: Packet, e: Expr, regs: Regs): Step
    requires e.Nat?
  {
    if e.natType != DestinationNat || e.addrRegister !in regs then Stuck
    else
      var ip := AddrFromSlice(regs[e.addrRegister]);
      if ip.None? then Stuck
      else if e.protoRegister == 0 then Next(regs, Rewrite(Target(ip.value, pkt.dstPort)))
      else if e.protoRegister !in regs || |regs[e.protoRegister]| != 2 then Stuck
      else
        var p := regs[e.protoRegister];
        Next(regs, Rewrite(Target(ip.value, PortOf(p))))
  }

  function StepExpr(pkt: Packet, e: Expr, sets: seq<NftSet>, regs: Regs, act: Action): Step {
    match e
    case Payload(dest, base, offset, len) => LoadStep(PayloadBytes(pkt, base, offset, len), dest, regs, act)
    case Meta(key, dest) => if MetaAbsent(key) then Fail else LoadStep(MetaBytes(pkt, key), dest, regs, act)
    case Bitwise(src, dest, mask, xor) =>
      if src !in regs then Stuck else LoadStep(BitwiseBytes(regs[src], mask, xor), dest, regs, act)
    case Ct(key, dest) => LoadStep(CtBytes(pkt, key), dest, regs, act)
    case Lookup(src, _, _, _, isMap) =>
      if isMap || src !in regs then Stuck else TestStep(LookupMatch(regs[src], e, sets), regs, act)
    case Cmp(op, reg, data) => if reg !in regs then Stuck else TestStep(CmpTest(regs[reg], op, data), regs, act)
    case Immediate(dest, data) => if data.NotHex? then Stuck else Next(regs[dest := data.bytes], act)
    case Nat(_, _, _) => NatStep(pkt, e, regs)
    case Fib(query, dest, source, iface) => LoadStep(FibBytes(pkt, query, source, iface), dest, regs, act)
    case Range(op, reg, from, to) =>
      if reg !in regs then Stuck else TestStep(RangeTest(regs[reg], op, from, to), regs, act)
    case Xt(x) =>
      (match XtEval(pkt, x)
       case XtUnresolved => Stuck
       case XtResolved(hit, a) => if !hit then Fail else Next(regs, if a == NoAction then act else a))
    case Verdict(v) => Next(regs, Does(v))
    case Transparent => Next(regs, act)
    case Undecoded => Stuck
    case Later => Stuck
  }

  /** An expression that, in a rule with no verdict, cannot matter whichever way it goes. */
  predicate Indifferent(pkt: Packet, e: Expr) {
    match e
    case Payload(_, _, _, _) | Cmp(_, _, _) | Meta(_, _) | Bitwise(_, _, _, _) | Transparent => true
    case Xt(x) => XtEval(pkt, x).XtResolved? && XtEval(pkt, x).act == NoAction
    case _ => false
  }

  predicate Skippable(pkt: Packet, r: Rule, idx: nat)
    requires idx < |r.exprs|
  {
    && r.exprs[idx].Xt?
    && r.exprs[idx].xt.kind == XtMatch
    && forall i :: 0 <= i < |r.exprs| && i != idx ==> Indifferent(pkt, r.exprs[i])
  }

  function MatchFrom(pkt: Packet, r: Rule, sets: seq<NftSet>, i: nat, regs: Regs, act: Action): (Outcome, Action)
    requires i <= |r.exprs|
    decreases |r.exprs| - i
  {
    if i == |r.exprs| then (Match, act)
    else
      match StepExpr(pkt, r.exprs[i], sets, regs, act)
      case Next(regs', act') => MatchFrom(pkt, r, sets, i + 1, regs', act')
      case Fail => (NoMatch, act)
      case Stuck => (if Skippable(pkt, r, i) then Skipped else Unknown, act)
  }

  function MatchRule(pkt: Packet, r: Rule, sets: seq<NftSet>): (Outcome, Action) {
    MatchFrom(pkt, r, sets, 0, map[], NoAction)
  }

  /** The loop of the source: registers and action are updated expression by expression. */
  method RunRule(pkt: Packet, r: Rule, sets: seq<NftSet>) returns (out: Outcome, act: Action)
    ensures (out, act) == MatchRule(pkt, r, sets)
  {
    var regs: Regs := map[];
    act := NoAction;
    for i := 0 to |r.exprs|
      invariant MatchFrom(pkt, r, sets, i, regs, act) == MatchRule(pkt, r, sets)
    {
      match StepExpr(pkt, r.exprs[i], sets, regs, act)
      case Next(regs', act') => regs, act := regs', act';
      case Fail => return NoMatch, act;
      case Stuck =>
        if Skippable(pkt, r, i) {
          return Skipped, act;
        }
        return Unknown, act;
    }
    out := Match;
  }
}
