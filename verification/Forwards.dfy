/** The scan for forwarded ports: a static reading of the prerouting rules that asks which
    packets a rewrite could apply to. It carries a constraint record where the traversal carries
    a packet. */
module Forwards {
  import opened Wrappers
  import opened Bytes
  import opened Facts
  import opened Sets
  import opened Matcher
  import opened Traversal

  /** Why the ports of a rewrite cannot be listed. */
  datatype Refusal = PortMasked | PortOp(op: CmpOp) | NotAPort | ProtoOp(op: CmpOp) | PortSet | PortRange

  /** What the rules above a rewrite have said: the protocol ("" when unconstrained, "other" for
      one without ports) and the destination ports. */
  datatype FwdMatch = FwdMatch(proto: string, ports: seq<Port>, refuse: Option<Refusal>)

  datatype FwdField = FwdUnset | FwdDport | FwdL4Proto | FwdOther

  datatype FwdTarget = FwdTarget(addr: Option<IpAddr>, port: Port)

  datatype FwdRow = FwdRow(family: string, proto: string, port: Port, target: FwdTarget)

  /** A rewrite that could not become rows; no refusal means it constrains no port at all. */
  datatype FwdNote = FwdNote(
    family: string, table: string, chain: string, handle: nat, target: FwdTarget, why: Option<Refusal>)

  datatype Found = Found(rows: seq<FwdRow>, notes: seq<FwdNote>) {
    function Then(more: Found): Found {
      Found(rows + more.rows, notes + more.notes)
    }
  }

  const NOTHING := Found([], [])

  datatype ScanState = ScanState(regs: map<nat, FwdField>, imm: map<nat, Hex>, m: FwdMatch)

  function FieldOf(regs: map<nat, FwdField>, k: nat): FwdField {
    if k in regs then regs[k] else FwdUnset
  }

  function PortFromHex(h: Hex): Option<Port> {
    if h.Hex? && |h.bytes| == 2 then Some(PortOf(h.bytes)) else None
  }

  function ProtoFromHex(h: Hex): string {
    if h == Hex([6]) then "tcp" else if h == Hex([17]) then "udp" else "other"
  }

  function PayloadField(base: PayloadBase, offset: nat, len: nat): FwdField {
    if base == Transport && offset == 2 && len == 2 then FwdDport
    else if base == Network && len == 1 && (offset == 9 || offset == 6) then FwdL4Proto
    else FwdOther
  }

  /** Only equality constrains; anything else on a port or protocol is refused. */
  function CmpConstraint(m: FwdMatch, field: FwdField, op: CmpOp, data: Hex): FwdMatch {
    match field
    case FwdDport =>
      if op != Eq then m.(refuse := Some(PortOp(op)))
      else
        var p := PortFromHex(data);
        if p.None? then m.(refuse := Some(NotAPort)) else m.(ports := m.ports + [p.value])
    case FwdL4Proto => if op != Eq then m.(refuse := Some(ProtoOp(op))) else m.(proto := ProtoFromHex(data))
    case _ => m
  }

  predicate PortElement(e: SetElement) {
    !e.hasVal && !e.hasKeyEnd && !e.intervalEnd && PortFromHex(e.key).Some?
  }

  function ElementPort(e: SetElement): Port
    requires PortElement(e)
  {
    PortFromHex(e.key).value
  }

  /** The ports of a flat set of two-byte keys, and nothing else. */
  function SetPorts(sets: seq<NftSet>, e: Expr): Option<seq<Port>>
    requires e.Lookup?
  {
    var s := FindSet(e, sets);
    if e.invert || e.isDestRegSet || s.None? then None
    else if s.value.interval || s.value.isMap || s.value.concatenation || s.value.elements == [] then None
    else
      var es := s.value.elements;
      if forall el :: el in es ==> PortElement(el) then
        var ports: seq<Port> := seq(|es|, i requires 0 <= i < |es| && PortElement(es[i]) => ElementPort(es[i]));
        Some(ports)
      else None
  }

  function NativeTarget(e: Expr, imm: map<nat, Hex>): FwdTarget
    requires e.Nat?
  {
    var addr :=
      if e.addrRegister in imm && imm[e.addrRegister].Hex? then AddrFromSlice(imm[e.addrRegister].bytes) else None;
    var port := if e.protoRegister != 0 && e.protoRegister in imm then PortFromHex(imm[e.protoRegister]) else None;
    FwdTarget(addr, if port.Some? then port.value else 0)
  }

  // ---- one expression, one rule ------------------------------------------------------------

  datatype ScanStep = ScanOn(st: ScanState) | ScanEmit(target: FwdTarget) | ScanFollow(chain: string) | ScanEnd

  predicate IsXtDnat(x: XtExpr) {
    x.kind == XtTarget && x.name == XtDnat && x.decoded && x.dnat.Some?
  }

  function ScanExpr(sets: seq<NftSet>, e: Expr, st: ScanState): ScanStep {
    var store := (k: nat, f: FwdField) => ScanOn(st.(regs := st.regs[k := f]));
    var refuse := (why: Refusal) => ScanOn(st.(m := st.m.(refuse := Some(why))));
    match e
    case Payload(dest, base, offset, len) => store(dest, PayloadField(base, offset, len))
    case Meta(key, dest) => store(dest, if key == L4proto then FwdL4Proto else FwdOther)
    case Ct(_, dest) => store(dest, FwdOther)
    case Fib(_, dest, _, _) => store(dest, FwdOther)
    case Bitwise(src, dest, _, _) =>
      var m := if FieldOf(st.regs, src) == FwdDport then st.m.(refuse := Some(PortMasked)) else st.m;
      ScanOn(st.(regs := st.regs[dest := FwdOther], m := m))
    case Cmp(op, reg, data) => ScanOn(st.(m := CmpConstraint(st.m, FieldOf(st.regs, reg), op, data)))
    case Lookup(src, _, _, _, _) =>
      if FieldOf(st.regs, src) != FwdDport then ScanOn(st)
      else
        var ports := SetPorts(sets, e);
        if ports.None? then refuse(PortSet) else ScanOn(st.(m := st.m.(ports := st.m.ports + ports.value)))
    case Range(_, reg, _, _) => if FieldOf(st.regs, reg) == FwdDport then refuse(PortRange) else ScanOn(st)
    case Immediate(dest, data) => ScanOn(st.(imm := st.imm[dest := data], regs := st.regs[dest := FwdOther]))
    case Nat(natType, _, _) => if natType != DestinationNat then ScanOn(st) else ScanEmit(NativeTarget(e, st.imm))
    case Xt(x) => if IsXtDnat(x) then ScanEmit(FwdTarget(x.dnat.value.minIp, x.dnat.value.minPort)) else ScanOn(st)
    case Verdict(v) => if v.Jump? || v.Goto? then ScanFollow(v.chain) else ScanEnd
    case Transparent => ScanOn(st)
    case Undecoded => ScanOn(st)
    case Later => ScanOn(st)
  }

  function TableFamilies(family: string): seq<string> {
    if family == "ip" then ["ip"]
    else if family == "ip6" then ["ip6"]
    else if family == "inet" then ["ip", "ip6"]
    else []
  }

  /** An inet table serves both families, and there the target decides. */
  function RowFamilies(table: Table, t: FwdTarget): seq<string> {
    if table.family != "inet" || t.addr.None? then TableFamilies(table.family)
    else if t.addr.value.Is4() || t.addr.value.Is4In6() then ["ip"]
    else ["ip6"]
  }

  function FwdProtos(proto: string): seq<string> {
    if proto == "" then ["tcp", "udp"] else [proto]
  }

  /** One row for every family, protocol and port, in that order. */
  function PortRows(family: string, proto: string, ports: seq<Port>, t: FwdTarget): seq<FwdRow> {
    if ports == [] then [] else [FwdRow(family, proto, ports[0], t)] + PortRows(family, proto, ports[1..], t)
  }

  function ProtoRows(family: string, protos: seq<string>, ports: seq<Port>, t: FwdTarget): seq<FwdRow> {
    if protos == [] then [] else PortRows(family, protos[0], ports, t) + ProtoRows(family, protos[1..], ports, t)
  }

  function FamilyRows(families: seq<string>, protos: seq<string>, ports: seq<Port>, t: FwdTarget): seq<FwdRow> {
    if families == [] then [] else ProtoRows(families[0], protos, ports, t) + FamilyRows(families[1..], protos, ports,
                      t)
  }

  /** A rewrite becomes rows, or the note that says why it cannot, or nothing when its protocol
      has no ports. */
  function Emit(table: Table, ch: Chain, r: Rule, m: FwdMatch, t: FwdTarget): Found {
    if m.proto == "other" then NOTHING
    else if m.refuse.Some? || m.ports == [] then
      Found([], [FwdNote(table.family, table.name, ch.name, r.handle, t, m.refuse)])
    else Found(FamilyRows(RowFamilies(table, t), FwdProtos(m.proto), m.ports, t), [])
  }

  // ---- chains ---------------------------------------------------------------------------------

  function ScanLeft(bound: nat, depth: nat): nat {
    if depth <= bound then bound + 1 - depth else 0
  }

  function ScanChain(bound: nat, table: Table, ch: Chain, m: FwdMatch, depth: nat): Found
    decreases ScanLeft(bound, depth), 2, 0
  {
    if depth > bound then NOTHING else ScanRules(bound, table, ch, ch.rules, m, depth)
  }

  function ScanRules(bound: nat, table: Table, ch: Chain, rules: seq<Rule>, m: FwdMatch, depth: nat): Found
    requires depth <= bound
    decreases ScanLeft(bound, depth), 1, |rules|
  {
    if rules == [] then NOTHING
    else
      ScanRule(bound, table, ch, rules[0], 0, ScanState(map[], map[], m), depth)
      .Then(ScanRules(bound, table, ch, rules[1..], m, depth))
  }

  function ScanRule(bound: nat, table: Table, ch: Chain, r: Rule, i: nat, st: ScanState, depth: nat): Found
    requires depth <= bound && i <= |r.exprs|
    decreases ScanLeft(bound, depth), 0, |r.exprs| - i
  {
    if i == |r.exprs| then NOTHING
    else
      match ScanExpr(table.sets, r.exprs[i], st)
      case ScanOn(st') => ScanRule(bound, table, ch, r, i + 1, st', depth)
      case ScanEmit(target) => Emit(table, ch, r, st.m, target)
      case ScanFollow(name) =>
        var t := FindInChains(table.chains, name);
        if t.None? then NOTHING else ScanChain(bound, table, t.value, st.m, depth + 1)
      case ScanEnd => NOTHING
  }

  // ---- all tables -----------------------------------------------------------------------------

  const NO_CONSTRAINT := FwdMatch("", [], None)

  function ScanBases(bound: nat, table: Table, chains: seq<Chain>): Found {
    if chains == [] then NOTHING
    else
      (if chains[0].base && chains[0].hook == "prerouting" then ScanChain(bound, table, chains[0], NO_CONSTRAINT, 0)
       else NOTHING).Then(ScanBases(bound, table, chains[1..]))
  }

  function ScanTables(bound: nat, tables: seq<Table>): Found {
    if tables == [] then NOTHING
    else
      (if TableFamilies(tables[0].family) == [] then NOTHING else ScanBases(bound, tables[0], tables[0].chains))
      .Then(ScanTables(bound, tables[1..]))
  }

  predicate SameRow(a: FwdRow, b: FwdRow) {
    a.family == b.family && a.proto == b.proto && a.port == b.port
  }

  /** The rows kept so far, extended by those whose family, protocol and port are new. */
  function AddRows(kept: seq<FwdRow>, rows: seq<FwdRow>): seq<FwdRow>
    decreases |rows|
  {
    if rows == [] then kept
    else if exists k :: k in kept && SameRow(k, rows[0]) then AddRows(kept, rows[1..])
    else AddRows(kept + [rows[0]], rows[1..])
  }

  function AddNotes(kept: seq<FwdNote>, notes: seq<FwdNote>): seq<FwdNote>
    decreases |notes|
  {
    if notes == [] then kept
    else if notes[0] in kept then AddNotes(kept, notes[1..])
    else AddNotes(kept + [notes[0]], notes[1..])
  }

  /** The forwarded ports of a ruleset, each once, and the notes, each once. */
  function ForwardRows(bound: nat, rs: Ruleset): Found {
    var all := ScanTables(bound, rs.tables);
    Found(AddRows([], all.rows), AddNotes([], all.notes))
  }
}
