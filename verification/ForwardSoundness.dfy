/** No silent forward: the scan over-approximates the traversal. Whatever packet the prerouting
    hook rewrites, the scan has produced a row with its protocol and port, or a note for the
    rule that rewrote it. */
module ForwardSoundness {
  import opened Wrappers
  import opened Bytes
  import opened Facts
  import opened Sorting
  import opened Sets
  import opened Matcher
  import opened Traversal
  import opened Machine
  import opened Path
  import opened Forwards

  // ---- the shapes the source takes for granted -----------------------------------------

  /** A rewrite of the destination, as either compiler spells it. */
  predicate IsRewrite(e: Expr) {
    (e.Nat? && e.natType == DestinationNat) || (e.Xt? && IsXtDnat(e.xt))
  }

  predicate IsTransfer(e: Expr) {
    e.Verdict? && Transfers(Does(e.verdict))
  }

  /** No verdict comes before a rewrite or a transfer, and no rewrite before a transfer. */
  predicate Ordered(r: Rule) {
    forall i, j :: 0 <= i < j < |r.exprs| ==>
      && (r.exprs[i].Verdict? ==> !IsRewrite(r.exprs[j]) && !IsTransfer(r.exprs[j]))
      && (IsRewrite(r.exprs[i]) ==> !IsTransfer(r.exprs[j]))
  }

  /** A load the scan takes for the protocol, at the offset of either family. */
  predicate LoadsProtocol(e: Expr) {
    (e.Meta? && e.metaKey == L4proto) || (e.Payload? && PayloadField(e.base, e.offset, e.len) == FwdL4Proto)
  }

  /** A one-byte protocol load uses the offset of the packet's own family. */
  predicate OwnProtocolOffset(family: string, e: Expr) {
    e.Payload? && e.base == Network && e.len == 1 && e.offset == 9 ==> family == "ip"
  }

  /** Expression `j` put in register `k` what is there in front of expression `i`. */
  predicate LastLoad(r: Rule, j: nat, i: nat, k: nat) {
    && j < i <= |r.exprs| && DestOf(r.exprs[j]) == Some(k)
    && forall l :: j < l < i ==> DestOf(r.exprs[l]) != Some(k)
  }

  /** Expression `i` is an equality with what expression `j` loaded, for the scan a protocol. */
  predicate TestsProtocol(r: Rule, j: nat, i: nat)
    requires j < i < |r.exprs|
  {
    && r.exprs[i].Cmp? && r.exprs[i].op == Eq
    && LastLoad(r, j, i, r.exprs[i].register) && LoadsProtocol(r.exprs[j])
  }

  /** An equality with what the scan takes for the protocol compares at least one byte, and of
      this family's protocol. */
  predicate ProtocolTests(family: string, r: Rule) {
    forall j, i :: 0 <= j < i < |r.exprs| && TestsProtocol(r, j, i) ==>
      r.exprs[i].data != Hex([]) && OwnProtocolOffset(family, r.exprs[j])
  }

  predicate Plain(family: string, r: Rule) {
    Ordered(r) && ProtocolTests(family, r)
  }

  /** The packet matches this rule, and is rewritten or sent to another chain by it. */
  predicate ActsAt(rs: Ruleset, pkt: Packet, table: string, r: Rule) {
    var (out, act) := MatchRule(pkt, r, TableSetsIn(rs.tables, pkt.family, table));
    out == Match && (act.Rewrite? || Transfers(act))
  }

  /** The rules on the packet's path that rewrite it or send it to another chain have the shapes
      taken for granted; nothing is asked of any other rule. */
  predicate PlainPath(rs: Ruleset, pkt: Packet, hits: seq<Hit>) {
    forall h :: h in hits && ActsAt(rs, pkt, h.table, h.rule) ==> Plain(pkt.family, h.rule)
  }

  // ---- which family a rewrite's rows are for ---------------------------------------------

  function DestOf(e: Expr): Option<nat> {
    match e
    case Payload(dest, _, _, _) => Some(dest)
    case Meta(_, dest) => Some(dest)
    case Bitwise(_, dest, _, _) => Some(dest)
    case Ct(_, dest) => Some(dest)
    case Fib(_, dest, _, _) => Some(dest)
    case Immediate(dest, _) => Some(dest)
    case _ => None
  }

  /** The rule rewrites once, and no load overwrites what an immediate put in a register. */
  predicate OneRewrite(r: Rule) {
    forall i, j :: 0 <= i < j < |r.exprs| ==>
      && (IsRewrite(r.exprs[i]) ==> !IsRewrite(r.exprs[j]))
      && (r.exprs[i].Immediate? && DestOf(r.exprs[j]) == Some(r.exprs[i].register) ==> r.exprs[j].Immediate?)
  }

  /** The new address is one the packet's family can carry. */
  predicate FitsFamily(family: string, ip: IpAddr) {
    family == "ip" <==> ip.Is4() || ip.Is4In6()
  }

  /** The family of the table a walk finds under this name. */
  function TableFamilyIn(tables: seq<Table>, family: string, table: string): string {
    if tables == [] then ""
    else if tables[0].name == table && Serves(tables[0], family) then tables[0].family
    else TableFamilyIn(tables[1..], family, table)
  }

  /** The families a row for this rewrite may be of: the packet's own, unless a rule of an inet
      table names an address of the other family, or names it in a way the scan cannot follow. */
  function RowFamiliesFor(rs: Ruleset, pkt: Packet, h: Hit, target: Target): set<string> {
    if TableFamilyIn(rs.tables, pkt.family, h.table) != "inet" || (OneRewrite(h.rule) && FitsFamily(pkt.family,
                          target.ip))
    then {pkt.family}
    else {"ip", "ip6"}
  }

  predicate PortPacket(pkt: Packet) {
    (pkt.proto == "tcp" || pkt.proto == "udp") && (pkt.family == "ip" || pkt.family == "ip6")
  }

  // ---- the invariant of the abstract interpretation ------------------------------------

  /** The packet is one the constraint record speaks of. */
  predicate Satisfies(pkt: Packet, m: FwdMatch) {
    && (m.proto == "" || m.proto == pkt.proto)
    && (m.refuse.Some? || m.ports == [] || pkt.dstPort in m.ports)
  }

  /** What the scan believes a register holds, in front of expression `i`, is what the matcher put
      there; of a protocol loaded at the other family's offset nothing is claimed. */
  ghost predicate Believes(pkt: Packet, r: Rule, i: nat, fields: map<nat, FwdField>, regs: Regs) {
    forall k :: k in fields ==>
      && (fields[k] == FwdDport ==> k in regs && regs[k] == PortBytes(pkt.dstPort))
      && (fields[k] == FwdL4Proto ==> HasProtocol(pkt, r, i, k, regs))
  }

  ghost predicate HasProtocol(pkt: Packet, r: Rule, i: nat, k: nat, regs: Regs) {
    exists j :: ProtocolFrom(pkt, r, j, i, k, regs)
  }

  predicate ProtocolFrom(pkt: Packet, r: Rule, j: nat, i: nat, k: nat, regs: Regs) {
    && LastLoad(r, j, i, k) && LoadsProtocol(r.exprs[j])
    && (OwnProtocolOffset(pkt.family, r.exprs[j]) ==> k in regs && regs[k] == [ProtoNumber(pkt.proto)])
  }

  lemma {:induction false} PortBytesAreThePort(p: Port)
    ensures Num(PortBytes(p)) == p && |PortBytes(p)| == 2
  {
    assert PortBytes(p)[1..] == [p % 256];
    assert PortBytes(p)[1..][1..] == [];
    assert Pow256(1) == 256 && Pow256(0) == 1;
    assert Num([]) == 0;
    assert Num([p % 256]) == (p % 256) * Pow256(0) + Num([p % 256][1..]);
  }

  lemma {:induction false} PortMatched(pkt: Packet, b: Bytes)
    requires |b| == 2 && PortBytes(pkt.dstPort) == b
    ensures PortOf(b) == pkt.dstPort
  {
    PortBytesAreThePort(pkt.dstPort);
  }

  lemma {:induction false} ComparisonConstrains(pkt: Packet, m: FwdMatch, field: FwdField, reg: Bytes, op: CmpOp,
                                                data: Hex)
    requires PortPacket(pkt) && Satisfies(pkt, m)
    requires field == FwdDport ==> reg == PortBytes(pkt.dstPort)
    requires field == FwdL4Proto && op == Eq ==> reg == [ProtoNumber(pkt.proto)] && data != Hex([])
    requires CmpTest(reg, op, data) == Some(true)
    ensures Satisfies(pkt, CmpConstraint(m, field, op, data))
  {
    if op == Eq && (field == FwdDport || field == FwdL4Proto) {
      var b := data.bytes;
      CompareEqual(reg[..|b|], b);
      if field == FwdDport && |b| == 2 {
        assert reg[..2] == reg;
        PortMatched(pkt, b);
      } else if field == FwdL4Proto {
        assert |b| == 1 && reg[..1] == reg;
      }
    }
  }

  lemma {:induction false} SetPortsConstrain(pkt: Packet, sets: seq<NftSet>, e: Expr)
    requires e.Lookup? && SetPorts(sets, e).Some?
    requires LookupMatch(PortBytes(pkt.dstPort), e, sets) == Some(true)
    ensures pkt.dstPort in SetPorts(sets, e).value
  {
    var es := FindSet(e, sets).value.elements;
    var bs := ReadBounds(es).value;
    var reg := PortBytes(pkt.dstPort);
    var b :| b in bs && b.key == reg[..|bs[0].key|];
    var i :| 0 <= i < |bs| && bs[i] == b;
    assert es[0] in es && es[i] in es;
    assert |bs[0].key| == 2 && reg[..2] == reg;
    PortMatched(pkt, b.key);
    assert SetPorts(sets, e).value[i] == pkt.dstPort;
  }

  /** The scan's state after expression `i` still tells the truth about the packet. */
  ghost predicate Kept(pkt: Packet, sets: seq<NftSet>, r: Rule, i: nat, st: ScanState, regs: Regs, act: Action)
    requires i < |r.exprs| && StepExpr(pkt, r.exprs[i], sets, regs, act).Next?
  {
    match ScanExpr(sets, r.exprs[i], st)
    case ScanOn(st') =>
      && Satisfies(pkt, st'.m)
      && Believes(pkt, r, i + 1, st'.regs, StepExpr(pkt, r.exprs[i], sets, regs, act).regs)
    case _ => true
  }

  /** An expression that loads nothing leaves every belief as it was. */
  lemma {:induction false} BeliefsStay(pkt: Packet, r: Rule, i: nat, fields: map<nat, FwdField>, regs: Regs)
    requires i < |r.exprs| && DestOf(r.exprs[i]).None? && Believes(pkt, r, i, fields, regs)
    ensures Believes(pkt, r, i + 1, fields, regs)
  {
    forall k | k in fields && fields[k] == FwdL4Proto ensures HasProtocol(pkt, r, i + 1, k, regs) {
      var j :| ProtocolFrom(pkt, r, j, i, k, regs);
      assert ProtocolFrom(pkt, r, j, i + 1, k, regs);
    }
  }

  /** A load changes one register and one belief, and the new belief is true. */
  lemma {:induction false} BeliefsLoad(pkt: Packet, r: Rule, i: nat, fields: map<nat, FwdField>, regs: Regs,
                                       f: FwdField, b: Bytes)
    requires i < |r.exprs| && DestOf(r.exprs[i]).Some? && Believes(pkt, r, i, fields, regs)
    requires f == FwdDport ==> b == PortBytes(pkt.dstPort)
    requires f == FwdL4Proto ==> LoadsProtocol(r.exprs[i])
    requires f == FwdL4Proto && OwnProtocolOffset(pkt.family, r.exprs[i]) ==> b == [ProtoNumber(pkt.proto)]
    ensures var dest := DestOf(r.exprs[i]).value;
      Believes(pkt, r, i + 1, fields[dest := f], regs[dest := b])
  {
    var dest := DestOf(r.exprs[i]).value;
    var fields', regs' := fields[dest := f], regs[dest := b];
    forall k | k in fields' && fields'[k] == FwdL4Proto ensures HasProtocol(pkt, r, i + 1, k, regs') {
      if k == dest {
        assert ProtocolFrom(pkt, r, i, i + 1, k, regs');
      } else {
        var j :| ProtocolFrom(pkt, r, j, i, k, regs);
        assert ProtocolFrom(pkt, r, j, i + 1, k, regs');
      }
    }
  }

  /** A comparison the packet passes constrains it truly: what the scan takes for a protocol is one
      wherever an equality asks for it. */
  lemma {:induction false} ComparisonKeeps(pkt: Packet, r: Rule, i: nat, st: ScanState, regs: Regs)
    requires PortPacket(pkt) && ProtocolTests(pkt.family, r) && i < |r.exprs| && r.exprs[i].Cmp?
    requires Satisfies(pkt, st.m) && Believes(pkt, r, i, st.regs, regs)
    requires var e := r.exprs[i];
      e.register in regs && CmpTest(regs[e.register], e.op, e.data) == Some(true)
    ensures var e := r.exprs[i];
      Satisfies(pkt, CmpConstraint(st.m, FieldOf(st.regs, e.register), e.op, e.data))
  {
    var e := r.exprs[i];
    var field := FieldOf(st.regs, e.register);
    if field == FwdL4Proto && e.op == Eq {
      var j :| ProtocolFrom(pkt, r, j, i, e.register, regs);
      assert TestsProtocol(r, j, i);
    }
    ComparisonConstrains(pkt, st.m, field, regs[e.register], e.op, e.data);
  }

  lemma {:induction false} TestKeeps(pkt: Packet, sets: seq<NftSet>, r: Rule, i: nat, st: ScanState, regs: Regs,
                                     act: Action)
    requires PortPacket(pkt) && ProtocolTests(pkt.family, r) && i < |r.exprs| && DestOf(r.exprs[i]).None?
    requires Satisfies(pkt, st.m) && Believes(pkt, r, i, st.regs, regs)
    requires StepExpr(pkt, r.exprs[i], sets, regs, act).Next?
    ensures Kept(pkt, sets, r, i, st, regs, act)
  {
    var e := r.exprs[i];
    BeliefsStay(pkt, r, i, st.regs, regs);
    match e
    case Cmp(op, reg, data) => ComparisonKeeps(pkt, r, i, st, regs);
    case Lookup(src, _, _, _, _) =>
      if FieldOf(st.regs, src) == FwdDport && SetPorts(sets, e).Some? {
        SetPortsConstrain(pkt, sets, e);
      }
    case _ =>
  }

  /** The field a load is taken for. */
  function LoadedField(e: Expr): FwdField {
    match e
    case Payload(_, base, offset, len) => PayloadField(base, offset, len)
    case Meta(key, _) => if key == L4proto then FwdL4Proto else FwdOther
    case _ => FwdOther
  }

  /** What scan and matcher do with a load. */
  lemma {:induction false} LoadSteps(pkt: Packet, sets: seq<NftSet>, e: Expr, st: ScanState, regs: Regs, act: Action)
    returns (b: Bytes)
    requires PortPacket(pkt) && DestOf(e).Some? && StepExpr(pkt, e, sets, regs, act).Next?
    ensures StepExpr(pkt, e, sets, regs, act).regs == regs[DestOf(e).value := b]
    ensures ScanExpr(sets, e, st).ScanOn?
    ensures var st' := ScanExpr(sets, e, st).st;
      && st'.regs == st.regs[DestOf(e).value := LoadedField(e)]
      && (st'.m == st.m || (st'.m.refuse.Some? && st'.m == st.m.(refuse := st'.m.refuse)))
    ensures LoadedField(e) == FwdDport ==> b == PortBytes(pkt.dstPort)
    ensures LoadedField(e) == FwdL4Proto ==> LoadsProtocol(e)
    ensures LoadedField(e) == FwdL4Proto && OwnProtocolOffset(pkt.family, e) ==> b == [ProtoNumber(pkt.proto)]
  {
    b := StepExpr(pkt, e, sets, regs, act).regs[DestOf(e).value];
  }

  lemma {:induction false} LoadKeeps(pkt: Packet, sets: seq<NftSet>, r: Rule, i: nat, st: ScanState, regs: Regs,
                                     act: Action)
    requires PortPacket(pkt) && i < |r.exprs| && DestOf(r.exprs[i]).Some?
    requires Satisfies(pkt, st.m) && Believes(pkt, r, i, st.regs, regs)
    requires StepExpr(pkt, r.exprs[i], sets, regs, act).Next?
    ensures Kept(pkt, sets, r, i, st, regs, act)
  {
    var e := r.exprs[i];
    var b := LoadSteps(pkt, sets, e, st, regs, act);
    BeliefsLoad(pkt, r, i, st.regs, regs, LoadedField(e), b);
  }

  /** One expression: when the matcher goes on, so does the scan, and the invariant holds
      again; or the scan has found the rewrite or the verdict. */
  lemma {:induction false} ExpressionKeeps(pkt: Packet, sets: seq<NftSet>, r: Rule, i: nat, st: ScanState, regs: Regs,
                                           act: Action)
    requires PortPacket(pkt) && ProtocolTests(pkt.family, r) && i < |r.exprs|
    requires Satisfies(pkt, st.m) && Believes(pkt, r, i, st.regs, regs)
    requires StepExpr(pkt, r.exprs[i], sets, regs, act).Next?
    ensures Kept(pkt, sets, r, i, st, regs, act)
  {
    if DestOf(r.exprs[i]).Some? {
      LoadKeeps(pkt, sets, r, i, st, regs, act);
    } else {
      TestKeeps(pkt, sets, r, i, st, regs, act);
    }
  }

  // ---- one rule ---------------------------------------------------------------------------

  /** The action a matcher's step may leave. */
  lemma {:induction false} ActionsComeFrom(pkt: Packet, e: Expr, sets: seq<NftSet>, regs: Regs, act: Action)
    requires StepExpr(pkt, e, sets, regs, act).Next?
    ensures var act' := StepExpr(pkt, e, sets, regs, act).act;
      && (act'.Rewrite? && !act.Rewrite? ==> IsRewrite(e))
      && (Transfers(act') && !Transfers(act) ==> e.Verdict? && e.verdict == act'.verdict)
      && (e.Verdict? ==> act' == Does(e.verdict))
  {
  }

  /** A rule that matches and rewrites: the scan emits it, with the packet still satisfying what
      it has collected. */
  lemma {:induction false} RewriteIsEmitted(pkt: Packet, bound: nat, table: Table, ch: Chain, r: Rule, i: nat,
                                            st: ScanState,
                                            regs: Regs, act: Action, depth: nat) returns (m: FwdMatch, t: FwdTarget)
    requires PortPacket(pkt) && Plain(pkt.family, r) && depth <= bound && i <= |r.exprs|
    requires Satisfies(pkt, st.m) && Believes(pkt, r, i, st.regs, regs) && !act.Rewrite?
    requires MatchFrom(pkt, r, table.sets, i, regs, act).0 == Match
    requires MatchFrom(pkt, r, table.sets, i, regs, act).1.Rewrite?
    ensures Satisfies(pkt, m)
    ensures ScanRule(bound, table, ch, r, i, st, depth) == Emit(table, ch, r, m, t)
    ensures EmittedTarget(table.sets, r, i, st) == Some(t)
    decreases |r.exprs| - i
  {
    var e := r.exprs[i];
    assert e in r.exprs;
    var s := StepExpr(pkt, e, table.sets, regs, act);
    ExpressionKeeps(pkt, table.sets, r, i, st, regs, act);
    ActionsComeFrom(pkt, e, table.sets, regs, act);
    if e.Verdict? {
      VerdictIsLast(pkt, r, table.sets, i, i + 1, s.regs, s.act);
    }
    match ScanExpr(table.sets, e, st)
    case ScanOn(st') =>
      m, t := RewriteIsEmitted(pkt, bound, table, ch, r, i + 1, st', s.regs, s.act, depth);
    case ScanEmit(target) =>
      m, t := st.m, target;
  }

  /** After the verdict at `v`, nothing in the rule rewrites or transfers elsewhere. */
  lemma {:induction false} VerdictIsLast(pkt: Packet, r: Rule, sets: seq<NftSet>, v: nat, i: nat, regs: Regs,
                                         act: Action)
    requires Ordered(r) && v < i <= |r.exprs| && r.exprs[v].Verdict? && !act.Rewrite?
    ensures var out := MatchFrom(pkt, r, sets, i, regs, act);
      out.0 == Match ==> !out.1.Rewrite? && (Transfers(out.1) ==> out.1 == act)
    decreases |r.exprs| - i
  {
    if i < |r.exprs| {
      var s := StepExpr(pkt, r.exprs[i], sets, regs, act);
      if s.Next? {
        ActionsComeFrom(pkt, r.exprs[i], sets, regs, act);
        VerdictIsLast(pkt, r, sets, v, i + 1, s.regs, s.act);
      }
    }
  }

  /** A rule that matches and jumps or goes to a chain: the scan follows it there, with the
      packet satisfying what it carries across. */
  lemma {:induction false} TransferIsFollowed(pkt: Packet, bound: nat, table: Table, ch: Chain, r: Rule, i: nat,
                                              st: ScanState,
                                              regs: Regs, act: Action, depth: nat) returns (m: FwdMatch)
    requires PortPacket(pkt) && Plain(pkt.family, r) && depth <= bound && i <= |r.exprs|
    requires Satisfies(pkt, st.m) && Believes(pkt, r, i, st.regs, regs) && !Transfers(act)
    requires forall j :: 0 <= j < i ==> !r.exprs[j].Verdict?
    requires MatchFrom(pkt, r, table.sets, i, regs, act).0 == Match
    requires Transfers(MatchFrom(pkt, r, table.sets, i, regs, act).1)
    requires FindInChains(table.chains, MatchFrom(pkt, r, table.sets, i, regs, act).1.verdict.chain).Some?
    ensures Satisfies(pkt, m)
    ensures var target := FindInChains(table.chains, MatchFrom(pkt, r, table.sets, i, regs, act).1.verdict.chain).value;
      ScanRule(bound, table, ch, r, i, st, depth) == ScanChain(bound, table, target, m, depth + 1)
    decreases |r.exprs| - i
  {
    var e := r.exprs[i];
    var s := StepExpr(pkt, e, table.sets, regs, act);
    if e.Verdict? {
      VerdictIsLast(pkt, r, table.sets, i, i + 1, s.regs, s.act);
      m := st.m;
    } else {
      TransferIsAhead(pkt, table.sets, r, i, st, regs, act);
      m := TransferIsFollowed(pkt, bound, table, ch, r, i + 1, ScanExpr(table.sets, e, st).st, s.regs, s.act, depth);
    }
  }

  /** Before the verdict of a rule that transfers, matcher and scan go on side by side. */
  lemma {:induction false} TransferIsAhead(pkt: Packet, sets: seq<NftSet>, r: Rule, i: nat, st: ScanState, regs: Regs,
                                           act: Action)
    requires PortPacket(pkt) && Plain(pkt.family, r) && i < |r.exprs| && !r.exprs[i].Verdict?
    requires Satisfies(pkt, st.m) && Believes(pkt, r, i, st.regs, regs) && !Transfers(act)
    requires MatchFrom(pkt, r, sets, i, regs, act).0 == Match && Transfers(MatchFrom(pkt, r, sets, i, regs, act).1)
    ensures var s, next := StepExpr(pkt, r.exprs[i], sets, regs, act), ScanExpr(sets, r.exprs[i], st);
      && s.Next? && next.ScanOn? && !Transfers(s.act)
      && Satisfies(pkt, next.st.m) && Believes(pkt, r, i + 1, next.st.regs, s.regs)
      && MatchFrom(pkt, r, sets, i, regs, act) == MatchFrom(pkt, r, sets, i + 1, s.regs, s.act)
  {
    var e := r.exprs[i];
    assert e in r.exprs;
    var s := StepExpr(pkt, e, sets, regs, act);
    ExpressionKeeps(pkt, sets, r, i, st, regs, act);
    ActionsComeFrom(pkt, e, sets, regs, act);
    if IsRewrite(e) {
      NoTransferAfterRewrite(pkt, r, sets, i, i + 1, s.regs, s.act);
    }
  }

  lemma {:induction false} NoTransferAfterRewrite(pkt: Packet, r: Rule, sets: seq<NftSet>, w: nat, i: nat, regs: Regs,
                                                  act: Action)
    requires Ordered(r) && w < i <= |r.exprs| && IsRewrite(r.exprs[w]) && !Transfers(act)
    ensures MatchFrom(pkt, r, sets, i, regs, act).0 == Match ==> !Transfers(MatchFrom(pkt, r, sets, i, regs, act).1)
    decreases |r.exprs| - i
  {
    if i < |r.exprs| {
      var s := StepExpr(pkt, r.exprs[i], sets, regs, act);
      if s.Next? {
        ActionsComeFrom(pkt, r.exprs[i], sets, regs, act);
        assert !IsTransfer(r.exprs[i]);
        NoTransferAfterRewrite(pkt, r, sets, w, i + 1, s.regs, s.act);
      }
    }
  }

  // ---- the target of a rewrite --------------------------------------------------------------

  /** The target the scan emits for a rule, if it gets to a rewrite. */
  function EmittedTarget(sets: seq<NftSet>, r: Rule, i: nat, st: ScanState): Option<FwdTarget>
    requires i <= |r.exprs|
    decreases |r.exprs| - i
  {
    if i == |r.exprs| then None
    else
      match ScanExpr(sets, r.exprs[i], st)
      case ScanOn(st') => EmittedTarget(sets, r, i + 1, st')
      case ScanEmit(target) => Some(target)
      case _ => None
  }

  /** The immediates the scan remembers are still in their registers. */
  predicate Recalls(r: Rule, i: nat, imm: map<nat, Hex>, regs: Regs)
    requires i <= |r.exprs|
  {
    forall k :: k in imm ==>
      && k in regs && imm[k] == Hex(regs[k])
      && exists j :: 0 <= j < i && r.exprs[j].Immediate? && r.exprs[j].register == k
  }

  lemma {:induction false} OnlyDestinationChanges(pkt: Packet, e: Expr, sets: seq<NftSet>, st: ScanState, regs: Regs,
                                                  act: Action)
    requires StepExpr(pkt, e, sets, regs, act).Next?
    ensures var regs' := StepExpr(pkt, e, sets, regs, act).regs;
      && (forall k :: k in regs && DestOf(e) != Some(k) ==> k in regs' && regs'[k] == regs[k])
      && (e.Immediate? ==> e.register in regs' && e.data == Hex(regs'[e.register]))
    ensures ScanExpr(sets, e, st).ScanOn? ==>
      ScanExpr(sets, e, st).st.imm == if e.Immediate? then st.imm[e.register := e.data] else st.imm
  {
  }

  lemma {:induction false} StepRecalls(pkt: Packet, r: Rule, sets: seq<NftSet>, i: nat, st: ScanState, regs: Regs,
                                       act: Action)
    requires i < |r.exprs| && OneRewrite(r) && Recalls(r, i, st.imm, regs)
    requires StepExpr(pkt, r.exprs[i], sets, regs, act).Next? && ScanExpr(sets, r.exprs[i], st).ScanOn?
    ensures Recalls(r, i + 1, ScanExpr(sets, r.exprs[i], st).st.imm, StepExpr(pkt, r.exprs[i], sets, regs, act).regs)
  {
    var e, imm' := r.exprs[i], ScanExpr(sets, r.exprs[i], st).st.imm;
    var regs' := StepExpr(pkt, e, sets, regs, act).regs;
    OnlyDestinationChanges(pkt, e, sets, st, regs, act);
    forall k | k in imm'
      ensures k in regs' && imm'[k] == Hex(regs'[k])
      ensures exists j :: 0 <= j < i + 1 && r.exprs[j].Immediate? && r.exprs[j].register == k
    {
      if !(e.Immediate? && e.register == k) {
        var j :| 0 <= j < i && r.exprs[j].Immediate? && r.exprs[j].register == k;
        assert DestOf(e) != Some(k);
      }
    }
  }

  /** At the rewrite itself, scan and matcher read one address. */
  lemma {:induction false} RewriteReads(pkt: Packet, r: Rule, sets: seq<NftSet>, i: nat, st: ScanState, regs: Regs,
                                        act: Action)
    requires i < |r.exprs| && IsRewrite(r.exprs[i]) && Recalls(r, i, st.imm, regs)
    requires StepExpr(pkt, r.exprs[i], sets, regs, act).Next?
    ensures var s, next := StepExpr(pkt, r.exprs[i], sets, regs, act), ScanExpr(sets, r.exprs[i], st);
      next.ScanEmit? && s.act.Rewrite? && (next.target.addr.Some? ==> next.target.addr.value == s.act.target.ip)
  {
  }

  /** Where a rule rewrites once, the address the scan reads, if it reads one, is the one the
      packet gets. */
  lemma {:induction false} TargetIsRead(pkt: Packet, r: Rule, sets: seq<NftSet>, i: nat, st: ScanState, regs: Regs,
                                        act: Action)
    requires i <= |r.exprs| && OneRewrite(r) && Recalls(r, i, st.imm, regs) && !act.Rewrite?
    requires MatchFrom(pkt, r, sets, i, regs, act).0 == Match && MatchFrom(pkt, r, sets, i, regs, act).1.Rewrite?
    ensures var t := EmittedTarget(sets, r, i, st);
      t.Some? && t.value.addr.Some? ==> t.value.addr.value == MatchFrom(pkt, r, sets, i, regs, act).1.target.ip
    decreases |r.exprs| - i
  {
    var e := r.exprs[i];
    var s := StepExpr(pkt, e, sets, regs, act);
    ActionsComeFrom(pkt, e, sets, regs, act);
    if IsRewrite(e) {
      RewriteReads(pkt, r, sets, i, st, regs, act);
      RewriteStands(pkt, r, sets, i, i + 1, s.regs, s.act);
    } else {
      if ScanExpr(sets, e, st).ScanOn? {
        StepRecalls(pkt, r, sets, i, st, regs, act);
        TargetIsRead(pkt, r, sets, i + 1, ScanExpr(sets, e, st).st, s.regs, s.act);
      }
    }
  }

  lemma {:induction false} RewriteStands(pkt: Packet, r: Rule, sets: seq<NftSet>, w: nat, i: nat, regs: Regs,
                                         act: Action)
    requires OneRewrite(r) && w < i <= |r.exprs| && IsRewrite(r.exprs[w])
    ensures var out := MatchFrom(pkt, r, sets, i, regs, act);
      out.0 == Match && out.1.Rewrite? ==> out.1 == act
    decreases |r.exprs| - i
  {
    if i < |r.exprs| {
      var s := StepExpr(pkt, r.exprs[i], sets, regs, act);
      if s.Next? {
        ActionsComeFrom(pkt, r.exprs[i], sets, regs, act);
        RewriteStands(pkt, r, sets, w, i + 1, s.regs, s.act);
      }
    }
  }

  // ---- rows and notes -----------------------------------------------------------------------

  predicate RowFor(pkt: Packet, families: set<string>, row: FwdRow) {
    row.family in families && row.proto == pkt.proto && row.port == pkt.dstPort
  }

  predicate NoteFor(h: Hit, n: FwdNote) {
    n.table == h.table && n.chain == h.chain && n.handle == h.handle
  }

  /** The packet's port is reported in one of these families, or the rule that rewrote it is. */
  ghost predicate Reported(pkt: Packet, families: set<string>, h: Hit, f: Found) {
    (exists row :: row in f.rows && RowFor(pkt, families, row)) || (exists n :: n in f.notes && NoteFor(h, n))
  }

  lemma {:induction false} ReportedThen(pkt: Packet, fs: set<string>, h: Hit, f: Found, g: Found)
    requires Reported(pkt, fs, h, f) || Reported(pkt, fs, h, g)
    ensures Reported(pkt, fs, h, f.Then(g))
  {
    if row :| row in f.rows && RowFor(pkt, fs, row) {
      assert row in f.Then(g).rows;
    } else if n :| n in f.notes && NoteFor(h, n) {
      assert n in f.Then(g).notes;
    } else if row :| row in g.rows && RowFor(pkt, fs, row) {
      assert row in f.Then(g).rows;
    } else {
      var n :| n in g.notes && NoteFor(h, n);
      assert n in f.Then(g).notes;
    }
  }

  lemma {:induction false} PortRowListed(family: string, proto: string, ports: seq<Port>, t: FwdTarget, p: Port)
    requires p in ports
    ensures FwdRow(family, proto, p, t) in PortRows(family, proto, ports, t)
  {
    if ports[0] != p {
      PortRowListed(family, proto, ports[1..], t, p);
    }
  }

  lemma {:induction false} ProtoRowListed(family: string, protos: seq<string>, ports: seq<Port>, t: FwdTarget,
                                          proto: string, p: Port)
    requires proto in protos && p in ports
    ensures FwdRow(family, proto, p, t) in ProtoRows(family, protos, ports, t)
  {
    if protos[0] == proto {
      PortRowListed(family, proto, ports, t, p);
    } else {
      ProtoRowListed(family, protos[1..], ports, t, proto, p);
    }
  }

  lemma {:induction false} FamilyRowListed(families: seq<string>, protos: seq<string>, ports: seq<Port>, t: FwdTarget,
                                           family: string, proto: string, p: Port)
    requires family in families && proto in protos && p in ports
    ensures FwdRow(family, proto, p, t) in FamilyRows(families, protos, ports, t)
  {
    if families[0] == family {
      ProtoRowListed(family, protos, ports, t, proto, p);
    } else {
      FamilyRowListed(families[1..], protos, ports, t, family, proto, p);
    }
  }

  /** A rewrite has rows of the packet's family; in an inet table, one whose address fits the packet
      or is not known. */
  lemma {:induction false} EmitReports(pkt: Packet, fs: set<string>, table: Table, ch: Chain, r: Rule, m: FwdMatch,
                                       t: FwdTarget, h: Hit)
    requires PortPacket(pkt) && Satisfies(pkt, m) && Serves(table, pkt.family)
    requires fs == {"ip", "ip6"} ||
      (fs == {pkt.family} && (table.family == "inet" && t.addr.Some? ==> FitsFamily(pkt.family, t.addr.value)))
    requires h.table == table.name && h.chain == ch.name && h.handle == r.handle
    ensures Reported(pkt, fs, h, Emit(table, ch, r, m, t))
  {
    var f := Emit(table, ch, r, m, t);
    if m.refuse.Some? || m.ports == [] {
      assert f.notes[0] in f.notes && NoteFor(h, f.notes[0]);
    } else {
      var families := RowFamilies(table, t);
      var family := if pkt.family in families then pkt.family else families[0];
      FamilyRowListed(families, FwdProtos(m.proto), m.ports, t, family, pkt.proto, pkt.dstPort);
      assert RowFor(pkt, fs, FwdRow(family, pkt.proto, pkt.dstPort, t));
    }
  }

  // ---- the walk and the scan ------------------------------------------------------------------

  /** No other table that serves the family bears this table's name. */
  predicate OnlyTable(rs: Ruleset, family: string, table: Table) {
    table in rs.tables && Serves(table, family)
    && forall t :: t in rs.tables && t.name == table.name && Serves(t, family) ==> t == table
  }

  lemma {:induction false} OwnChains(tables: seq<Table>, family: string, table: Table, name: string)
    requires Serves(table, family)
    requires forall t :: t in tables && t.name == table.name && Serves(t, family) ==> t == table
    ensures FindChainIn(tables, family, table.name, name).Some? ==>
      FindChainIn(tables, family, table.name, name) == FindInChains(table.chains, name)
  {
    if tables != [] {
      OwnChains(tables[1..], family, table, name);
    }
  }

  lemma {:induction false} OwnSets(tables: seq<Table>, family: string, table: Table)
    requires table in tables && Serves(table, family)
    requires forall t :: t in tables && t.name == table.name && Serves(t, family) ==> t == table
    ensures TableSetsIn(tables, family, table.name) == table.sets
  {
    assert tables == [tables[0]] + tables[1..];
    if !(tables[0].name == table.name && Serves(tables[0], family)) {
      OwnSets(tables[1..], family, table);
    }
  }

  lemma {:induction false} OwnFamily(tables: seq<Table>, family: string, table: Table)
    requires table in tables && Serves(table, family)
    requires forall t :: t in tables && t.name == table.name && Serves(t, family) ==> t == table
    ensures TableFamilyIn(tables, family, table.name) == table.family
  {
    assert tables == [tables[0]] + tables[1..];
    if !(tables[0].name == table.name && Serves(tables[0], family)) {
      OwnFamily(tables[1..], family, table);
    }
  }

  /** The rule that rewrote the packet in this walk. */
  function Rewriter(w: Walk): Hit
    requires w.hits != []
  {
    w.hits[|w.hits| - 1]
  }

  /** What the scan owes to a walk that rewrote the packet. */
  ghost predicate CoversWalk(rs: Ruleset, pkt: Packet, w: Walk, f: Found) {
    w.result.Accepted? && w.result.dnat.Some? ==>
      && w.hits != []
      && Reported(pkt, RowFamiliesFor(rs, pkt, Rewriter(w), w.result.dnat.value), Rewriter(w), f)
  }

  lemma {:induction false} CoversAfter(rs: Ruleset, pkt: Packet, w: Walk, a: seq<Hit>, f: Found, g: Found)
    requires CoversWalk(rs, pkt, w, f) || CoversWalk(rs, pkt, w, g)
    ensures CoversWalk(rs, pkt, w.After(a), f.Then(g))
  {
    if w.result.Accepted? && w.result.dnat.Some? {
      ReportedThen(pkt, RowFamiliesFor(rs, pkt, Rewriter(w), w.result.dnat.value), Rewriter(w), f, g);
      assert Rewriter(w.After(a)) == Rewriter(w);
    }
  }

  lemma {:induction false} ScanCoversChain(rs: Ruleset, pkt: Packet, bound: nat, table: Table, ch: Chain, m: FwdMatch,
                                           depth: nat)
    requires PortPacket(pkt) && OnlyTable(rs, pkt.family, table) && ch in table.chains && Satisfies(pkt, m)
    requires PlainPath(rs, pkt, WalkChain(PacketContext(rs, pkt.family, bound, pkt), table.name, ch, depth).hits)
    ensures CoversWalk(rs, pkt, WalkChain(PacketContext(rs, pkt.family, bound, pkt), table.name, ch, depth),
      ScanChain(bound, table, ch, m, depth))
    decreases ScanLeft(bound, depth), |ch.rules| + 1
  {
    if depth <= bound {
      ScanCoversRules(rs, pkt, bound, table, ch, ch.rules, m, depth);
    }
  }

  lemma {:induction false} ScanCoversRules(rs: Ruleset, pkt: Packet, bound: nat, table: Table, ch: Chain,
                                           rules: seq<Rule>,
                                           m: FwdMatch, depth: nat)
    requires PortPacket(pkt) && OnlyTable(rs, pkt.family, table) && ch in table.chains && Satisfies(pkt, m)
    requires depth <= bound
    requires PlainPath(rs, pkt, WalkRules(PacketContext(rs, pkt.family, bound, pkt), table.name, ch, rules, depth).hits)
    ensures CoversWalk(rs, pkt, WalkRules(PacketContext(rs, pkt.family, bound, pkt), table.name, ch, rules, depth),
      ScanRules(bound, table, ch, rules, m, depth))
    decreases ScanLeft(bound, depth), |rules|
  {
    if rules != [] {
      var cx, r, rest := PacketContext(rs, pkt.family, bound, pkt), rules[0], rules[1..];
      var here := ScanRule(bound, table, ch, r, 0, ScanState(map[], map[], m), depth);
      var there := ScanRules(bound, table, ch, rest, m, depth);
      var later := WalkRules(cx, table.name, ch, rest, depth);
      match RuleEffect(cx, table.name, ch, r)
      case Pass(hits) =>
        ScanCoversRules(rs, pkt, bound, table, ch, rest, m, depth);
        CoversAfter(rs, pkt, later, hits, here, there);
      case Stop(result, hit) =>
        ScanCoversStop(rs, pkt, bound, table, ch, r, m, depth);
        CoversAfter(rs, pkt, Walk(result, [hit]), [], here, there);
        assert [] + [hit] == [hit];
      case Enter(target, isGoto, hit) =>
        EnterPath(rs, pkt, cx, table.name, ch, rules, depth);
        var m' := ScanEnters(rs, pkt, bound, table, ch, r, m, depth);
        ScanCoversChain(rs, pkt, bound, table, target, m', depth + 1);
        if WalkChain(cx, table.name, target, depth + 1).result.FellOff? && !isGoto {
          ScanCoversRules(rs, pkt, bound, table, ch, rest, m, depth);
        }
        EnterCovers(rs, pkt, cx, table.name, ch, rules, depth, here, there);
    }
  }

  /** The path of a walk that enters a chain holds the rule, that chain's path, and, when it
      comes back, the rest. */
  lemma {:induction false} EnterPath(rs: Ruleset, pkt: Packet, cx: Context, table: string, ch: Chain, rules: seq<Rule>,
                                     depth: nat)
    requires depth <= cx.bound && rules != [] && RuleEffect(cx, table, ch, rules[0]).Enter?
    requires PlainPath(rs, pkt, WalkRules(cx, table, ch, rules, depth).hits)
    ensures var e := RuleEffect(cx, table, ch, rules[0]);
      var sub := WalkChain(cx, table, e.target, depth + 1);
      && PlainPath(rs, pkt, [e.hit]) && PlainPath(rs, pkt, sub.hits)
      && (sub.result.FellOff? && !e.isGoto ==> PlainPath(rs, pkt, WalkRules(cx, table, ch, rules[1..], depth).hits))
  {
    EnterUnfolds(cx, table, ch, rules, depth);
    var e := RuleEffect(cx, table, ch, rules[0]);
    var hits, sub := WalkRules(cx, table, ch, rules, depth).hits, WalkChain(cx, table, e.target, depth + 1);
    assert forall h :: h in [e.hit] || h in sub.hits ==> h in [e.hit] + sub.hits;
    assert forall h :: h in [e.hit] + sub.hits ==> h in hits;
  }

  lemma {:induction false} EnterCovers(rs: Ruleset, pkt: Packet, cx: Context, table: string, ch: Chain,
                                       rules: seq<Rule>, depth: nat, f: Found, g: Found)
    requires depth <= cx.bound && rules != [] && RuleEffect(cx, table, ch, rules[0]).Enter?
    requires var e := RuleEffect(cx, table, ch, rules[0]);
      var sub := WalkChain(cx, table, e.target, depth + 1);
      && CoversWalk(rs, pkt, sub, f)
      && (sub.result.FellOff? && !e.isGoto ==> CoversWalk(rs, pkt, WalkRules(cx, table, ch, rules[1..], depth), g))
    ensures CoversWalk(rs, pkt, WalkRules(cx, table, ch, rules, depth), f.Then(g))
  {
    EnterUnfolds(cx, table, ch, rules, depth);
    var e := RuleEffect(cx, table, ch, rules[0]);
    var sub := WalkChain(cx, table, e.target, depth + 1);
    CoversAfter(rs, pkt, sub, [e.hit], f, g);
    if sub.result.FellOff? && !e.isGoto {
      CoversAfter(rs, pkt, WalkRules(cx, table, ch, rules[1..], depth), [e.hit] + sub.hits, f, g);
    }
  }

  /** A rule that ends the chain with a rewrite is covered by what the scan emits for it. */
  lemma {:induction false} ScanCoversStop(rs: Ruleset, pkt: Packet, bound: nat, table: Table, ch: Chain, r: Rule,
                                          m: FwdMatch, depth: nat)
    requires PortPacket(pkt) && OnlyTable(rs, pkt.family, table) && ch in table.chains && Satisfies(pkt, m)
    requires depth <= bound
    requires RuleEffect(PacketContext(rs, pkt.family, bound, pkt), table.name, ch, r).Stop?
    requires PlainPath(rs, pkt, [RuleEffect(PacketContext(rs, pkt.family, bound, pkt), table.name, ch, r).hit])
    ensures var e := RuleEffect(PacketContext(rs, pkt.family, bound, pkt), table.name, ch, r);
      CoversWalk(rs, pkt, Walk(e.result, [e.hit]), ScanRule(bound, table, ch, r, 0, ScanState(map[], map[], m), depth))
  {
    var cx := PacketContext(rs, pkt.family, bound, pkt);
    var e := RuleEffect(cx, table.name, ch, r);
    OwnSets(rs.tables, pkt.family, table);
    OwnFamily(rs.tables, pkt.family, table);
    assert cx.matcher(table.name, ch, r) == MatchRule(pkt, r, table.sets);
    if e.result.Accepted? && e.result.dnat.Some? {
      var st := ScanState(map[], map[], m);
      StopRewrites(cx, table.name, ch, r);
      assert ActsAt(rs, pkt, e.hit.table, e.hit.rule);
      var m', t := RewriteIsEmitted(pkt, bound, table, ch, r, 0, st, map[], NoAction, depth);
      if OneRewrite(r) {
        TargetIsRead(pkt, r, table.sets, 0, st, map[], NoAction);
      }
      EmitReports(pkt, RowFamiliesFor(rs, pkt, e.hit, e.result.dnat.value), table, ch, r, m', t, e.hit);
    }
  }

  lemma {:induction false} StopRewrites(cx: Context, table: string, ch: Chain, r: Rule)
    requires RuleEffect(cx, table, ch, r).Stop?
    ensures var e := RuleEffect(cx, table, ch, r);
      && e.hit.table == table && e.hit.chain == ch.name && e.hit.handle == r.handle && e.hit.rule == r
      && (e.result.Accepted? && e.result.dnat.Some? ==>
        cx.matcher(table, ch, r) == (Match, Rewrite(e.result.dnat.value)))
  {
  }

  /** A rule that enters a chain is followed by the scan into the same chain. */
  lemma {:induction false} ScanEnters(rs: Ruleset, pkt: Packet, bound: nat, table: Table, ch: Chain, r: Rule,
                                      m: FwdMatch, depth: nat) returns (m': FwdMatch)
    requires PortPacket(pkt) && OnlyTable(rs, pkt.family, table) && ch in table.chains && Satisfies(pkt, m)
    requires depth <= bound
    requires RuleEffect(PacketContext(rs, pkt.family, bound, pkt), table.name, ch, r).Enter?
    requires PlainPath(rs, pkt, [RuleEffect(PacketContext(rs, pkt.family, bound, pkt), table.name, ch, r).hit])
    ensures var target := RuleEffect(PacketContext(rs, pkt.family, bound, pkt), table.name, ch, r).target;
      && target in table.chains && Satisfies(pkt, m')
      && ScanRule(bound, table, ch, r, 0, ScanState(map[], map[], m), depth) ==
        ScanChain(bound, table, target, m', depth + 1)
  {
    var cx := PacketContext(rs, pkt.family, bound, pkt);
    OwnSets(rs.tables, pkt.family, table);
    assert cx.matcher(table.name, ch, r) == MatchRule(pkt, r, table.sets);
    EnterTransfers(cx, table.name, ch, r);
    var hit := RuleEffect(cx, table.name, ch, r).hit;
    assert hit.rule == r && hit.table == table.name && ActsAt(rs, pkt, hit.table, hit.rule);
    var name := cx.matcher(table.name, ch, r).1.verdict.chain;
    OwnChains(rs.tables, pkt.family, table, name);
    FoundInChains(table.chains, name);
    m' := TransferIsFollowed(pkt, bound, table, ch, r, 0, ScanState(map[], map[], m), map[], NoAction, depth);
  }

  lemma {:induction false} EnterTransfers(cx: Context, table: string, ch: Chain, r: Rule)
    requires RuleEffect(cx, table, ch, r).Enter?
    ensures var (out, act) := cx.matcher(table, ch, r);
      out == Match && Transfers(act) && FindChain(cx, table, act.verdict.chain) ==
        Some(RuleEffect(cx, table, ch, r).target)
  {
  }

  // ---- whole rulesets ---------------------------------------------------------------------------

  lemma {:induction false} ScanCoversBase(bound: nat, table: Table, chains: seq<Chain>, ch: Chain, pkt: Packet,
                                          fs: set<string>, h: Hit)
    requires ch in chains && ch.base && ch.hook == "prerouting"
    requires Reported(pkt, fs, h, ScanChain(bound, table, ch, NO_CONSTRAINT, 0))
    ensures Reported(pkt, fs, h, ScanBases(bound, table, chains))
  {
    var here :=
      if chains[0].base && chains[0].hook == "prerouting" then ScanChain(bound, table, chains[0], NO_CONSTRAINT, 0)
      else NOTHING;
    if chains[0] != ch {
      ScanCoversBase(bound, table, chains[1..], ch, pkt, fs, h);
    }
    ReportedThen(pkt, fs, h, here, ScanBases(bound, table, chains[1..]));
  }

  lemma {:induction false} ScanCoversTable(bound: nat, tables: seq<Table>, table: Table, pkt: Packet, fs: set<string>,
                                           h: Hit)
    requires table in tables && TableFamilies(table.family) != []
    requires Reported(pkt, fs, h, ScanBases(bound, table, table.chains))
    ensures Reported(pkt, fs, h, ScanTables(bound, tables))
  {
    var here :=
      if TableFamilies(tables[0].family) == [] then NOTHING else ScanBases(bound, tables[0], tables[0].chains);
    if tables[0] != table {
      ScanCoversTable(bound, tables[1..], table, pkt, fs, h);
    }
    ReportedThen(pkt, fs, h, here, ScanTables(bound, tables[1..]));
  }

  lemma {:induction false} RowsAreKept(kept: seq<FwdRow>, rows: seq<FwdRow>, row: FwdRow)
    requires row in rows || exists k :: k in kept && SameRow(k, row)
    ensures exists k :: k in AddRows(kept, rows) && SameRow(k, row)
    decreases |rows|
  {
    if rows != [] {
      if exists k :: k in kept && SameRow(k, rows[0]) {
        RowsAreKept(kept, rows[1..], row);
      } else {
        var more := kept + [rows[0]];
        assert rows[0] in more && SameRow(rows[0], rows[0]);
        if k :| k in kept && SameRow(k, row) {
          assert k in more;
        }
        RowsAreKept(more, rows[1..], row);
      }
    }
  }

  lemma {:induction false} NotesAreKept(kept: seq<FwdNote>, notes: seq<FwdNote>, n: FwdNote)
    requires n in notes || n in kept
    ensures n in AddNotes(kept, notes)
    decreases |notes|
  {
    if notes != [] {
      NotesAreKept(if notes[0] in kept then kept else kept + [notes[0]], notes[1..], n);
    }
  }

  lemma {:induction false} ReportsAreKept(bound: nat, rs: Ruleset, pkt: Packet, fs: set<string>, h: Hit)
    requires Reported(pkt, fs, h, ScanTables(bound, rs.tables))
    ensures Reported(pkt, fs, h, ForwardRows(bound, rs))
  {
    var all := ScanTables(bound, rs.tables);
    if row :| row in all.rows && RowFor(pkt, fs, row) {
      RowsAreKept([], all.rows, row);
      var k :| k in AddRows([], all.rows) && SameRow(k, row);
      assert RowFor(pkt, fs, k) && k in ForwardRows(bound, rs).rows;
    } else {
      var n :| n in all.notes && NoteFor(h, n);
      NotesAreKept([], all.notes, n);
      assert n in ForwardRows(bound, rs).notes;
    }
  }

  /** Tables that serve the family have distinct names. */
  predicate DistinctTables(rs: Ruleset, family: string) {
    forall t :: t in rs.tables && Serves(t, family) ==> OnlyTable(rs, family, t)
  }

  /** What the scan of one base chain reports is in the result. */
  lemma {:induction false} ReportReaches(bound: nat, rs: Ruleset, table: Table, ch: Chain, pkt: Packet,
                                         fs: set<string>, h: Hit)
    requires table in rs.tables && TableFamilies(table.family) != []
    requires ch in table.chains && ch.base && ch.hook == "prerouting"
    requires Reported(pkt, fs, h, ScanChain(bound, table, ch, NO_CONSTRAINT, 0))
    ensures Reported(pkt, fs, h, ForwardRows(bound, rs))
  {
    ScanCoversBase(bound, table, table.chains, ch, pkt, fs, h);
    ScanCoversTable(bound, rs.tables, table, pkt, fs, h);
    ReportsAreKept(bound, rs, pkt, fs, h);
  }

  lemma {:induction false} BaseIsReported(rs: Ruleset, pkt: Packet, bound: nat, b: BaseChain)
    requires PortPacket(pkt) && DistinctTables(rs, pkt.family) && b in Bases(rs, pkt.family, "prerouting")
    requires PlainPath(rs, pkt, WalkChain(PacketContext(rs, pkt.family, bound, pkt), b.table, b.chain, 0).hits)
    ensures var w := WalkChain(PacketContext(rs, pkt.family, bound, pkt), b.table, b.chain, 0);
      CoversWalk(rs, pkt, w, ForwardRows(bound, rs))
  {
    var q, p := (t: Table) => Serves(t, pkt.family), (ch: Chain) => ch.base && ch.hook == "prerouting";
    var on := OnHook(rs, pkt.family, "prerouting");
    SortPermutes(on, BaseLe);
    SameMembers(Sort(on, BaseLe), on);
    TablesWhereMembers(rs.tables, q, p, b);
    var table :| table in rs.tables && FromTable(table, q, p, b);
    var w := WalkChain(PacketContext(rs, pkt.family, bound, pkt), b.table, b.chain, 0);
    ScanCoversChain(rs, pkt, bound, table, b.chain, NO_CONSTRAINT, 0);
    if w.result.Accepted? && w.result.dnat.Some? {
      var fs := RowFamiliesFor(rs, pkt, Rewriter(w), w.result.dnat.value);
      ReportReaches(bound, rs, table, b.chain, pkt, fs, Rewriter(w));
    }
  }

  /** The last rewrite of a walk over base chains is reported. */
  ghost predicate LastIsReported(rs: Ruleset, pkt: Packet, bound: nat, w: Walk) {
    w.result.Accepted? && w.result.dnat.Some? && LastDnat(w.hits).Some? ==>
      var h := LastDnat(w.hits).value;
      Reported(pkt, RowFamiliesFor(rs, pkt, h, w.result.dnat.value), h, ForwardRows(bound, rs))
  }

  /** The last rewrite is that of the later chains, or of this one when they make none. */
  lemma {:induction false} LastOfBoth(rs: Ruleset, pkt: Packet, bound: nat, w: Walk, rest: Walk, dnat: Option<Target>)
    requires w.result.Accepted? && Tells(rs, pkt.family, pkt, w) && CoversWalk(rs, pkt, w, ForwardRows(bound, rs))
    requires LastIsReported(rs, pkt, bound, rest)
    requires BasesTellWalk(rs, pkt.family, pkt, rest, LastRewrite(w.result, dnat))
    ensures LastIsReported(rs, pkt, bound, rest.After(w.hits))
  {
    LastDnatOf(w.hits, rest.hits);
    LastDnatOf([], w.hits);
    assert [] + w.hits == w.hits;
  }

  lemma {:induction false} BasesAreReported(rs: Ruleset, pkt: Packet, bound: nat, bases: seq<BaseChain>,
                                            dnat: Option<Target>)
    requires PortPacket(pkt) && DistinctTables(rs, pkt.family)
    requires forall b :: b in bases ==> b in Bases(rs, pkt.family, "prerouting")
    requires PlainPath(rs, pkt, WalkBases(PacketContext(rs, pkt.family, bound, pkt), bases, dnat).hits)
    ensures LastIsReported(rs, pkt, bound, WalkBases(PacketContext(rs, pkt.family, bound, pkt), bases, dnat))
  {
    var cx := PacketContext(rs, pkt.family, bound, pkt);
    if bases != [] {
      var w := WalkChain(cx, bases[0].table, bases[0].chain, 0);
      if w.result.Accepted? {
        var d := LastRewrite(w.result, dnat);
        var rest := WalkBases(cx, bases[1..], d);
        assert forall h :: h in w.hits || h in rest.hits ==> h in w.hits + rest.hits;
        BaseIsReported(rs, pkt, bound, bases[0]);
        ChainTells(rs, pkt.family, pkt, bound, bases[0].table, bases[0].chain, 0);
        BasesAreReported(rs, pkt, bound, bases[1..], d);
        BasesTell(rs, pkt.family, pkt, bound, bases[1..], d);
        LastOfBoth(rs, pkt, bound, w, rest, dnat);
      }
    }
  }

  /** No silent forward: when the prerouting hook accepts a tcp or udp packet with a rewrite, the
      scan has a row with the packet's protocol and destination port, or a note for the very rule
      that rewrote it. The row is of the packet's own family; in an inet table, when the new address
      fits it and the rule names it once. */
  lemma {:induction false} NoSilentForward(rs: Ruleset, pkt: Packet, bound: nat)
    requires PortPacket(pkt) && DistinctTables(rs, pkt.family)
    requires var w := Traverse(PacketContext(rs, pkt.family, bound, pkt), "prerouting", pkt);
      w.result.Accepted? && w.result.dnat.Some? && PlainPath(rs, pkt, w.hits)
    ensures var w := Traverse(PacketContext(rs, pkt.family, bound, pkt), "prerouting", pkt);
      && LastDnat(w.hits).Some?
      && var h := LastDnat(w.hits).value;
         Reported(pkt, RowFamiliesFor(rs, pkt, h, w.result.dnat.value), h, ForwardRows(bound, rs))
  {
    BasesAreReported(rs, pkt, bound, Bases(rs, pkt.family, "prerouting"), None);
    PathTellsVerdict(rs, pkt.family, "prerouting", pkt, bound);
  }
}
