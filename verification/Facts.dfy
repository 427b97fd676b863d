/** The snapshot vocabulary: rulesets as collected, and the synthetic packet pushed through
    them. Text that the source decodes while it evaluates (hexadecimal operands, addresses)
    appears as what the decoder makes of it. Every rule is one `Validate` let through, so an
    expression carries the object its kind promises. */
module Facts {
  import opened Wrappers
  import opened Bytes

  type Port = x: int | 0 <= x < 65536

  /** An address as its byte string: 4 bytes, 16 bytes, or not an address at all. */
  datatype IpAddr = IpAddr(bytes: Bytes) {
    predicate IsValid() {
      |bytes| == 4 || |bytes| == 16
    }

    predicate Is4() {
      |bytes| == 4
    }

    predicate Is6() {
      |bytes| == 16
    }

    predicate Is4In6() {
      |bytes| == 16 && bytes[..12] == Zeros(10) + [255, 255]
    }

    function Unmap(): IpAddr {
      if Is4In6() then IpAddr(bytes[12..]) else this
    }
  }

  /** `netip.AddrFromSlice`. */
  function AddrFromSlice(b: Bytes): Option<IpAddr> {
    if |b| == 4 || |b| == 16 then Some(IpAddr(b)) else None
  }

  /** A resolved rewrite target. */
  datatype Target = Target(ip: IpAddr, port: Port)

  // ---- expressions -------------------------------------------------------

  datatype PayloadBase = Link | Network | Transport | OtherBase

  datatype MetaKey = Iifname | Oifname | Iif | Oif | L4proto | Nfproto | Skuid | Skgid | OtherMeta

  datatype CtKey = CtState | CtStatus | OtherCt

  datatype CmpOp = Eq | Neq | Lt | Lte | Gt | Gte | OtherOp

  datatype FibQuery = FibAddrType | FibOifPresent | OtherFib

  datatype FibSource = Saddr | Daddr | OtherSource

  datatype NatType = DestinationNat | OtherNat

  datatype VerdictKind =
    | Accept
    | Drop
    | Reject
    | Return
    | Jump(chain: string)
    | Goto(chain: string)
    | Continue
    | OtherVerdict(name: string)

  datatype XtKind = XtMatch | XtTarget | XtOtherKind

  datatype XtName =
    | XtDnat
    | XtReject
    | XtLog
    | XtMasquerade
    | XtConntrack
    | XtAddrType
    | XtRecent
    | XtIcmp
    | XtIcmp6
    | XtRt
    | XtHl
    | XtOtherName(text: string)

  /** The address is `None` when its text does not parse. */
  datatype DnatInfo = DnatInfo(minIp: Option<IpAddr>, minPort: Port)

  datatype ConntrackInfo = ConntrackInfo(matchesState: bool, states: seq<string>, invert: bool)

  datatype AddrTypeInfo = AddrTypeInfo(
    destTypes: seq<string>, sourceTypes: seq<string>, invertDest: bool, invertSource: bool)

  datatype RecentInfo = RecentInfo(mode: string, invert: bool)

  datatype XtExpr = XtExpr(
    kind: XtKind,
    name: XtName,
    decoded: bool,
    dnat: Option<DnatInfo>,
    conntrack: Option<ConntrackInfo>,
    addrType: Option<AddrTypeInfo>,
    recent: Option<RecentInfo>)

  datatype Expr =
    | Payload(destRegister: nat, base: PayloadBase, offset: nat, len: nat)
    | Cmp(op: CmpOp, register: nat, data: Hex)
    | Meta(metaKey: MetaKey, register: nat)
    | Bitwise(sourceRegister: nat, destRegister: nat, mask: Hex, xor: Hex)
    | Ct(ctKey: CtKey, register: nat)
    | Lookup(sourceRegister: nat, set_: string, setId: nat, invert: bool, isDestRegSet: bool)
    | Range(op: CmpOp, register: nat, from: Hex, to: Hex)
    | Fib(query: FibQuery, register: nat, source: FibSource, matchesIface: bool)
    | Immediate(register: nat, data: Hex)
    | Nat(natType: NatType, addrRegister: nat, protoRegister: nat)
    | Verdict(verdict: VerdictKind)
    | Xt(xt: XtExpr)
    | Transparent  // a counter, log or limit
    | Undecoded    // no decoder for it
    | Later        // a kind from a newer document

  datatype Rule = Rule(handle: nat, exprs: seq<Expr>)

  // ---- sets, chains, tables ----------------------------------------------

  datatype SetElement = SetElement(key: Hex, hasVal: bool, hasKeyEnd: bool, intervalEnd: bool)

  datatype NftSet = NftSet(
    name: string, id: nat, interval: bool, isMap: bool, concatenation: bool, elements: seq<SetElement>)

  datatype Policy = PolicyAccept | PolicyDrop | OtherPolicy(text: string)

  datatype Chain = Chain(
    name: string,
    base: bool,
    hook: string,
    priority: int,
    devices: seq<string>,
    policy: Policy,
    rules: seq<Rule>)

  datatype Table = Table(family: string, name: string, chains: seq<Chain>, sets: seq<NftSet>)

  datatype Ruleset = Ruleset(tables: seq<Table>, readFailed: bool)

  // ---- the packet ---------------------------------------------------------

  datatype Packet = Packet(
    family: string,
    proto: string,
    src: IpAddr,
    dst: IpAddr,
    srcPort: Port,
    dstPort: Port,
    inIface: string,
    outIface: string,
    ctState: string,
    dstIsLocal: bool,
    dnatApplied: bool,
    srcRouteDev: string,
    inIfaceIndex: nat,
    outIfaceIndex: nat)

  /** What a matching rule does. */
  datatype Action = NoAction | Does(verdict: VerdictKind) | Rewrite(target: Target)

  datatype Outcome = Match | NoMatch | Unknown | Skipped
}
