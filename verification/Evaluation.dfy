/** One verdict per endpoint and address family: which addresses are tried, which hooks are
    walked with which packet, and which answer wins. */
module Evaluation {
  import opened Wrappers
  import opened Facts
  import opened Sorting
  import opened Traversal
  import opened Forwards
  import opened Routes
  import opened Walkers

  // ---- the host -------------------------------------------------------------------------

  /** An interface address; `None` when its text does not parse. */
  datatype Address = Address(ip: Option<IpAddr>, prefix: int, family: string, scope: string)

  datatype Interface = Interface(
    name: string, index: int, up: bool, addresses: seq<Address>, ipv4Forwarding: bool, ipv6Forwarding: bool)

  datatype Sysctls = Sysctls(ipv4Forward: bool, ipv6Forward: bool, bindV6Only: bool)

  datatype Host = Host(interfaces: seq<Interface>, sysctls: Sysctls, routes: seq<Route>)

  datatype Socket = Socket(family: string, proto: string, bindIp: string, port: Port, owner: string)

  datatype Publish = Publish(hostIp: string, hostPort: Port, proto: string)

  datatype Container = Container(name: string, publishes: seq<Publish>)

  /** The snapshot. `parse` is the library's address parser. */
  datatype Snapshot = Snapshot(
    host: Host,
    sockets: seq<Socket>,
    ruleset: Ruleset,
    containers: seq<Container>,
    parse: string -> Option<IpAddr>)

  datatype Zone = Zone(src4: IpAddr, src6: IpAddr)

  // ---- verdicts --------------------------------------------------------------------------

  datatype Owner = Named(name: string) | ForwardedTo(target: FwdTarget)

  datatype Endpoint = Endpoint(kind: string, family: string, proto: string, bindIp: string, port: Port, owner: Owner)

  datatype Answer = Reachable | Filtered | Undecided

  datatype Why =
    | RulesetUnread
    | NoPublicAddress(family: string)
    | BindNotCovered(bindIp: string)
    | HookSays(reason: Reason)
    | NothingRewrites(ip: IpAddr)
    | NotForwarding(ip: IpAddr, target: Target)
    | NoInterfaceFor(target: Target)
    | ViaRewrite(ip: IpAddr, target: Target, hook: string, unseen: bool)
    | ViaLocal(ip: IpAddr)

  datatype Row = Row(endpoint: Endpoint, family: string, answer: Answer, why: Why, path: seq<Hit>, dnat: Option<Target>)

  /** A public address and the interface it lives on. */
  datatype Candidate = Candidate(ip: IpAddr, iface: string)

  // ---- looking at the host -----------------------------------------------------------------

  function AddressesOf(name: string, addresses: seq<Address>, family: string): seq<Candidate> {
    if addresses == [] then []
    else
      var a := addresses[0];
      (if a.family == family && a.scope == "global" && a.ip.Some? then [Candidate(a.ip.value, name)] else [])
      + AddressesOf(name, addresses[1..], family)
  }

  /** Every global unicast address of the family on an interface that is up, in order. */
  function PublicAddrs(interfaces: seq<Interface>, family: string): seq<Candidate> {
    if interfaces == [] then []
    else
      (if interfaces[0].up then AddressesOf(interfaces[0].name, interfaces[0].addresses, family) else [])
      + PublicAddrs(interfaces[1..], family)
  }

  predicate IsLocal(h: Host, ip: IpAddr) {
    exists i, a :: i in h.interfaces && a in i.addresses && i.up && a.ip == Some(ip)
  }

  function IfaceIndexIn(interfaces: seq<Interface>, name: string): nat {
    if interfaces == [] then 0
    else if interfaces[0].name == name && interfaces[0].index > 0 then interfaces[0].index
    else IfaceIndexIn(interfaces[1..], name)
  }

  function IfaceIndex(h: Host, name: string): nat {
    if name == "" then 0 else IfaceIndexIn(h.interfaces, name)
  }

  predicate OnSubnet(i: Interface, ip: IpAddr) {
    i.up && exists a :: a in i.addresses && a.ip.Some? && PrefixContains(a.ip.value, a.prefix, ip)
  }

  /** The first interface whose subnet contains the address. */
  function IfaceFor(interfaces: seq<Interface>, ip: IpAddr): Option<string> {
    if interfaces == [] then None
    else if OnSubnet(interfaces[0], ip) then Some(interfaces[0].name)
    else IfaceFor(interfaces[1..], ip)
  }

  predicate ForwardsFamily(i: Interface, family: string) {
    if family == "ip6" then i.ipv6Forwarding else i.ipv4Forwarding
  }

  /** Forwarding is on for the packet when the global toggle is, or that of its own interface. */
  predicate Forwarding(h: Host, iface: string, family: string) {
    (if family == "ip6" then h.sysctls.ipv6Forward else h.sysctls.ipv4Forward)
    || (iface != "" && exists i :: i in h.interfaces && i.name == iface && ForwardsFamily(i, family))
  }

  predicate BindCovers(f: Snapshot, bindIp: string, dst: IpAddr) {
    bindIp in {"0.0.0.0", "::", "[::]", ""}
    || var ip := f.parse(bindIp);
       ip.Some? && (ip.value == dst || ip.value.Unmap() == dst.Unmap())
  }

  // ---- one address ----------------------------------------------------------------------------

  /** The packet the zone sends to this endpoint at this address. */
  function FirstPacket(f: Snapshot, zone: Zone, ep: Endpoint, family: string, c: Candidate): Packet {
    var src := if family == "ip6" then zone.src6 else zone.src4;
    Packet(family, ep.proto, src, c.ip, 41234, ep.port, c.iface, "", "new", true, false,
      RouteDev(f.host.routes, src), IfaceIndex(f.host, c.iface), 0)
  }

  /** The packet after the rewrite, and the hook that decides it. */
  function Rewritten(f: Snapshot, pkt: Packet, t: Target): Packet {
    pkt.(dst := t.ip, dstPort := t.port, dstIsLocal := IsLocal(f.host, t.ip), dnatApplied := true)
  }

  function Routed(f: Snapshot, pkt: Packet, outIface: string): Packet {
    pkt.(outIface := outIface, outIfaceIndex := IfaceIndex(f.host, outIface))
  }

  function Hook(f: Snapshot, family: string, bound: nat, hook: string, pkt: Packet): Walk {
    Traverse(PacketContext(f.ruleset, family, bound, pkt), hook, pkt)
  }

  function Finish(ep: Endpoint, family: string, path: seq<Hit>, dnat: Option<Target>, w: Walk, how: Why): (row: Row)
    ensures row.endpoint == ep && row.family == family
  {
    match w.result
    case Accepted(_) => Row(ep, family, Reachable, how, path + w.hits, dnat)
    case Dropped(reason) => Row(ep, family, Filtered, HookSays(reason), path + w.hits, dnat)
    case Unresolved(reason) => Row(ep, family, Undecided, HookSays(reason), path + w.hits, dnat)
    case _ => Row(ep, family, Undecided, HookSays(UnexpectedVerdict("", "")), path + w.hits, dnat)
  }

  function AfterRewrite(f: Snapshot, ep: Endpoint, family: string, bound: nat, c: Candidate, pkt: Packet, t: Target,
                        path: seq<Hit>): (row: Row)
    ensures row.endpoint == ep && row.family == family
  {
    var pkt1 := Rewritten(f, pkt, t);
    if pkt1.dstIsLocal then
      Finish(ep, family, path, Some(t), Hook(f, family, bound, "input", pkt1), ViaRewrite(c.ip, t, "input", false))
    else if !Forwarding(f.host, c.iface, family) then
      Row(ep, family, Filtered, NotForwarding(c.ip, t), path, Some(t))
    else
      var out := IfaceFor(f.host.interfaces, t.ip);
      if out.None? then Row(ep, family, Undecided, NoInterfaceFor(t), path, Some(t))
      else
        Finish(ep, family, path, Some(t), Hook(f, family, bound, "forward", Routed(f, pkt1, out.value)),
          ViaRewrite(c.ip, t, "forward", ep.kind == "forward"))
  }

  function AtDestination(f: Snapshot, zone: Zone, ep: Endpoint, family: string, bound: nat, c: Candidate): (row: Row)
    ensures row.endpoint == ep && row.family == family
  {
    var pkt := FirstPacket(f, zone, ep, family, c);
    var pre := Hook(f, family, bound, "prerouting", pkt);
    match pre.result
    case Dropped(reason) => Row(ep, family, Filtered, HookSays(reason), pre.hits, None)
    case Accepted(Some(t)) => AfterRewrite(f, ep, family, bound, c, pkt, t, pre.hits)
    case Accepted(None) =>
      if ep.kind == "forward" then Row(ep, family, Filtered, NothingRewrites(c.ip), pre.hits, None)
      else Finish(ep, family, pre.hits, None, Hook(f, family, bound, "input", pkt), ViaLocal(c.ip))
    case Unresolved(reason) => Row(ep, family, Undecided, HookSays(reason), pre.hits, None)
    case _ => Row(ep, family, Undecided, HookSays(UnexpectedVerdict("", "")), pre.hits, None)
  }

  /** The packet's fields are rewritten in place between the two hooks. */
  method EvaluateAtDestination(f: Snapshot, zone: Zone, ep: Endpoint, family: string, bound: nat, c: Candidate)
    returns (row: Row)
    ensures row == AtDestination(f, zone, ep, family, bound, c)
  {
    var pkt := FirstPacket(f, zone, ep, family, c);
    var pre := TraverseHook(f.ruleset, family, "prerouting", pkt, bound);
    if pre.result.Unresolved? {
      return Row(ep, family, Undecided, HookSays(pre.result.reason), pre.hits, None);
    }
    if pre.result.Dropped? {
      return Row(ep, family, Filtered, HookSays(pre.result.reason), pre.hits, None);
    }
    if !pre.result.Accepted? {
      return Row(ep, family, Undecided, HookSays(UnexpectedVerdict("", "")), pre.hits, None);
    }
    if pre.result.dnat.None? {
      if ep.kind == "forward" {
        return Row(ep, family, Filtered, NothingRewrites(c.ip), pre.hits, None);
      }
      var local := TraverseHook(f.ruleset, family, "input", pkt, bound);
      return Finish(ep, family, pre.hits, None, local, ViaLocal(c.ip));
    }
    var t := pre.result.dnat.value;
    pkt := pkt.(dst := t.ip, dstPort := t.port, dstIsLocal := IsLocal(f.host, t.ip), dnatApplied := true);
    var hook := "forward";
    if pkt.dstIsLocal {
      hook := "input";
    } else {
      if !Forwarding(f.host, c.iface, family) {
        return Row(ep, family, Filtered, NotForwarding(c.ip, t), pre.hits, Some(t));
      }
      var out := IfaceFor(f.host.interfaces, t.ip);
      if out.None? {
        return Row(ep, family, Undecided, NoInterfaceFor(t), pre.hits, Some(t));
      }
      pkt := pkt.(outIface := out.value, outIfaceIndex := IfaceIndex(f.host, out.value));
    }
    var res := TraverseHook(f.ruleset, family, hook, pkt, bound);
    row := Finish(ep, family, pre.hits, Some(t), res,
      ViaRewrite(c.ip, t, hook, ep.kind == "forward" && !pkt.dstIsLocal));
  }

  // ---- all addresses of an endpoint -------------------------------------------------------------

  function Rank(a: Answer): nat {
    match a
    case Reachable => 2
    case Undecided => 1
    case Filtered => 0
  }

  function Covered(f: Snapshot, ep: Endpoint, cs: seq<Candidate>): seq<Candidate> {
    if cs == [] then []
    else (if BindCovers(f, ep.bindIp, cs[0].ip) then [cs[0]] else []) + Covered(f, ep, cs[1..])
  }

  /** The strongest answer, the first among equals. */
  function Best(f: Snapshot, zone: Zone, ep: Endpoint, family: string, bound: nat, best: Row, cs: seq<Candidate>): Row
    decreases |cs|
  {
    if cs == [] then best
    else
      var r := AtDestination(f, zone, ep, family, bound, cs[0]);
      Best(f, zone, ep, family, bound, if Rank(r.answer) > Rank(best.answer) then r else best, cs[1..])
  }

  function EvaluateOne(f: Snapshot, zone: Zone, ep: Endpoint, family: string, bound: nat): Row {
    var all := PublicAddrs(f.host.interfaces, family);
    var cs := Covered(f, ep, all);
    if all == [] then Row(ep, family, Undecided, NoPublicAddress(family), [], None)
    else if cs == [] then Row(ep, family, Filtered, BindNotCovered(ep.bindIp), [], None)
    else Best(f, zone, ep, family, bound, AtDestination(f, zone, ep, family, bound, cs[0]), cs[1..])
  }

  method EvaluateEndpoint(f: Snapshot, zone: Zone, ep: Endpoint, family: string, bound: nat) returns (row: Row)
    ensures row == EvaluateOne(f, zone, ep, family, bound)
  {
    var all := PublicAddrs(f.host.interfaces, family);
    if all == [] {
      return Row(ep, family, Undecided, NoPublicAddress(family), [], None);
    }
    var best: Option<Row> := None;
    assert all[0..] == all;
    for i := 0 to |all|
      invariant match best
        case None => Covered(f, ep, all[i..]) == Covered(f, ep, all)
        case Some(b) =>
          EvaluateOne(f, zone, ep, family, bound) == Best(f, zone, ep, family, bound, b, Covered(f, ep, all[i..]))
    {
      assert all[i..][0] == all[i] && all[i..][1..] == all[i + 1..];
      ConcatHead([all[i]], Covered(f, ep, all[i + 1..]));
      if !BindCovers(f, ep.bindIp, all[i].ip) {
        continue;
      }
      var r := EvaluateAtDestination(f, zone, ep, family, bound, all[i]);
      if best.None? || Rank(r.answer) > Rank(best.value.answer) {
        best := Some(r);
      }
    }
    assert all[|all|..] == [];
    if best.None? {
      return Row(ep, family, Filtered, BindNotCovered(ep.bindIp), [], None);
    }
    row := best.value;
  }
}
