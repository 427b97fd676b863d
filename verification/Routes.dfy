/** Prefixes and the choice of a route back to the packet's source. */
module Routes {
  import opened Wrappers
  import opened Bytes
  import opened Facts
  import opened Sorting

  /** One routing table entry; the destination is `None` when its text does not parse. */
  datatype Route = Route(dest: Option<IpAddr>, prefixLen: int, family: string, device: string)

  /** `netip.Prefix.Contains`: a valid prefix of the same width whose leading bits agree. */
  predicate PrefixContains(base: IpAddr, len: int, addr: IpAddr) {
    && base.IsValid()
    && |base.bytes| == |addr.bytes|
    && 0 <= len <= 8 * |base.bytes|
    && forall k :: 0 <= k < len ==> (Bit(base.bytes, k) <==> Bit(addr.bytes, k))
  }

  function FamilyOf(addr: IpAddr): string {
    if addr.Is6() then "ip6" else "ip"
  }

  predicate Covers(r: Route, addr: IpAddr) {
    r.family == FamilyOf(addr) && r.dest.Some? && PrefixContains(r.dest.value, r.prefixLen, addr)
  }

  /** One pass: `best` is the longest prefix so far, `dev` its device, or empty when two equally
      long ones disagree. */
  function RouteFrom(routes: seq<Route>, addr: IpAddr, best: int, dev: string): string {
    if routes == [] then dev
    else
      var r := routes[0];
      if !Covers(r, addr) then RouteFrom(routes[1..], addr, best, dev)
      else if r.prefixLen > best then RouteFrom(routes[1..], addr, r.prefixLen, r.device)
      else if r.prefixLen == best && r.device != dev then RouteFrom(routes[1..], addr, best, "")
      else RouteFrom(routes[1..], addr, best, dev)
  }

  function RouteDev(routes: seq<Route>, addr: IpAddr): string {
    RouteFrom(routes, addr, -1, "")
  }

  method RouteDevFor(routes: seq<Route>, addr: IpAddr) returns (dev: string)
    ensures dev == RouteDev(routes, addr)
  {
    var best := -1;
    dev := "";
    assert routes[0..] == routes;
    for i := 0 to |routes|
      invariant RouteFrom(routes[i..], addr, best, dev) == RouteDev(routes, addr)
    {
      var r := routes[i];
      assert routes[i..][0] == r && routes[i..][1..] == routes[i + 1..];
      if !Covers(r, addr) {
        continue;
      }
      if r.prefixLen > best {
        best, dev := r.prefixLen, r.device;
      } else if r.prefixLen == best && r.device != dev {
        dev := "";
      }
    }
  }

  /** A route that contains the address, and no route that contains it is more specific. */
  ghost predicate Longest(routes: seq<Route>, addr: IpAddr, r: Route) {
    && r in routes && Covers(r, addr)
    && forall s :: s in routes && Covers(s, addr) ==> s.prefixLen <= r.prefixLen
  }

  /** The device every most specific route names. */
  ghost predicate Agreed(routes: seq<Route>, addr: IpAddr, dev: string) {
    && (exists r :: Longest(routes, addr, r))
    && forall r :: Longest(routes, addr, r) ==> r.device == dev
  }

  /** What the pass over `seen` has found. */
  ghost predicate Summary(seen: seq<Route>, addr: IpAddr, best: int, dev: string) {
    && (forall r :: r in seen && Covers(r, addr) ==> r.prefixLen <= best)
    && (best == -1 ==> dev == "")
    && (best != -1 ==> exists r :: r in seen && Covers(r, addr) && r.prefixLen == best)
    && (dev != "" ==> forall r :: r in seen && Covers(r, addr) && r.prefixLen == best ==> r.device == dev)
    && (dev == "" && best != -1 ==>
      exists r, s :: r in seen && s in seen && Covers(r, addr) && Covers(s, addr)
        && r.prefixLen == best && s.prefixLen == best && r.device != s.device)
  }

  predicate Named(routes: seq<Route>, addr: IpAddr) {
    forall r :: r in routes && Covers(r, addr) ==> r.device != ""
  }

  lemma {:induction false} PassSummarises(seen: seq<Route>, r: Route, addr: IpAddr, best: int, dev: string)
    requires Summary(seen, addr, best, dev) && r.device != "" && Covers(r, addr)
    ensures r.prefixLen > best ==> Summary(seen + [r], addr, r.prefixLen, r.device)
    ensures r.prefixLen == best && r.device != dev ==> Summary(seen + [r], addr, best, "")
    ensures r.prefixLen < best || (r.prefixLen == best && r.device == dev) ==> Summary(seen + [r], addr, best, dev)
  {
    var all := seen + [r];
    assert r in all && forall s :: s in seen ==> s in all;
    if r.prefixLen == best && r.device != dev {
      var s :| s in seen && Covers(s, addr) && s.prefixLen == best;
      if dev != "" {
        assert s in all && s.device != r.device;
      }
    }
  }

  lemma {:induction false} PassSkips(seen: seq<Route>, r: Route, addr: IpAddr, best: int, dev: string)
    requires Summary(seen, addr, best, dev) && !Covers(r, addr)
    ensures Summary(seen + [r], addr, best, dev)
  {
    assert forall s :: s in seen ==> s in seen + [r];
  }

  lemma {:induction false} PassReaches(seen: seq<Route>, routes: seq<Route>, addr: IpAddr, best: int, dev: string)
    returns (top: int)
    requires Summary(seen, addr, best, dev) && Named(routes, addr)
    ensures Summary(seen + routes, addr, top, RouteFrom(routes, addr, best, dev))
    decreases |routes|
  {
    if routes == [] {
      assert seen + routes == seen;
      top := best;
    } else {
      var r, rest := routes[0], routes[1..];
      assert r in routes && forall s :: s in rest ==> s in routes;
      assert seen + routes == (seen + [r]) + rest;
      if !Covers(r, addr) {
        PassSkips(seen, r, addr, best, dev);
        top := PassReaches(seen + [r], rest, addr, best, dev);
      } else {
        PassSummarises(seen, r, addr, best, dev);
        if r.prefixLen > best {
          top := PassReaches(seen + [r], rest, addr, r.prefixLen, r.device);
        } else if r.prefixLen == best && r.device != dev {
          top := PassReaches(seen + [r], rest, addr, best, "");
        } else {
          top := PassReaches(seen + [r], rest, addr, best, dev);
        }
      }
    }
  }

  /** The loop answers `dev` exactly when all most specific routes name it, and answers nothing
      exactly when there is no route or they disagree. */
  lemma {:induction false} RouteChoice(routes: seq<Route>, addr: IpAddr)
    requires Named(routes, addr)
    ensures forall dev :: dev != "" ==> (RouteDev(routes, addr) == dev <==> Agreed(routes, addr, dev))
    ensures RouteDev(routes, addr) == "" <==> !exists dev :: dev != "" && Agreed(routes, addr, dev)
  {
    var top := PassReaches([], routes, addr, -1, "");
    var dev := RouteDev(routes, addr);
    assert [] + routes == routes;
    if top != -1 {
      var r :| r in routes && Covers(r, addr) && r.prefixLen == top;
      assert Longest(routes, addr, r);
      forall s | s in routes && Covers(s, addr) && s.prefixLen == top ensures Longest(routes, addr, s) {}
      if dev != "" {
        assert Agreed(routes, addr, dev);
      } else {
        var s, s' :| s in routes && s' in routes && Covers(s, addr) && Covers(s', addr)
          && s.prefixLen == top && s'.prefixLen == top && s.device != s'.device;
        assert Longest(routes, addr, s) && Longest(routes, addr, s');
      }
    }
  }

  /** So the order of the routes does not matter. */
  lemma {:induction false} RouteOrderIsFree(routes: seq<Route>, routes': seq<Route>, addr: IpAddr)
    requires multiset(routes) == multiset(routes') && Named(routes, addr)
    ensures RouteDev(routes', addr) == RouteDev(routes, addr)
  {
    SameMembers(routes, routes');
    forall r ensures Longest(routes, addr, r) <==> Longest(routes', addr, r) {}
    forall dev ensures Agreed(routes, addr, dev) <==> Agreed(routes', addr, dev) {}
    RouteChoice(routes, addr);
    RouteChoice(routes', addr);
  }
}
