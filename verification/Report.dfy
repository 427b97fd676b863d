/** What the report as a whole contains: nothing the three sources name is lost, and nothing is
    made up. */
module Report {
  import opened Wrappers
  import opened Bytes
  import opened Facts
  import opened Sorting
  import opened Matcher
  import opened Traversal
  import opened Path
  import opened Forwards
  import opened ForwardSoundness
  import opened OneRule
  import opened Evaluation
  import opened Machine
  import opened EndToEnd
  import opened Endpoints

  // ---- which keys the merge holds, and who wins ------------------------------------------

  function SocketKeys(sockets: seq<Socket>): set<EndpointKey> {
    set s | s in sockets :: KeyOf(SocketEndpoint(s))
  }

  function PublishKeys(f: Snapshot, cs: seq<Container>): set<EndpointKey> {
    set c, p | c in cs && p in c.publishes :: KeyOf(PublishEndpoint(f, c.name, p))
  }

  /** The protocol and port of a key. */
  function Service(k: EndpointKey): (string, Port) {
    (k.1, k.3)
  }

  /** Keys of the rows whose service is not among `reported`. */
  function FreshKeys(reported: set<(string, Port)>, rows: seq<FwdRow>): set<EndpointKey> {
    set row | row in rows && (row.proto, row.port) !in reported :: KeyOf(ForwardEndpoint(row))
  }

  /** Forwards of services that no socket and no publish has. */
  function ForwardKeys(f: Snapshot, rows: seq<FwdRow>): set<EndpointKey> {
    FreshKeys(set k | k in SocketKeys(f.sockets) + PublishKeys(f, f.containers) :: Service(k), rows)
  }

  /** `m'` is `m` with every one of `keys` taken over by an endpoint of this kind. */
  ghost predicate Overlays(m': EndpointMap, m: EndpointMap, keys: set<EndpointKey>, kind: string) {
    && m'.Keys == m.Keys + keys
    && forall k :: k in m' ==> if k in keys then m'[k].kind == kind else m'[k] == m[k]
  }

  lemma {:induction false} OverlayOnOverlay(m0: EndpointMap, m1: EndpointMap, m2: EndpointMap, a: set<EndpointKey>,
                                            b: set<EndpointKey>, kind: string)
    requires Overlays(m1, m0, a, kind) && Overlays(m2, m1, b, kind)
    ensures Overlays(m2, m0, a + b, kind)
  {
    forall k | k in m2 ensures if k in a + b then m2[k].kind == kind else m2[k] == m0[k] {
      assert k !in b ==> k in m1;
    }
  }

  lemma {:induction false} SocketsOverlay(m: EndpointMap, sockets: seq<Socket>)
    ensures Overlays(AddSockets(m, sockets), m, SocketKeys(sockets), "socket")
    decreases |sockets|
  {
    if sockets != [] {
      var e := SocketEndpoint(sockets[0]);
      var m1 := m[KeyOf(e) := e];
      SocketsOverlay(m1, sockets[1..]);
      assert sockets == [sockets[0]] + sockets[1..];
      assert SocketKeys(sockets) == {KeyOf(e)} + SocketKeys(sockets[1..]);
      OverlayOnOverlay(m, m1, AddSockets(m, sockets), {KeyOf(e)}, SocketKeys(sockets[1..]), "socket");
    }
  }

  lemma {:induction false} PublishesOverlay(f: Snapshot, m: EndpointMap, name: string, ps: seq<Publish>)
    ensures Overlays(AddPublishes(f, m, name, ps), m, PublishKeys(f, [Container(name, ps)]), "publish")
    decreases |ps|
  {
    var one := [Container(name, ps)];
    if ps == [] {
      assert PublishKeys(f, one) == {};
    } else {
      var e, rest := PublishEndpoint(f, name, ps[0]), [Container(name, ps[1..])];
      var m1 := m[KeyOf(e) := e];
      PublishesOverlay(f, m1, name, ps[1..]);
      assert ps == [ps[0]] + ps[1..];
      assert rest[0] in rest && one[0] in one;
      assert PublishKeys(f, one) == {KeyOf(e)} + PublishKeys(f, rest);
      OverlayOnOverlay(m, m1, AddPublishes(f, m, name, ps), {KeyOf(e)}, PublishKeys(f, rest), "publish");
    }
  }

  lemma {:induction false} ContainersOverlay(f: Snapshot, m: EndpointMap, cs: seq<Container>)
    ensures Overlays(AddContainers(f, m, cs), m, PublishKeys(f, cs), "publish")
    decreases |cs|
  {
    if cs != [] {
      var c := cs[0];
      var m1 := AddPublishes(f, m, c.name, c.publishes);
      PublishesOverlay(f, m, c.name, c.publishes);
      ContainersOverlay(f, m1, cs[1..]);
      assert [Container(c.name, c.publishes)] == [c] && cs == [c] + cs[1..];
      assert PublishKeys(f, cs) == PublishKeys(f, [c]) + PublishKeys(f, cs[1..]);
      OverlayOnOverlay(m, m1, AddContainers(f, m, cs), PublishKeys(f, [c]), PublishKeys(f, cs[1..]), "publish");
    }
  }

  lemma {:induction false} ForwardsOverlay(m: EndpointMap, reported: set<(string, Port)>, rows: seq<FwdRow>)
    ensures Overlays(AddForwards(m, reported, rows), m, FreshKeys(reported, rows), "forward")
    decreases |rows|
  {
    if rows != [] {
      var e, rest := ForwardEndpoint(rows[0]), FreshKeys(reported, rows[1..]);
      assert rows == [rows[0]] + rows[1..];
      if (rows[0].proto, rows[0].port) in reported {
        ForwardsOverlay(m, reported, rows[1..]);
        assert FreshKeys(reported, rows) == rest;
      } else {
        var m1 := m[KeyOf(e) := e];
        ForwardsOverlay(m1, reported, rows[1..]);
        assert FreshKeys(reported, rows) == {KeyOf(e)} + rest;
        OverlayOnOverlay(m, m1, AddForwards(m, reported, rows), {KeyOf(e)}, rest, "forward");
      }
    }
  }

  /** The services reported so far are those of the keys. */
  lemma {:induction false} ReportedServices(f: Snapshot)
    ensures Endpoints.Reported(HostEndpoints(f)) ==
      set k | k in SocketKeys(f.sockets) + PublishKeys(f, f.containers) :: Service(k)
  {
    var m := HostEndpoints(f);
    SocketsOverlay(map[], f.sockets);
    ContainersOverlay(f, AddSockets(map[], f.sockets), f.containers);
    SocketsWellKeyed(f, map[], f.sockets);
    ContainersWellKeyed(f, AddSockets(map[], f.sockets), f.containers);
    forall k | k in m ensures (m[k].proto, m[k].port) == Service(k) {
      assert KeyOf(m[k]) == k;
    }
    assert m.Keys == SocketKeys(f.sockets) + PublishKeys(f, f.containers);
  }

  /** The merge holds exactly the keys of the sockets, of the publishes, and of the forwards of
      services neither has; a publish takes over the socket with its key, and a forward takes
      over nothing. */
  lemma {:induction false} MergedExactly(f: Snapshot, bound: nat)
    ensures var m, sockets, publishes := AllEndpoints(f, bound), SocketKeys(f.sockets), PublishKeys(f, f.containers);
      var forwards := ForwardKeys(f, ForwardRows(bound, f.ruleset).rows);
      && m.Keys == sockets + publishes + forwards
      && forwards !! sockets + publishes
      && (forall k :: k in m ==>
            m[k].kind == if k in forwards then "forward" else if k in publishes then "publish" else "socket")
  {
    var m0, m1, m2 := AddSockets(map[], f.sockets), HostEndpoints(f), AllEndpoints(f, bound);
    var rows, publishes := ForwardRows(bound, f.ruleset).rows, PublishKeys(f, f.containers);
    SocketsOverlay(map[], f.sockets);
    ContainersOverlay(f, m0, f.containers);
    ForwardsOverlay(m1, Endpoints.Reported(m1), rows);
    ReportedServices(f);
    assert ForwardKeys(f, rows) == FreshKeys(Endpoints.Reported(m1), rows);
    forall row | row in rows && (row.proto, row.port) !in Endpoints.Reported(m1)
      ensures KeyOf(ForwardEndpoint(row)) !in SocketKeys(f.sockets) + publishes
    {
      assert Service(KeyOf(ForwardEndpoint(row))) == (row.proto, row.port);
    }
  }

  // ---- from the merge to the rows ----------------------------------------------------------

  lemma {:induction false} RowComesFrom(f: Snapshot, zone: Zone, bound: nat, eps: seq<Endpoint>, r: Row)
    ensures r in VerdictsOf(f, zone, bound, eps) <==>
      && r.endpoint in eps && r.family in FamiliesFor(r.endpoint, f.host.sysctls, Wildcards(eps))
      && r == Endpoints.RowFor(f, zone, bound, r.endpoint, r.family)
  {
    var rows, w := AllRows(f, zone, bound, eps, Wildcards(eps)), Wildcards(eps);
    SortPermutes(rows, RowLe);
    SameMembers(VerdictsOf(f, zone, bound, eps), rows);
    AllRowsMembers(f, zone, bound, eps, w, r);
    forall e | e in eps && Produces(f, zone, bound, w, e, r) ensures r.endpoint == e {
      RowIsOf(f, zone, bound, e, r.family);
    }
    assert Produces(f, zone, bound, w, r.endpoint, r) <==>
      r.family in FamiliesFor(r.endpoint, f.host.sysctls, w) &&
        r == Endpoints.RowFor(f, zone, bound, r.endpoint, r.family);
  }

  /** The rows of the report are those of the merged endpoints: each endpoint has at least one,
      and each row is of one of them, in a family it is evaluated for. */
  lemma {:induction false} RowsAreOfEndpoints(f: Snapshot, zone: Zone, bound: nat, eps: seq<Endpoint>)
    requires Enumerates(AllEndpoints(f, bound), eps)
    ensures forall e :: e in eps ==> exists r :: r in VerdictsOf(f, zone, bound, eps) && r.endpoint == e
    ensures forall r :: r in VerdictsOf(f, zone, bound, eps) ==>
      r.endpoint in eps && r.family in FamiliesFor(r.endpoint, f.host.sysctls, Wildcards(eps))
  {
    forall e | e in eps ensures exists r :: r in VerdictsOf(f, zone, bound, eps) && r.endpoint == e {
      var family := FamiliesFor(e, f.host.sysctls, Wildcards(eps))[0];
      var r := Endpoints.RowFor(f, zone, bound, e, family);
      RowIsOf(f, zone, bound, e, family);
      RowComesFrom(f, zone, bound, eps, r);
    }
    forall r | r in VerdictsOf(f, zone, bound, eps)
      ensures r.endpoint in eps && r.family in FamiliesFor(r.endpoint, f.host.sysctls, Wildcards(eps))
    {
      RowComesFrom(f, zone, bound, eps, r);
    }
  }

  /** A row of the report for this family, protocol, bind address and port. */
  ghost predicate HasRow(rows: seq<Row>, k: EndpointKey) {
    exists r :: r in rows && KeyOf(r.endpoint) == k
  }

  /** No listener is lost: every socket and every published port has a row of its own family,
      protocol, address and port, and every row stands for a socket, a published port, or a
      forward of a service neither of them has. */
  lemma {:induction false} ReportIsComplete(f: Snapshot, zone: Zone, bound: nat, eps: seq<Endpoint>)
    requires Enumerates(AllEndpoints(f, bound), eps)
    ensures forall k :: HasRow(VerdictsOf(f, zone, bound, eps), k) <==>
      k in SocketKeys(f.sockets) + PublishKeys(f, f.containers) + ForwardKeys(f, ForwardRows(bound, f.ruleset).rows)
  {
    var m, rows := AllEndpoints(f, bound), VerdictsOf(f, zone, bound, eps);
    MergedExactly(f, bound);
    AllWellKeyed(f, bound);
    RowsAreOfEndpoints(f, zone, bound, eps);
    forall k ensures HasRow(rows, k) <==> k in m {
      if k in m {
        assert KeyOf(m[k]) == k && m[k] in eps;
      }
    }
  }

  // ---- what the report says about a forwarded packet --------------------------------------

  /** Prerouting accepts the packet with a rewrite, by rules of the shapes taken for granted. */
  ghost predicate Forwarded(f: Snapshot, pkt: Packet, bound: nat) {
    && PortPacket(pkt) && DistinctTables(f.ruleset, pkt.family)
    && var w := Prerouting(f, pkt, bound);
       w.result.Accepted? && w.result.dnat.Some? && PlainPath(f.ruleset, pkt, w.hits)
  }

  function Prerouting(f: Snapshot, pkt: Packet, bound: nat): Walk {
    Traverse(PacketContext(f.ruleset, pkt.family, bound, pkt), "prerouting", pkt)
  }

  /** The rule that rewrote the packet is named by a note. */
  ghost predicate Noted(f: Snapshot, pkt: Packet, bound: nat) {
    var h := LastDnat(Prerouting(f, pkt, bound).hits);
    h.Some? && exists n :: n in ForwardRows(bound, f.ruleset).notes && NoteFor(h.value, n)
  }

  /** The rewriting rule is in a table of one family; or it names one address, and the packet's
      family can carry it. */
  ghost predicate InOwnFamily(f: Snapshot, pkt: Packet, bound: nat) {
    var w := Prerouting(f, pkt, bound);
    && w.result.Accepted? && w.result.dnat.Some? && LastDnat(w.hits).Some?
    && RowFamiliesFor(f.ruleset, pkt, LastDnat(w.hits).value, w.result.dnat.value) == {pkt.family}
  }

  predicate ServesPacket(e: Endpoint, pkt: Packet) {
    e.proto == pkt.proto && e.port == pkt.dstPort
  }

  /** A row speaks for the packet: of its service and family, and bound where the packet goes. */
  ghost predicate Shown(f: Snapshot, rows: seq<Row>, pkt: Packet) {
    exists r :: r in rows && ServesPacket(r.endpoint, pkt) && r.family == pkt.family && BindCovers(f,
                        r.endpoint.bindIp, pkt.dst)
  }

  /** The services with an IPv4 wildcard socket, which keeps the IPv6 wildcard socket from being
      evaluated for IPv4. */
  function HostWildcards(f: Snapshot): set<(string, Port)> {
    var m := HostEndpoints(f);
    set k | k in m && m[k].kind == "socket" && m[k].family == "ip" && m[k].bindIp == "0.0.0.0" :: (m[k].proto,
                         m[k].port)
  }

  /** No socket and no published port has the packet's service. */
  predicate Untaken(f: Snapshot, pkt: Packet) {
    (pkt.proto, pkt.dstPort) !in Endpoints.Reported(HostEndpoints(f))
  }

  /** One that has it is evaluated for the packet's family and bound where the packet goes. */
  ghost predicate HostAnswers(f: Snapshot, pkt: Packet) {
    var m := HostEndpoints(f);
    exists k :: k in m && ServesPacket(m[k], pkt)
      && pkt.family in FamiliesFor(m[k], f.host.sysctls, HostWildcards(f)) && BindCovers(f, m[k].bindIp, pkt.dst)
  }

  /** Forwards add to what the host's own endpoints are, and change none of them. */
  lemma {:induction false} HostEndpointsStay(f: Snapshot, bound: nat)
    ensures var m, m1 := AllEndpoints(f, bound), HostEndpoints(f);
      var added := FreshKeys(Endpoints.Reported(m1), ForwardRows(bound, f.ruleset).rows);
      && m.Keys == m1.Keys + added && added !! m1.Keys
      && (forall k :: k in m1 ==> m[k] == m1[k])
      && (forall k :: k in added ==> m[k].kind == "forward" && m[k].bindIp == "")
      && (forall k :: k in m ==> KeyOf(m[k]) == k)
  {
    var m1, rows := HostEndpoints(f), ForwardRows(bound, f.ruleset).rows;
    ForwardsOverlay(m1, Endpoints.Reported(m1), rows);
    AllWellKeyed(f, bound);
    SocketsWellKeyed(f, map[], f.sockets);
    ContainersWellKeyed(f, AddSockets(map[], f.sockets), f.containers);
    assert forall k :: k in m1 ==> KeyOf(m1[k]) == k && (m1[k].proto, m1[k].port) in Endpoints.Reported(m1);
  }

  lemma {:induction false} SameWildcards(f: Snapshot, bound: nat, eps: seq<Endpoint>)
    requires Enumerates(AllEndpoints(f, bound), eps)
    ensures Wildcards(eps) == HostWildcards(f)
  {
    var m, m1 := AllEndpoints(f, bound), HostEndpoints(f);
    HostEndpointsStay(f, bound);
    forall s | s in HostWildcards(f) ensures s in Wildcards(eps) {
      var k :| k in m1 && m1[k].kind == "socket" && m1[k].family == "ip" && m1[k].bindIp == "0.0.0.0" &&
        s == (m1[k].proto, m1[k].port);
      assert m[k] in eps;
    }
    forall e | e in eps && e.kind == "socket" ensures KeyOf(e) in m1 && m1[KeyOf(e)] == e {
      assert m[KeyOf(e)] == e;
    }
  }

  lemma {:induction false} FreshIsFree(reported: set<(string, Port)>, rows: seq<FwdRow>, k: EndpointKey)
    requires k in FreshKeys(reported, rows)
    ensures Service(k) !in reported
  {
    var row :| row in rows && (row.proto, row.port) !in reported && KeyOf(ForwardEndpoint(row)) == k;
  }

  /** Whatever prerouting does, a row that speaks for the packet comes from an endpoint of the
      host that covers it, or from a forward of a service the host does not have. */
  lemma {:induction false} ShownOnlyIf(f: Snapshot, zone: Zone, pkt: Packet, bound: nat, eps: seq<Endpoint>)
    requires Enumerates(AllEndpoints(f, bound), eps) && Shown(f, VerdictsOf(f, zone, bound, eps), pkt)
    ensures Untaken(f, pkt) || HostAnswers(f, pkt)
  {
    var m, m1 := AllEndpoints(f, bound), HostEndpoints(f);
    HostEndpointsStay(f, bound);
    SameWildcards(f, bound, eps);
    RowsAreOfEndpoints(f, zone, bound, eps);
    var r :| r in VerdictsOf(f, zone, bound, eps) && ServesPacket(r.endpoint, pkt) && r.family == pkt.family
      && BindCovers(f, r.endpoint.bindIp, pkt.dst);
    var k := KeyOf(r.endpoint);
    if k in m1 {
      assert m1[k] == r.endpoint;
    } else {
      FreshIsFree(Endpoints.Reported(m1), ForwardRows(bound, f.ruleset).rows, k);
    }
  }

  lemma {:induction false} EndpointHasRow(f: Snapshot, zone: Zone, pkt: Packet, bound: nat, eps: seq<Endpoint>,
                                          e: Endpoint)
    requires Enumerates(AllEndpoints(f, bound), eps) && e in eps && ServesPacket(e, pkt)
    requires pkt.family in FamiliesFor(e, f.host.sysctls, Wildcards(eps)) && BindCovers(f, e.bindIp, pkt.dst)
    ensures Shown(f, VerdictsOf(f, zone, bound, eps), pkt)
  {
    var r := Endpoints.RowFor(f, zone, bound, e, pkt.family);
    RowIsOf(f, zone, bound, e, pkt.family);
    RowComesFrom(f, zone, bound, eps, r);
    assert ServesPacket(r.endpoint, pkt);
  }

  lemma {:induction false} FreshForwardIsShown(f: Snapshot, zone: Zone, pkt: Packet, bound: nat, eps: seq<Endpoint>,
                                               row: FwdRow)
    requires Enumerates(AllEndpoints(f, bound), eps) && Untaken(f, pkt)
    requires row in ForwardRows(bound, f.ruleset).rows && ForwardSoundness.RowFor(pkt, {pkt.family}, row)
    ensures Shown(f, VerdictsOf(f, zone, bound, eps), pkt)
  {
    var m, k := AllEndpoints(f, bound), KeyOf(ForwardEndpoint(row));
    HostEndpointsStay(f, bound);
    assert k in FreshKeys(Endpoints.Reported(HostEndpoints(f)), ForwardRows(bound, f.ruleset).rows);
    assert KeyOf(m[k]) == k && m[k].kind == "forward" && m[k] in eps;
    EndpointHasRow(f, zone, pkt, bound, eps, m[k]);
  }

  /** A forwarded packet is noted, or has a row of its own family whose bind covers its
      destination, exactly when no socket and no published port has its service, or one that has
      it is evaluated for its family and covers its destination. */
  lemma {:induction false} ForwardedServiceIsShown(f: Snapshot, zone: Zone, pkt: Packet, bound: nat, eps: seq<Endpoint>)
    requires Enumerates(AllEndpoints(f, bound), eps) && Forwarded(f, pkt, bound) && InOwnFamily(f, pkt, bound)
    requires !Noted(f, pkt, bound)
    ensures Shown(f, VerdictsOf(f, zone, bound, eps), pkt) <==> Untaken(f, pkt) || HostAnswers(f, pkt)
  {
    var m, m1 := AllEndpoints(f, bound), HostEndpoints(f);
    HostEndpointsStay(f, bound);
    SameWildcards(f, bound, eps);
    if Shown(f, VerdictsOf(f, zone, bound, eps), pkt) {
      ShownOnlyIf(f, zone, pkt, bound, eps);
    }
    if HostAnswers(f, pkt) {
      var k :| k in m1 && ServesPacket(m1[k], pkt)
        && pkt.family in FamiliesFor(m1[k], f.host.sysctls, HostWildcards(f)) && BindCovers(f, m1[k].bindIp, pkt.dst);
      assert m[k] == m1[k];
      EndpointHasRow(f, zone, pkt, bound, eps, m[k]);
    }
    if Untaken(f, pkt) {
      NoSilentForward(f.ruleset, pkt, bound);
      var row :| row in ForwardRows(bound, f.ruleset).rows && ForwardSoundness.RowFor(pkt, {pkt.family}, row);
      FreshForwardIsShown(f, zone, pkt, bound, eps, row);
    }
  }

  // ---- a loopback socket hides a forward ---------------------------------------------------

  const TO_LAN := XtExpr(XtTarget, XtDnat, true, Some(DnatInfo(Some(IpAddr([10, 0, 0, 1])), 80)), None, None, None)
  const FORWARD_80 := Rule(1, [Payload(1, Transport, 2, 2), Cmp(Eq, 1, Hex([0, 80])), Xt(TO_LAN)])
  const LOCAL_SOCKET := Socket("ip", "tcp", "127.0.0.1", 80, "web")
  const LOOPBACK := IpAddr([127, 0, 0, 1])

  /** The only listener is a web server on the loopback address. */
  ghost predicate LocalWebServer(f: Snapshot) {
    && f.sockets == [LOCAL_SOCKET] && f.containers == [] && !f.ruleset.readFailed
    && f.parse("127.0.0.1") == Some(LOOPBACK)
  }

  lemma {:induction false} OnlyTheSocket(f: Snapshot)
    requires LocalWebServer(f)
    ensures HostEndpoints(f) == map[KeyOf(SocketEndpoint(LOCAL_SOCKET)) := SocketEndpoint(LOCAL_SOCKET)]
  {
    var e := SocketEndpoint(LOCAL_SOCKET);
    var m := map[KeyOf(e) := e];
    assert f.sockets[0] == LOCAL_SOCKET && f.sockets[1..] == [];
    assert map[][KeyOf(e) := e] == m && AddSockets(m, []) == m;
    assert AddSockets(map[], f.sockets) == AddSockets(m, f.sockets[1..]);
  }

  lemma {:induction false} LoopbackCoversNothing(f: Snapshot, text: string, ip: IpAddr)
    requires LocalWebServer(f) && ip.Unmap() != LOOPBACK && text == "127.0.0.1"
    ensures !BindCovers(f, text, ip)
  {
    NoWildcard(text);
    var ours := f.parse(text).value;
    assert ours == LOOPBACK && ours.Unmap() == LOOPBACK;
    assert ours != ip;
  }

  lemma {:induction false} NoWildcard(text: string)
    requires |text| > 0 && text[0] == '1'
    ensures text !in {"0.0.0.0", "::", "[::]", ""}
  {
    assert "0.0.0.0"[0] == '0' && "::"[0] == ':' && "[::]"[0] == '[';
  }

  lemma {:induction false} NothingCovered(f: Snapshot, ep: Endpoint, cs: seq<Candidate>)
    requires LocalWebServer(f) && ep.bindIp == "127.0.0.1" && forall c :: c in cs ==> c.ip.Unmap() != LOOPBACK
    ensures Covered(f, ep, cs) == []
  {
    if cs != [] {
      assert cs[0] in cs;
      LoopbackCoversNothing(f, ep.bindIp, cs[0].ip);
      NothingCovered(f, ep, cs[1..]);
    }
  }

  /** Whatever the ruleset forwards, that socket takes the whole service: every row of tcp port
      80 is the socket's, and says filtered. */
  lemma {:induction false} LoopbackTakesService(f: Snapshot, zone: Zone, bound: nat, eps: seq<Endpoint>, r: Row)
    requires LocalWebServer(f) && Enumerates(AllEndpoints(f, bound), eps)
    requires PublicAddrs(f.host.interfaces, "ip") != []
    requires forall c :: c in PublicAddrs(f.host.interfaces, "ip") ==> c.ip.Unmap() != LOOPBACK
    requires r in VerdictsOf(f, zone, bound, eps) && r.endpoint.proto == "tcp" && r.endpoint.port == 80
    ensures r.endpoint == SocketEndpoint(LOCAL_SOCKET) && r.answer == Filtered
  {
    var e := SocketEndpoint(LOCAL_SOCKET);
    OnlyTheSocket(f);
    RowComesFrom(f, zone, bound, eps, r);
    assert ("tcp", 80) in Endpoints.Reported(HostEndpoints(f)) by {
      assert KeyOf(e) in HostEndpoints(f);
    }
    OnlyTcp80(f, bound, KeyOf(r.endpoint));
    NothingCovered(f, e, PublicAddrs(f.host.interfaces, "ip"));
  }

  /** The socket is the only endpoint of its service. */
  lemma {:induction false} OnlyTcp80(f: Snapshot, bound: nat, k: EndpointKey)
    requires LocalWebServer(f) && k in AllEndpoints(f, bound) && Service(k) == ("tcp", 80)
    ensures AllEndpoints(f, bound)[k] == SocketEndpoint(LOCAL_SOCKET)
  {
    var m1, e := HostEndpoints(f), SocketEndpoint(LOCAL_SOCKET);
    OnlyTheSocket(f);
    HostEndpointsStay(f, bound);
    assert KeyOf(e) in m1 && (m1[KeyOf(e)].proto, m1[KeyOf(e)].port) in Endpoints.Reported(m1);
    if k !in m1 {
      FreshIsFree(Endpoints.Reported(m1), ForwardRows(bound, f.ruleset).rows, k);
    }
  }

  lemma {:induction false} EightyRewrites(pkt: Packet)
    requires PortPacket(pkt) && pkt.dstPort == 80
    ensures MatchRule(pkt, FORWARD_80, []) == (Match, Rewrite(Target(IpAddr([10, 0, 0, 1]), 80)))
  {
    var regs := map[1 := [0, 80]];
    assert PortBytes(80) == [0, 80];
    assert [0, 80][..2] == [0, 80];
    CompareEqual([0, 80], [0, 80]);
    ThreeMatch(pkt, FORWARD_80, regs, Target(IpAddr([10, 0, 0, 1]), 80));
  }

  lemma {:induction false} RouterIsScanned(bound: nat)
    ensures ForwardRows(bound, Hooked("ip", FORWARD_80)).notes == []
  {
    var r := FORWARD_80;
    var t, ch := NatTable("ip", r), Pre(r);
    var st0 := ScanState(map[], map[], NO_CONSTRAINT);
    var st1 := st0.(regs := map[1 := FwdDport]);
    var st2 := st1.(m := FwdMatch("", [80], None));
    assert PortFromHex(Hex([0, 80])) == Some(80);
    assert ScanExpr(t.sets, r.exprs[0], st0) == ScanOn(st1);
    assert [] + [80] == [80 as Port];
    assert ScanExpr(t.sets, r.exprs[1], st1) == ScanOn(st2);
    assert ScanRule(bound, t, ch, r, 2, st2, 0).notes == [];
    assert ScanRule(bound, t, ch, r, 1, st1, 0).notes == [];
    assert ScanRule(bound, t, ch, r, 0, st0, 0).notes == [];
    HookedScans("ip", r, bound);
  }

  /** So a port that really is forwarded can be reported as filtered, with no note: the ruleset
      forwards every IPv4 packet to tcp port 80 to another machine, and the only row of that
      service is the loopback socket's. */
  lemma {:induction false} LoopbackHidesForward(f: Snapshot, zone: Zone, pkt: Packet, bound: nat, eps: seq<Endpoint>)
    requires LocalWebServer(f) && f.ruleset == Hooked("ip", FORWARD_80) && Enumerates(AllEndpoints(f, bound), eps)
    requires pkt.family == "ip" && pkt.proto == "tcp" && pkt.dstPort == 80 && pkt.dst.Unmap() != LOOPBACK
    ensures Prerouting(f, pkt, bound).result == Accepted(Some(Target(IpAddr([10, 0, 0, 1]), 80)))
    ensures !Noted(f, pkt, bound) && !Shown(f, VerdictsOf(f, zone, bound, eps), pkt)
  {
    EightyRewrites(pkt);
    HookedRewrites(pkt, FORWARD_80, bound, Target(IpAddr([10, 0, 0, 1]), 80));
    RouterIsScanned(bound);
    NothingSpeaksFor(f, pkt);
    if Shown(f, VerdictsOf(f, zone, bound, eps), pkt) {
      ShownOnlyIf(f, zone, pkt, bound, eps);
    }
  }

  /** The socket takes the service, and covers no such destination. */
  lemma {:induction false} NothingSpeaksFor(f: Snapshot, pkt: Packet)
    requires LocalWebServer(f)
    requires pkt.proto == "tcp" && pkt.dstPort == 80 && pkt.dst.Unmap() != LOOPBACK
    ensures !Untaken(f, pkt) && !HostAnswers(f, pkt)
  {
    var e := SocketEndpoint(LOCAL_SOCKET);
    OnlyTheSocket(f);
    assert KeyOf(e) in HostEndpoints(f);
    LoopbackCoversNothing(f, e.bindIp, pkt.dst);
  }

  // ---- every row -----------------------------------------------------------------------------

  /** What a reader of the report may conclude from a row, whatever the unresolved parts mean. */
  ghost predicate Holds(f: Snapshot, zone: Zone, bound: nat, r: Row) {
    && (r.answer == Filtered ==>
         forall c :: Answers(f, r.endpoint, r.family, c) ==> AlwaysStopped(f, zone, r.endpoint, r.family, bound, c))
    && (r.answer == Reachable ==>
         exists c :: Answers(f, r.endpoint, r.family, c) && AlwaysThrough(f, zone, r.endpoint, r.family, bound, c))
  }

  /** Every row of the report holds. */
  lemma {:induction false} ReportIsSound(f: Snapshot, zone: Zone, bound: nat, eps: seq<Endpoint>, r: Row)
    requires Enumerates(AllEndpoints(f, bound), eps) && r in VerdictsOf(f, zone, bound, eps)
    requires JumpsAreRegular(f.ruleset, r.family)
    ensures Holds(f, zone, bound, r)
  {
    RowComesFrom(f, zone, bound, eps, r);
    RowIsSound(f, zone, r.endpoint, r.family, bound);
  }
}
