/** Which endpoints are evaluated, and in which order the verdicts come out. The endpoints live
    in a map that is enumerated in no particular order; the verdict list does not show it. */
module Endpoints {
  import opened Wrappers
  import opened Bytes
  import opened Facts
  import opened Sorting
  import opened Traversal
  import opened Order
  import opened Forwards
  import opened Scanners
  import opened Evaluation

  type EndpointKey = (string, string, string, Port)

  function KeyOf(e: Endpoint): EndpointKey {
    (e.family, e.proto, e.bindIp, e.port)
  }

  type EndpointMap = map<EndpointKey, Endpoint>

  // ---- merging the three sources ------------------------------------------------------------

  function SocketEndpoint(s: Socket): Endpoint {
    Endpoint("socket", s.family, s.proto, s.bindIp, s.port, Named(s.owner))
  }

  /** The family of a published address: that of the text, IPv4 when it does not parse. */
  function PublishFamily(f: Snapshot, hostIp: string): string {
    var ip := f.parse(hostIp);
    if ip.Some? && ip.value.Is6() then "ip6" else "ip"
  }

  function PublishEndpoint(f: Snapshot, name: string, p: Publish): Endpoint {
    Endpoint("publish", PublishFamily(f, p.hostIp), p.proto, p.hostIp, p.hostPort, Named(name))
  }

  function ForwardEndpoint(row: FwdRow): Endpoint {
    Endpoint("forward", row.family, row.proto, "", row.port, ForwardedTo(row.target))
  }

  function AddSockets(m: EndpointMap, sockets: seq<Socket>): EndpointMap
    decreases |sockets|
  {
    if sockets == [] then m
    else
      var e := SocketEndpoint(sockets[0]);
      AddSockets(m[KeyOf(e) := e], sockets[1..])
  }

  function AddPublishes(f: Snapshot, m: EndpointMap, name: string, ps: seq<Publish>): EndpointMap
    decreases |ps|
  {
    if ps == [] then m
    else
      var e := PublishEndpoint(f, name, ps[0]);
      AddPublishes(f, m[KeyOf(e) := e], name, ps[1..])
  }

  function AddContainers(f: Snapshot, m: EndpointMap, cs: seq<Container>): EndpointMap
    decreases |cs|
  {
    if cs == [] then m else AddContainers(f, AddPublishes(f, m, cs[0].name, cs[0].publishes), cs[1..])
  }

  /** A port that already has a row keeps it. */
  function AddForwards(m: EndpointMap, reported: set<(string, Port)>, rows: seq<FwdRow>): EndpointMap
    decreases |rows|
  {
    if rows == [] then m
    else if (rows[0].proto, rows[0].port) in reported then AddForwards(m, reported, rows[1..])
    else
      var e := ForwardEndpoint(rows[0]);
      AddForwards(m[KeyOf(e) := e], reported, rows[1..])
  }

  function Reported(m: EndpointMap): set<(string, Port)> {
    set k | k in m :: (m[k].proto, m[k].port)
  }

  function HostEndpoints(f: Snapshot): EndpointMap {
    AddContainers(f, AddSockets(map[], f.sockets), f.containers)
  }

  function AllEndpoints(f: Snapshot, bound: nat): EndpointMap {
    var m := HostEndpoints(f);
    AddForwards(m, Reported(m), ForwardRows(bound, f.ruleset).rows)
  }

  /** The loops of the source, each overwriting what the one before put under the same key. */
  method MergeEndpoints(f: Snapshot, bound: nat) returns (m: EndpointMap)
    ensures m == AllEndpoints(f, bound)
  {
    m := map[];
    assert f.sockets[0..] == f.sockets;
    for i := 0 to |f.sockets|
      invariant AddSockets(m, f.sockets[i..]) == AddSockets(map[], f.sockets)
    {
      assert f.sockets[i..][0] == f.sockets[i] && f.sockets[i..][1..] == f.sockets[i + 1..];
      var e := SocketEndpoint(f.sockets[i]);
      m := m[KeyOf(e) := e];
    }
    assert f.containers[0..] == f.containers;
    for i := 0 to |f.containers|
      invariant AddContainers(f, m, f.containers[i..]) == HostEndpoints(f)
    {
      var c := f.containers[i];
      assert f.containers[i..][0] == c && f.containers[i..][1..] == f.containers[i + 1..];
      ghost var before := m;
      assert c.publishes[0..] == c.publishes;
      for j := 0 to |c.publishes|
        invariant AddPublishes(f, m, c.name, c.publishes[j..]) == AddPublishes(f, before, c.name, c.publishes)
      {
        assert c.publishes[j..][0] == c.publishes[j] && c.publishes[j..][1..] == c.publishes[j + 1..];
        var e := PublishEndpoint(f, c.name, c.publishes[j]);
        m := m[KeyOf(e) := e];
      }
      assert c.publishes[|c.publishes|..] == [];
    }
    assert f.containers[|f.containers|..] == [];
    var reported := Reported(m);
    var rows, _ := FindForwards(bound, f.ruleset);
    assert rows[0..] == rows;
    for i := 0 to |rows|
      invariant AddForwards(m, reported, rows[i..]) == AllEndpoints(f, bound)
    {
      assert rows[i..][0] == rows[i] && rows[i..][1..] == rows[i + 1..];
      if (rows[i].proto, rows[i].port) in reported {
        continue;
      }
      var e := ForwardEndpoint(rows[i]);
      m := m[KeyOf(e) := e];
    }
    assert rows[|rows|..] == [];
  }

  // ---- every row of every endpoint -------------------------------------------------------------

  function Wildcards(eps: seq<Endpoint>): set<(string, Port)> {
    set e | e in eps && e.kind == "socket" && e.family == "ip" && e.bindIp == "0.0.0.0" :: (e.proto, e.port)
  }

  /** A dual-stack socket is two rows, unless an IPv4 wildcard socket has the port. */
  function FamiliesFor(e: Endpoint, sc: Sysctls, wildcards: set<(string, Port)>): seq<string> {
    if e.kind == "socket" && e.family == "ip6" && (e.bindIp == "::" || e.bindIp == "[::]") && !sc.bindV6Only then
      if (e.proto, e.port) in wildcards then ["ip6"] else ["ip", "ip6"]
    else [e.family]
  }

  function RowFor(f: Snapshot, zone: Zone, bound: nat, e: Endpoint, family: string): Row {
    if f.ruleset.readFailed then Row(e, family, Undecided, RulesetUnread, [], None)
    else EvaluateOne(f, zone, e, family, bound)
  }

  function RowsFor(f: Snapshot, zone: Zone, bound: nat, e: Endpoint, families: seq<string>): seq<Row> {
    if families == [] then [] else [RowFor(f, zone, bound, e, families[0])] + RowsFor(f, zone, bound, e, families[1..])
  }

  function AllRows(f: Snapshot, zone: Zone, bound: nat, eps: seq<Endpoint>, wildcards: set<(string, Port)>): seq<Row> {
    if eps == [] then []
    else
      RowsFor(f, zone, bound, eps[0], FamiliesFor(eps[0], f.host.sysctls, wildcards))
      + AllRows(f, zone, bound, eps[1..], wildcards)
  }

  /** Port, then family, protocol, bind address and kind. */
  predicate RowLe(a: Row, b: Row) {
    if a.endpoint.port != b.endpoint.port then a.endpoint.port < b.endpoint.port
    else if a.family != b.family then CompareText(a.family, b.family) < 0
    else if a.endpoint.proto != b.endpoint.proto then CompareText(a.endpoint.proto, b.endpoint.proto) < 0
    else if a.endpoint.bindIp != b.endpoint.bindIp then CompareText(a.endpoint.bindIp, b.endpoint.bindIp) < 0
    else CompareText(a.endpoint.kind, b.endpoint.kind) <= 0
  }

  /** The verdict list for one enumeration of the endpoints. */
  function VerdictsOf(f: Snapshot, zone: Zone, bound: nat, eps: seq<Endpoint>): seq<Row> {
    Sort(AllRows(f, zone, bound, eps, Wildcards(eps)), RowLe)
  }

  /** `eps` lists the values of the map, each once, in any order. */
  ghost predicate Enumerates(m: EndpointMap, eps: seq<Endpoint>) {
    && (forall e :: e in eps <==> KeyOf(e) in m && m[KeyOf(e)] == e)
    && Apart(eps, (a: Endpoint, b: Endpoint) => a == b)
  }

  // ---- what the map holds --------------------------------------------------------------------------

  /** The family of an endpoint, where its kind and bind address fix it. */
  ghost predicate FamilyFixed(f: Snapshot, e: Endpoint) {
    match e.kind
    case "socket" => exists s :: s in f.sockets && s.bindIp == e.bindIp && s.family == e.family
    case "publish" => e.family == PublishFamily(f, e.bindIp)
    case _ => e.kind == "forward"
  }

  ghost predicate WellKeyed(f: Snapshot, m: EndpointMap) {
    forall k :: k in m ==> KeyOf(m[k]) == k && FamilyFixed(f, m[k])
  }

  lemma {:induction false} SocketsWellKeyed(f: Snapshot, m: EndpointMap, sockets: seq<Socket>)
    requires WellKeyed(f, m) && forall s :: s in sockets ==> s in f.sockets
    ensures WellKeyed(f, AddSockets(m, sockets))
    decreases |sockets|
  {
    if sockets != [] {
      var e := SocketEndpoint(sockets[0]);
      assert sockets[0] in f.sockets && FamilyFixed(f, e);
      SocketsWellKeyed(f, m[KeyOf(e) := e], sockets[1..]);
    }
  }

  lemma {:induction false} PublishesWellKeyed(f: Snapshot, m: EndpointMap, name: string, ps: seq<Publish>)
    requires WellKeyed(f, m)
    ensures WellKeyed(f, AddPublishes(f, m, name, ps))
    decreases |ps|
  {
    if ps != [] {
      var e := PublishEndpoint(f, name, ps[0]);
      PublishesWellKeyed(f, m[KeyOf(e) := e], name, ps[1..]);
    }
  }

  lemma {:induction false} ContainersWellKeyed(f: Snapshot, m: EndpointMap, cs: seq<Container>)
    requires WellKeyed(f, m)
    ensures WellKeyed(f, AddContainers(f, m, cs))
    decreases |cs|
  {
    if cs != [] {
      PublishesWellKeyed(f, m, cs[0].name, cs[0].publishes);
      ContainersWellKeyed(f, AddPublishes(f, m, cs[0].name, cs[0].publishes), cs[1..]);
    }
  }

  lemma {:induction false} ForwardsWellKeyed(f: Snapshot, m: EndpointMap, reported: set<(string, Port)>,
                                             rows: seq<FwdRow>)
    requires WellKeyed(f, m)
    ensures WellKeyed(f, AddForwards(m, reported, rows))
    decreases |rows|
  {
    if rows != [] {
      var e := ForwardEndpoint(rows[0]);
      if (rows[0].proto, rows[0].port) in reported {
        ForwardsWellKeyed(f, m, reported, rows[1..]);
      } else {
        ForwardsWellKeyed(f, m[KeyOf(e) := e], reported, rows[1..]);
      }
    }
  }

  lemma {:induction false} AllWellKeyed(f: Snapshot, bound: nat)
    ensures WellKeyed(f, AllEndpoints(f, bound))
  {
    SocketsWellKeyed(f, map[], f.sockets);
    ContainersWellKeyed(f, AddSockets(map[], f.sockets), f.containers);
    var m := HostEndpoints(f);
    ForwardsWellKeyed(f, m, Reported(m), ForwardRows(bound, f.ruleset).rows);
  }

  // ---- the comparator ----------------------------------------------------------------------------------

  predicate SameSortKey(a: Row, b: Row) {
    && a.endpoint.port == b.endpoint.port
    && a.family == b.family
    && a.endpoint.proto == b.endpoint.proto
    && a.endpoint.bindIp == b.endpoint.bindIp
    && a.endpoint.kind == b.endpoint.kind
  }

  lemma {:induction false} TextTransitive(a: string, b: string, c: string)
    ensures CompareText(a, b) <= 0 && CompareText(b, c) <= 0 ==> CompareText(a, c) <= 0
    ensures CompareText(a, b) < 0 && CompareText(b, c) < 0 ==> CompareText(a, c) < 0
    ensures CompareText(a, b) == 0 <==> a == b
    ensures CompareText(a, b) == -CompareText(b, a)
  {
    CompareTextOrders(a, b);
    CompareTextOrders(b, c);
    CompareTextOrders(a, c);
    if CompareText(a, b) <= 0 && CompareText(b, c) <= 0 {
      CompareTransitive(Codes(a), Codes(b), Codes(c));
    }
  }

  lemma {:induction false} RowLeTies(a: Row, b: Row)
    ensures RowLe(a, b) || RowLe(b, a)
    ensures RowLe(a, b) && RowLe(b, a) ==> SameSortKey(a, b)
  {
    CompareTextOrders(a.family, b.family);
    CompareTextOrders(a.endpoint.proto, b.endpoint.proto);
    CompareTextOrders(a.endpoint.bindIp, b.endpoint.bindIp);
    CompareTextOrders(a.endpoint.kind, b.endpoint.kind);
  }

  lemma {:induction false} RowLeIsTotal()
    ensures TotalPreorder(RowLe)
  {
    forall a: Row, b: Row ensures RowLe(a, b) || RowLe(b, a) {
      RowLeTies(a, b);
    }
    forall a: Row, b: Row, c: Row | RowLe(a, b) && RowLe(b, c) ensures RowLe(a, c) {
      TextTransitive(a.family, b.family, c.family);
      TextTransitive(a.endpoint.proto, b.endpoint.proto, c.endpoint.proto);
      TextTransitive(a.endpoint.bindIp, b.endpoint.bindIp, c.endpoint.bindIp);
      TextTransitive(a.endpoint.kind, b.endpoint.kind, c.endpoint.kind);
      TextTransitive(c.family, a.family, b.family);
      TextTransitive(c.endpoint.proto, a.endpoint.proto, b.endpoint.proto);
      TextTransitive(c.endpoint.bindIp, a.endpoint.bindIp, b.endpoint.bindIp);
    }
  }

  // ---- no two rows tie ---------------------------------------------------------------------------------

  /** Sockets with the same bind address have the same family. */
  predicate BindFixesFamily(f: Snapshot) {
    forall s, t :: s in f.sockets && t in f.sockets && s.bindIp == t.bindIp ==> s.family == t.family
  }

  lemma {:induction false} RowIsOf(f: Snapshot, zone: Zone, bound: nat, e: Endpoint, family: string)
    ensures var r := RowFor(f, zone, bound, e, family); r.endpoint == e && r.family == family
  {
    if !f.ruleset.readFailed {
      EvaluateOneIsOf(f, zone, e, family, bound);
    }
  }

  lemma {:induction false} EvaluateOneIsOf(f: Snapshot, zone: Zone, ep: Endpoint, family: string, bound: nat)
    ensures var r := EvaluateOne(f, zone, ep, family, bound); r.endpoint == ep && r.family == family
  {
    var cs := Covered(f, ep, PublicAddrs(f.host.interfaces, family));
    if cs != [] {
      BestIsOf(f, zone, ep, family, bound, AtDestination(f, zone, ep, family, bound, cs[0]), cs[1..]);
    }
  }

  lemma {:induction false} BestIsOf(f: Snapshot, zone: Zone, ep: Endpoint, family: string, bound: nat, best: Row,
                                    cs: seq<Candidate>)
    requires best.endpoint == ep && best.family == family
    ensures var r := Best(f, zone, ep, family, bound, best, cs); r.endpoint == ep && r.family == family
    decreases |cs|
  {
    if cs != [] {
      var r := AtDestination(f, zone, ep, family, bound, cs[0]);
      var winner := if Rank(r.answer) > Rank(best.answer) then r else best;
      assert winner == r || winner == best;
      BestIsOf(f, zone, ep, family, bound, winner, cs[1..]);
    }
  }

  lemma {:induction false} RowsForMembers(f: Snapshot, zone: Zone, bound: nat, e: Endpoint, families: seq<string>,
                                          r: Row)
    ensures r in RowsFor(f, zone, bound, e, families) <==>
      r.family in families && r == RowFor(f, zone, bound, e, r.family)
  {
    if families != [] {
      RowsForMembers(f, zone, bound, e, families[1..], r);
      RowIsOf(f, zone, bound, e, families[0]);
      assert families == [families[0]] + families[1..];
    }
  }

  /** The row is one the endpoint produces. */
  predicate Produces(f: Snapshot, zone: Zone, bound: nat, wildcards: set<(string, Port)>, e: Endpoint, r: Row) {
    r.family in FamiliesFor(e, f.host.sysctls, wildcards) && r == RowFor(f, zone, bound, e, r.family)
  }

  lemma {:induction false} AllRowsMembers(f: Snapshot, zone: Zone, bound: nat, eps: seq<Endpoint>,
                                          wildcards: set<(string, Port)>, r: Row)
    ensures r in AllRows(f, zone, bound, eps, wildcards) <==>
      exists e :: e in eps && Produces(f, zone, bound, wildcards, e, r)
  {
    if eps != [] {
      AllRowsMembers(f, zone, bound, eps[1..], wildcards, r);
      RowsForMembers(f, zone, bound, eps[0], FamiliesFor(eps[0], f.host.sysctls, wildcards), r);
      assert eps == [eps[0]] + eps[1..];
      assert eps[0] in eps;
      if e :| e in eps[1..] && Produces(f, zone, bound, wildcards, e, r) {
        assert e in eps;
      }
    }
  }

  /** Kind, bind address and a shared row family fix the endpoint's own family, so two endpoints
      of the map that produce rows with one sort key are one endpoint. */
  lemma {:induction false} OneSourceOfRow(f: Snapshot, m: EndpointMap, w: set<(string, Port)>, e: Endpoint,
                                          e': Endpoint, family: string)
    requires WellKeyed(f, m) && BindFixesFamily(f)
    requires KeyOf(e) in m && m[KeyOf(e)] == e && KeyOf(e') in m && m[KeyOf(e')] == e'
    requires e.port == e'.port && e.proto == e'.proto && e.bindIp == e'.bindIp && e.kind == e'.kind
    requires family in FamiliesFor(e, f.host.sysctls, w) && family in FamiliesFor(e', f.host.sysctls, w)
    ensures e == e'
  {
    assert FamilyFixed(f, m[KeyOf(e)]) && FamilyFixed(f, m[KeyOf(e')]);
    assert e.family == e'.family;
  }

  lemma {:induction false} RowsForApart(f: Snapshot, zone: Zone, bound: nat, e: Endpoint, w: set<(string, Port)>)
    ensures Apart(RowsFor(f, zone, bound, e, FamiliesFor(e, f.host.sysctls, w)), SameSortKey)
  {
    var families := FamiliesFor(e, f.host.sysctls, w);
    RowIsOf(f, zone, bound, e, families[0]);
    if |families| == 2 {
      RowIsOf(f, zone, bound, e, families[1]);
      var tail := families[1..];
      assert tail[0] == families[1] && tail[1..] == [];
      assert RowsFor(f, zone, bound, e, tail[1..]) == [];
      assert RowsFor(f, zone, bound, e, tail) == [RowFor(f, zone, bound, e, tail[0])];
      assert families[0] == "ip" && families[1] == "ip6";
    } else {
      assert families[1..] == [];
    }
  }

  lemma {:induction false} AllRowsApart(f: Snapshot, zone: Zone, bound: nat, m: EndpointMap, eps: seq<Endpoint>,
                                        w: set<(string, Port)>)
    requires WellKeyed(f, m) && BindFixesFamily(f)
    requires forall e :: e in eps ==> KeyOf(e) in m && m[KeyOf(e)] == e
    requires Apart(eps, (a: Endpoint, b: Endpoint) => a == b)
    ensures Apart(AllRows(f, zone, bound, eps, w), SameSortKey)
  {
    if eps != [] {
      var families := FamiliesFor(eps[0], f.host.sysctls, w);
      var here, rest := RowsFor(f, zone, bound, eps[0], families), AllRows(f, zone, bound, eps[1..], w);
      RowsForApart(f, zone, bound, eps[0], w);
      AllRowsApart(f, zone, bound, m, eps[1..], w);
      forall i, j | 0 <= i < |here| && 0 <= j < |rest| ensures !SameSortKey(here[i], rest[j]) {
        RowsForMembers(f, zone, bound, eps[0], families, here[i]);
        AllRowsMembers(f, zone, bound, eps[1..], w, rest[j]);
        assert here[i] in here && rest[j] in rest;
        var e :| e in eps[1..] && Produces(f, zone, bound, w, e, rest[j]);
        RowIsOf(f, zone, bound, eps[0], here[i].family);
        RowIsOf(f, zone, bound, e, rest[j].family);
        var k :| 0 <= k < |eps[1..]| && eps[1..][k] == e;
        assert eps[0] != eps[k + 1];
        if SameSortKey(here[i], rest[j]) {
          OneSourceOfRow(f, m, w, eps[0], e, here[i].family);
        }
      }
    }
  }

  /** On the verdicts produced the comparator is a strict total order: sorted, with no ties. */
  lemma {:induction false} VerdictsAscend(f: Snapshot, zone: Zone, bound: nat, eps: seq<Endpoint>)
    requires BindFixesFamily(f) && Enumerates(AllEndpoints(f, bound), eps)
    ensures Ascending(VerdictsOf(f, zone, bound, eps), RowLe)
    ensures forall r :: r in VerdictsOf(f, zone, bound, eps) <==> r in AllRows(f, zone, bound, eps, Wildcards(eps))
  {
    var rows, sorted := AllRows(f, zone, bound, eps, Wildcards(eps)), VerdictsOf(f, zone, bound, eps);
    AllWellKeyed(f, bound);
    AllRowsApart(f, zone, bound, AllEndpoints(f, bound), eps, Wildcards(eps));
    RowLeIsTotal();
    SortSorts(rows, RowLe);
    SortPermutes(rows, RowLe);
    SameMembers(rows, sorted);
    ApartIsOrderFree(rows, sorted, SameSortKey);
    forall i, j | 0 <= i < j < |sorted| ensures RowLe(sorted[i], sorted[j]) && !RowLe(sorted[j], sorted[i]) {
      RowLeTies(sorted[i], sorted[j]);
      assert !SameSortKey(sorted[i], sorted[j]);
    }
  }

  /** However the endpoint map is enumerated, the verdict list is the same. */
  lemma {:induction false} OutputIsDeterministic(f: Snapshot, zone: Zone, bound: nat, eps: seq<Endpoint>,
                                                 eps': seq<Endpoint>)
    requires BindFixesFamily(f)
    requires Enumerates(AllEndpoints(f, bound), eps) && Enumerates(AllEndpoints(f, bound), eps')
    ensures VerdictsOf(f, zone, bound, eps') == VerdictsOf(f, zone, bound, eps)
  {
    assert forall e :: e in eps <==> e in eps';
    assert Wildcards(eps) == Wildcards(eps');
    VerdictsAscend(f, zone, bound, eps);
    VerdictsAscend(f, zone, bound, eps');
    forall r ensures r in VerdictsOf(f, zone, bound, eps) <==> r in VerdictsOf(f, zone, bound, eps') {
      AllRowsMembers(f, zone, bound, eps, Wildcards(eps), r);
      AllRowsMembers(f, zone, bound, eps', Wildcards(eps), r);
    }
    AscendingUnique(VerdictsOf(f, zone, bound, eps'), VerdictsOf(f, zone, bound, eps), RowLe);
  }

  /** `Evaluate`: enumerate the endpoints in any order, evaluate every family of each, sort. */
  method Evaluate(f: Snapshot, zone: Zone, bound: nat) returns (out: seq<Row>)
    ensures exists eps :: Enumerates(AllEndpoints(f, bound), eps) && out == VerdictsOf(f, zone, bound, eps)
    ensures BindFixesFamily(f) ==>
      forall eps :: Enumerates(AllEndpoints(f, bound), eps) ==> out == VerdictsOf(f, zone, bound, eps)
  {
    var m := MergeEndpoints(f, bound);
    AllWellKeyed(f, bound);
    var eps := Enumerate(f, m);
    var wildcards := Wildcards(eps);
    out := [];
    assert eps[0..] == eps;
    for i := 0 to |eps|
      invariant out + AllRows(f, zone, bound, eps[i..], wildcards) == AllRows(f, zone, bound, eps, wildcards)
    {
      var e := eps[i];
      assert eps[i..][0] == e && eps[i..][1..] == eps[i + 1..];
      var families := FamiliesFor(e, f.host.sysctls, wildcards);
      ghost var later := AllRows(f, zone, bound, eps[i + 1..], wildcards);
      ghost var before := out;
      ConcatAssociates(out, RowsFor(f, zone, bound, e, families), later);
      assert families[0..] == families;
      for j := 0 to |families|
        invariant out + RowsFor(f, zone, bound, e, families[j..]) == before + RowsFor(f, zone, bound, e, families)
      {
        assert families[j..][0] == families[j] && families[j..][1..] == families[j + 1..];
        ConcatAssociates(out, [RowFor(f, zone, bound, e, families[j])], RowsFor(f, zone, bound, e, families[j + 1..]));
        if f.ruleset.readFailed {
          out := out + [Row(e, families[j], Undecided, RulesetUnread, [], None)];
        } else {
          var row := EvaluateEndpoint(f, zone, e, families[j], bound);
          out := out + [row];
        }
      }
      assert families[|families|..] == [];
      assert out == before + RowsFor(f, zone, bound, e, families);
    }
    assert eps[|eps|..] == [];
    assert out + [] == out;
    out := Sort(out, RowLe);
    assert out == VerdictsOf(f, zone, bound, eps);
    if BindFixesFamily(f) {
      forall eps' | Enumerates(AllEndpoints(f, bound), eps') ensures out == VerdictsOf(f, zone, bound, eps') {
        OutputIsDeterministic(f, zone, bound, eps, eps');
      }
    }
  }

  /** Ranging over a map: its values come in whatever order they come. */
  method Enumerate(f: Snapshot, m: EndpointMap) returns (eps: seq<Endpoint>)
    requires WellKeyed(f, m)
    ensures Enumerates(m, eps)
  {
    eps := [];
    var left := m.Keys;
    while left != {}
      invariant left <= m.Keys
      invariant forall e :: e in eps <==> KeyOf(e) in m && m[KeyOf(e)] == e && KeyOf(e) !in left
      invariant Apart(eps, (a: Endpoint, b: Endpoint) => a == b)
      decreases left
    {
      var k :| k in left;
      assert KeyOf(m[k]) == k && m[k] !in eps;
      left := left - {k};
      eps := eps + [m[k]];
    }
  }
}
