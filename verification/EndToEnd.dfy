/** What a row claims about the real packet, over both hooks, every public address and every
    meaning of what could not be resolved. */
module EndToEnd {
  import opened Wrappers
  import opened Facts
  import opened Matcher
  import opened Traversal
  import opened Machine
  import opened Completion
  import opened Evaluation

  /** Under schedule `o`, the machine with no nesting limit gives this packet this judgement on
      this hook. */
  ghost predicate Judges(f: Snapshot, family: string, bound: nat, hook: string, pkt: Packet, o: Schedule,
                         j: Judgement) {
    var cx := PacketContext(f.ruleset, family, bound, pkt);
    exists n: nat, hits ::
      RunUnder(cx, ScheduledMatchers(f.ruleset, family, pkt, o), 0, n, Load(cx, hook)) == Halted(j, hits)
  }

  /** The second hook, after a rewrite: input when the target is local, forward when the kernel
      routes the packet on. */
  ghost predicate SecondJudges(f: Snapshot, family: string, bound: nat, c: Candidate, pkt: Packet, t: Target,
                               o: Schedule, accept: bool) {
    var pkt1 := Rewritten(f, pkt, t);
    if pkt1.dstIsLocal then JudgesAs(f, family, bound, "input", pkt1, o, accept)
    else
      var out := IfaceFor(f.host.interfaces, t.ip);
      Forwarding(f.host, c.iface, family) && out.Some?
        && JudgesAs(f, family, bound, "forward", Routed(f, pkt1, out.value), o, accept)
  }

  ghost predicate JudgesAs(f: Snapshot, family: string, bound: nat, hook: string, pkt: Packet, o: Schedule,
                           accept: bool) {
    if accept then exists d :: Judges(f, family, bound, hook, pkt, o, JAccept(d))
    else Judges(f, family, bound, hook, pkt, o, JDrop)
  }

  /** The packet is stopped at this address: dropped by a hook, not rewritten although the row is
      a forwarded port, or not routed on because forwarding is off. */
  ghost predicate Stopped(f: Snapshot, zone: Zone, ep: Endpoint, family: string, bound: nat, c: Candidate,
                          pre: Schedule, post: Schedule) {
    var pkt := FirstPacket(f, zone, ep, family, c);
    || Judges(f, family, bound, "prerouting", pkt, pre, JDrop)
    || (Judges(f, family, bound, "prerouting", pkt, pre, JAccept(None)) &&
        (ep.kind == "forward" || JudgesAs(f, family, bound, "input", pkt, post, false)))
    || exists t :: Judges(f, family, bound, "prerouting", pkt, pre, JAccept(Some(t))) &&
        ((!IsLocal(f.host, t.ip) && !Forwarding(f.host, c.iface, family)) || SecondJudges(f, family, bound, c, pkt, t,
                          post, false))
  }

  /** The packet gets through at this address: both hooks accept it, the second with the packet
      the first one rewrote. */
  ghost predicate GetsThrough(f: Snapshot, zone: Zone, ep: Endpoint, family: string, bound: nat, c: Candidate,
                              pre: Schedule, post: Schedule) {
    var pkt := FirstPacket(f, zone, ep, family, c);
    || (ep.kind != "forward" && Judges(f, family, bound, "prerouting", pkt, pre, JAccept(None))
        && JudgesAs(f, family, bound, "input", pkt, post, true))
    || exists t :: Judges(f, family, bound, "prerouting", pkt, pre, JAccept(Some(t)))
        && SecondJudges(f, family, bound, c, pkt, t, post, true)
  }

  ghost predicate AlwaysStopped(f: Snapshot, zone: Zone, ep: Endpoint, family: string, bound: nat, c: Candidate) {
    forall pre, post :: Stopped(f, zone, ep, family, bound, c, pre, post)
  }

  ghost predicate AlwaysThrough(f: Snapshot, zone: Zone, ep: Endpoint, family: string, bound: nat, c: Candidate) {
    forall pre, post :: GetsThrough(f, zone, ep, family, bound, c, pre, post)
  }

  lemma {:induction false} OneJudgement(f: Snapshot, family: string, bound: nat, hook: string, pkt: Packet,
                                        o: Schedule, j: Judgement, k: Judgement)
    requires Judges(f, family, bound, hook, pkt, o, j) && Judges(f, family, bound, hook, pkt, o, k)
    ensures j == k
  {
    var cx, ms := PacketContext(f.ruleset, family, bound, pkt), ScheduledMatchers(f.ruleset, family, pkt, o);
    var c := Load(cx, hook);
    var m: nat, g :| RunUnder(cx, ms, 0, m, c) == Halted(j, g);
    var n: nat, h :| RunUnder(cx, ms, 0, n, c) == Halted(k, h);
    HaltsOnce(cx, ms, 0, m, n, c);
  }

  lemma {:induction false} NotBothWays(f: Snapshot, family: string, bound: nat, hook: string, pkt: Packet, o: Schedule)
    ensures !(JudgesAs(f, family, bound, hook, pkt, o, true) && JudgesAs(f, family, bound, hook, pkt, o, false))
  {
    if JudgesAs(f, family, bound, hook, pkt, o, true) && JudgesAs(f, family, bound, hook, pkt, o, false) {
      var d :| Judges(f, family, bound, hook, pkt, o, JAccept(d));
      OneJudgement(f, family, bound, hook, pkt, o, JAccept(d), JDrop);
    }
  }

  /** Under one pair of schedules a packet is never both stopped and let through. */
  lemma {:induction false} StoppedOrThrough(f: Snapshot, zone: Zone, ep: Endpoint, family: string, bound: nat,
                                            c: Candidate,
                                            pre: Schedule, post: Schedule)
    ensures !(Stopped(f, zone, ep, family, bound, c, pre, post) &&
      GetsThrough(f, zone, ep, family, bound, c, pre, post))
  {
    var pkt := FirstPacket(f, zone, ep, family, c);
    forall j, k | Judges(f, family, bound, "prerouting", pkt, pre, j) &&
      Judges(f, family, bound, "prerouting", pkt, pre, k)
      ensures j == k
    {
      OneJudgement(f, family, bound, "prerouting", pkt, pre, j, k);
    }
    NotBothWays(f, family, bound, "input", pkt, post);
    forall t ensures !(SecondJudges(f, family, bound, c, pkt, t, post, true) &&
      SecondJudges(f, family, bound, c, pkt, t, post, false)) {
      var pkt1 := Rewritten(f, pkt, t);
      NotBothWays(f, family, bound, "input", pkt1, post);
      var out := IfaceFor(f.host.interfaces, t.ip);
      if out.Some? {
        NotBothWays(f, family, bound, "forward", Routed(f, pkt1, out.value), post);
      }
    }
  }

  // ---- one address -----------------------------------------------------------------------------

  /** A decided hook is decided alike under every schedule. */
  lemma {:induction false} HookIsSound(f: Snapshot, family: string, bound: nat, hook: string, pkt: Packet, o: Schedule)
    requires JumpsAreRegular(f.ruleset, family) && Decided(Hook(f, family, bound, hook, pkt).result)
    ensures Judges(f, family, bound, hook, pkt, o, JudgementOf(Hook(f, family, bound, hook, pkt).result))
  {
    WrittenJumpsAreRegular(f.ruleset, family, bound, pkt);
    DecidedInEveryCompletion(f.ruleset, family, hook, pkt, bound, o);
  }

  /** A decided row speaks for the second hook under every schedule. */
  lemma {:induction false} RewriteIsSound(f: Snapshot, ep: Endpoint, family: string, bound: nat, c: Candidate,
                                          pkt: Packet, t: Target,
                                          path: seq<Hit>, post: Schedule)
    requires JumpsAreRegular(f.ruleset, family)
    ensures var row := AfterRewrite(f, ep, family, bound, c, pkt, t, path);
      && (row.answer == Filtered ==>
        (!IsLocal(f.host, t.ip) && !Forwarding(f.host, c.iface, family)) ||
          SecondJudges(f, family, bound, c, pkt, t, post, false))
      && (row.answer == Reachable ==> SecondJudges(f, family, bound, c, pkt, t, post, true))
  {
    var pkt1 := Rewritten(f, pkt, t);
    if pkt1.dstIsLocal {
      if Decided(Hook(f, family, bound, "input", pkt1).result) {
        HookIsSound(f, family, bound, "input", pkt1, post);
      }
    } else if Forwarding(f.host, c.iface, family) {
      var out := IfaceFor(f.host.interfaces, t.ip);
      if out.Some? && Decided(Hook(f, family, bound, "forward", Routed(f, pkt1, out.value)).result) {
        HookIsSound(f, family, bound, "forward", Routed(f, pkt1, out.value), post);
      }
    }
  }

  lemma {:induction false} AddressIsSound(f: Snapshot, zone: Zone, ep: Endpoint, family: string, bound: nat,
                                          c: Candidate,
                                          pre: Schedule, post: Schedule)
    requires JumpsAreRegular(f.ruleset, family)
    ensures AtDestination(f, zone, ep, family, bound, c).answer == Filtered ==>
      Stopped(f, zone, ep, family, bound, c, pre, post)
    ensures AtDestination(f, zone, ep, family, bound, c).answer == Reachable ==>
      GetsThrough(f, zone, ep, family, bound, c, pre, post)
  {
    var pkt := FirstPacket(f, zone, ep, family, c);
    var first := Hook(f, family, bound, "prerouting", pkt);
    if Decided(first.result) {
      HookIsSound(f, family, bound, "prerouting", pkt, pre);
      if first.result.Accepted? {
        if first.result.dnat.Some? {
          RewriteIsSound(f, ep, family, bound, c, pkt, first.result.dnat.value, first.hits, post);
        } else if ep.kind != "forward" && Decided(Hook(f, family, bound, "input", pkt).result) {
          HookIsSound(f, family, bound, "input", pkt, post);
        }
      }
    }
  }

  // ---- every address --------------------------------------------------------------------------------

  /** The winner is one of the rows, no row is stronger, and it is the first of its strength. */
  lemma {:induction false} BestIsStrongest(f: Snapshot, zone: Zone, ep: Endpoint, family: string, bound: nat,
                                           best: Row, cs: seq<Candidate>)
    ensures var row := Best(f, zone, ep, family, bound, best, cs);
      && Rank(best.answer) <= Rank(row.answer)
      && (forall c :: c in cs ==> Rank(AtDestination(f, zone, ep, family, bound, c).answer) <= Rank(row.answer))
      && (row == best || exists c :: c in cs && row == AtDestination(f, zone, ep, family, bound, c))
    decreases |cs|
  {
    if cs != [] {
      var r := AtDestination(f, zone, ep, family, bound, cs[0]);
      BestIsStrongest(f, zone, ep, family, bound, if Rank(r.answer) > Rank(best.answer) then r else best, cs[1..]);
      assert cs == [cs[0]] + cs[1..];
    }
  }

  lemma {:induction false} CoveredMembers(f: Snapshot, ep: Endpoint, cs: seq<Candidate>, c: Candidate)
    ensures c in Covered(f, ep, cs) <==> c in cs && BindCovers(f, ep.bindIp, c.ip)
  {
    if cs != [] {
      CoveredMembers(f, ep, cs[1..], c);
      assert cs == [cs[0]] + cs[1..];
    }
  }

  /** The public addresses of the family the bind covers. */
  ghost predicate Answers(f: Snapshot, ep: Endpoint, family: string, c: Candidate) {
    c in PublicAddrs(f.host.interfaces, family) && BindCovers(f, ep.bindIp, c.ip)
  }

  /** The row of an endpoint is that of one covered address, and none is stronger. */
  lemma {:induction false} StrongestCovered(f: Snapshot, zone: Zone, ep: Endpoint, family: string, bound: nat,
                                            cs: seq<Candidate>) returns (c: Candidate)
    requires cs != []
    ensures var row := Best(f, zone, ep, family, bound, AtDestination(f, zone, ep, family, bound, cs[0]), cs[1..]);
      && c in cs && row == AtDestination(f, zone, ep, family, bound, c)
      && forall d :: d in cs ==> Rank(AtDestination(f, zone, ep, family, bound, d).answer) <= Rank(row.answer)
  {
    var first := AtDestination(f, zone, ep, family, bound, cs[0]);
    BestIsStrongest(f, zone, ep, family, bound, first, cs[1..]);
    assert cs == [cs[0]] + cs[1..];
    var row := Best(f, zone, ep, family, bound, first, cs[1..]);
    if row == first {
      c := cs[0];
    } else {
      c :| c in cs[1..] && row == AtDestination(f, zone, ep, family, bound, c);
    }
  }

  lemma {:induction false} OneSpeaksForAll(f: Snapshot, zone: Zone, ep: Endpoint, family: string, bound: nat)
    ensures var row := EvaluateOne(f, zone, ep, family, bound);
      && (row.answer == Filtered ==> forall c :: Answers(f, ep, family, c) ==>
            AtDestination(f, zone, ep, family, bound, c).answer == Filtered)
      && (row.answer == Reachable ==>
            exists c :: Answers(f, ep, family, c) && AtDestination(f, zone, ep, family, bound, c).answer == Reachable)
  {
    var all := PublicAddrs(f.host.interfaces, family);
    var cs := Covered(f, ep, all);
    forall c ensures c in cs <==> Answers(f, ep, family, c) {
      CoveredMembers(f, ep, all, c);
    }
    if cs != [] {
      var c := StrongestCovered(f, zone, ep, family, bound, cs);
    }
  }

  /** "filtered": at every public address the bind covers, the packet is stopped, whatever the
      unresolved parts mean. "reachable": at one covered address it gets through, whatever they
      mean. */
  lemma {:induction false} RowIsSound(f: Snapshot, zone: Zone, ep: Endpoint, family: string, bound: nat)
    requires JumpsAreRegular(f.ruleset, family)
    ensures EvaluateOne(f, zone, ep, family, bound).answer == Filtered ==>
      forall c :: Answers(f, ep, family, c) ==> AlwaysStopped(f, zone, ep, family, bound, c)
    ensures EvaluateOne(f, zone, ep, family, bound).answer == Reachable ==>
      exists c :: Answers(f, ep, family, c) && AlwaysThrough(f, zone, ep, family, bound, c)
  {
    OneSpeaksForAll(f, zone, ep, family, bound);
    forall c, pre, post
      ensures AtDestination(f, zone, ep, family, bound, c).answer == Filtered ==>
        Stopped(f, zone, ep, family, bound, c, pre, post)
      ensures AtDestination(f, zone, ep, family, bound, c).answer == Reachable ==>
        GetsThrough(f, zone, ep, family, bound, c, pre, post)
    {
      AddressIsSound(f, zone, ep, family, bound, c, pre, post);
    }
  }
}
