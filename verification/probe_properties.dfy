/** Properties of the HULA probe engine: the behaviour of each branch of
    handleProbe, the invariants it keeps, and how it fits the link
    registry. */
module ProbeProperties {
  import opened Wrappers
  import opened Utils
  import opened HulaTypes
  import opened Links
  import opened Probes

  /** Every best-hop entry points at a next hop joined to the router by a
      link, and its capacity does not exceed that link's capacity. */
  predicate CapacityDominated(r: Router, links: LinkBase) {
    forall d :: d in r.bestHopsTable ==>
      && GetLink(links, r.id, r.bestHopsTable[d].upperHop).Some?
      && r.bestHopsTable[d].capacity <= LinkCap(links, r.id, r.bestHopsTable[d].upperHop)
  }

  /** The outbox holds exactly one message per neighbour, in neighbour
      order, announcing `dest` at distance `dis` with `bls` clamped to
      the capacity of the link to that neighbour. */
  predicate FloodOf(out: seq<Message>, r: Router, links: LinkBase, dest: RouterID, dis: int, bls: int)
    requires NeighborsLinked(r, links)
  {
    && |out| == |r.neighbors|
    && forall i :: 0 <= i < |out| ==>
         out[i] == Message(r.neighbors[i], Probe(dest, r.id, dis, Min(bls, LinkCap(links, r.id, r.neighbors[i]))))
  }

  predicate AllSendable(r: Router, links: LinkBase, known: set<RouterID>) {
    forall n :: n in r.neighbors ==> Sendable(links, known, r.id, n)
  }

  /** A probe about the receiving router itself changes nothing and emits nothing. */
  lemma SelfProbeIgnored(r: Router, links: LinkBase, known: set<RouterID>, p: Probe, now: int)
    requires p.dest == r.id
    ensures HandleProbe(r, links, known, p, now) == Success((r, []))
  {
  }

  /** First discovery of a destination: a new entry through the sender, the
      announce stamp set to `now`, and an immediate flood to all neighbours. */
  lemma FirstDiscovery(r: Router, links: LinkBase, known: set<RouterID>, p: Probe, now: int)
    requires p.dest != r.id && p.dest !in r.bestHopsTable
    requires AllSendable(r, links, known)
    ensures var res := HandleProbe(r, links, known, p, now);
      && res.Success?
      && res.value.0.bestHopsTable == r.bestHopsTable[p.dest := HopTableEntry(p.upper, p.pathDis + 1, p.pathBls, false)]
      && res.value.0.probeUpdateTable == r.probeUpdateTable[p.dest := now]
      && FloodOf(res.value.1, r, links, p.dest, p.pathDis + 1, p.pathBls)
  {
  }

  /** First discovery fails exactly when some neighbour cannot be sent to;
      the error names the first such neighbour. */
  lemma FirstDiscoveryFailure(r: Router, links: LinkBase, known: set<RouterID>, p: Probe, now: int)
    requires p.dest != r.id && p.dest !in r.bestHopsTable
    requires !AllSendable(r, links, known)
    ensures var res := HandleProbe(r, links, known, p, now);
      && res.Failure?
      && exists i :: 0 <= i < |r.neighbors| && !Sendable(links, known, r.id, r.neighbors[i])
           && res.error == SendError(links, r.id, r.neighbors[i])
           && (forall j :: 0 <= j < i ==> Sendable(links, known, r.id, r.neighbors[j]))
  {
  }

  /** A probe from the current next hop is always accepted, even when the
      path got longer or its capacity smaller: the next hop stays, the
      distance and clamped capacity are taken from the probe. Handling can
      fail only in the send loop, so only when some neighbour cannot be
      sent to. */
  lemma RefreshFromUpperHop(r: Router, links: LinkBase, known: set<RouterID>, p: Probe, now: int)
    requires p.dest != r.id && p.dest in r.bestHopsTable && p.dest in r.probeUpdateTable
    requires r.bestHopsTable[p.dest].upperHop == p.upper
    requires GetLink(links, r.id, p.upper).Some?
    ensures var res := HandleProbe(r, links, known, p, now);
      res.Failure? ==> !AllSendable(r, links, known)
    ensures var res := HandleProbe(r, links, known, p, now);
      res.Success? ==>
      && res.value.0.bestHopsTable[p.dest].upperHop == p.upper
      && res.value.0.bestHopsTable[p.dest].dis == p.pathDis + 1
      && res.value.0.bestHopsTable[p.dest].capacity == Min(LinkCap(links, r.id, p.upper), p.pathBls)
  {
  }

  /** A probe from another sender replaces the route iff it is preferred
      (strictly fewer hops, or as many hops and strictly more capacity);
      otherwise the route is kept. Hence on this branch the distance never
      grows and, at equal distance, the capacity never shrinks. */
  lemma SwitchRule(r: Router, links: LinkBase, known: set<RouterID>, p: Probe, now: int)
    requires p.dest != r.id && p.dest in r.bestHopsTable
    requires r.bestHopsTable[p.dest].upperHop != p.upper
    requires HandleProbe(r, links, known, p, now).Success?
    ensures var e := r.bestHopsTable[p.dest];
      var e' := HandleProbe(r, links, known, p, now).value.0.bestHopsTable[p.dest];
      && (Preferred(p, e) ==> e'.upperHop == p.upper && e'.dis == p.pathDis + 1 && e'.capacity == p.pathBls)
      && (!Preferred(p, e) ==> e'.upperHop == e.upperHop && e'.dis == e.dis && e'.capacity == e.capacity)
      && e'.dis <= e.dis
      && (e'.dis == e.dis ==> e'.capacity >= e.capacity)
  {
  }

  /** The re-announcement rule for a known destination: when the updated
      entry is dirty and the last announcement is at least `UpdateWindow`
      old, flood it, stamp `now` and clear the dirty flag (failing iff some
      neighbour cannot be sent to); otherwise succeed, emit nothing and
      keep the stamp. */
  lemma ReannounceRule(r: Router, links: LinkBase, known: set<RouterID>, p: Probe, now: int)
    requires p.dest != r.id && p.dest in r.bestHopsTable && p.dest in r.probeUpdateTable
    requires UpdateEntry(links, r.id, p, r.bestHopsTable[p.dest]).Success?
    ensures var e := UpdateEntry(links, r.id, p, r.bestHopsTable[p.dest]).value;
      var res := HandleProbe(r, links, known, p, now);
      AnnounceDue(e, r.probeUpdateTable[p.dest], now) ==>
        && (res.Success? <==> AllSendable(r, links, known))
        && (res.Success? ==>
              && res.value.0.bestHopsTable[p.dest] == e.(updated := false)
              && res.value.0.probeUpdateTable[p.dest] == now
              && FloodOf(res.value.1, r, links, p.dest, e.dis, e.capacity))
    ensures var e := UpdateEntry(links, r.id, p, r.bestHopsTable[p.dest]).value;
      var res := HandleProbe(r, links, known, p, now);
      !AnnounceDue(e, r.probeUpdateTable[p.dest], now) ==>
        && res.Success?
        && res.value.0.bestHopsTable[p.dest] == e
        && res.value.0.probeUpdateTable == r.probeUpdateTable
        && res.value.1 == []
  {
  }

  /** A known destination without an announce stamp is a fatal error. */
  lemma MissingStampIsError(r: Router, links: LinkBase, known: set<RouterID>, p: Probe, now: int)
    requires p.dest != r.id && p.dest in r.bestHopsTable && p.dest !in r.probeUpdateTable
    requires UpdateEntry(links, r.id, p, r.bestHopsTable[p.dest]).Success?
    ensures HandleProbe(r, links, known, p, now) == Failure(MissingUpdateStamp(p.dest))
  {
  }

  /** handleProbe keeps the two tables on the same key set, so the
      missing-stamp error cannot occur while they agree. */
  lemma TablesAgreePreserved(r: Router, links: LinkBase, known: set<RouterID>, p: Probe, now: int)
    requires TablesAgree(r)
    ensures var res := HandleProbe(r, links, known, p, now);
      && (res.Success? ==> TablesAgree(res.value.0))
      && res != Failure(MissingUpdateStamp(p.dest))
  {
    var res := HandleProbe(r, links, known, p, now);
    if res.Success? {
      var r' := res.value.0;
      assert r'.bestHopsTable.Keys == r'.probeUpdateTable.Keys by {
        if p.dest != r.id {
          assert r'.bestHopsTable.Keys == r.bestHopsTable.Keys + {p.dest};
          assert r'.probeUpdateTable.Keys == r.probeUpdateTable.Keys + {p.dest};
        }
      }
    }
  }

  /** Capacity domination is kept by handleProbe when the probe arrived
      over a link whose capacity bounds the probe's bottleneck. */
  lemma CapacityDominationPreserved(r: Router, links: LinkBase, known: set<RouterID>, p: Probe, now: int)
    requires CapacityDominated(r, links)
    requires GetLink(links, r.id, p.upper).Some? && p.pathBls <= LinkCap(links, r.id, p.upper)
    requires HandleProbe(r, links, known, p, now).Success?
    ensures CapacityDominated(HandleProbe(r, links, known, p, now).value.0, links)
  {
    var r' := HandleProbe(r, links, known, p, now).value.0;
    forall d | d in r'.bestHopsTable
      ensures GetLink(links, r'.id, r'.bestHopsTable[d].upperHop).Some?
      ensures r'.bestHopsTable[d].capacity <= LinkCap(links, r'.id, r'.bestHopsTable[d].upperHop)
    {
      if d == p.dest && p.dest != r.id && p.dest in r.bestHopsTable {
        var e := r.bestHopsTable[p.dest];
        if e.upperHop != p.upper && !Preferred(p, e) {
          assert r'.bestHopsTable[d].upperHop == e.upperHop;
        }
      }
    }
  }

  /** Every probe handleProbe emits goes to a neighbour, names the router
      as its sender, and carries no more capacity than the link it is sent
      over. */
  lemma EmittedProbesClamped(r: Router, links: LinkBase, known: set<RouterID>, p: Probe, now: int)
    requires HandleProbe(r, links, known, p, now).Success?
    ensures var out := HandleProbe(r, links, known, p, now).value.1;
      forall i :: 0 <= i < |out| ==>
        && out[i].to in r.neighbors
        && out[i].probe.upper == r.id
        && GetLink(links, r.id, out[i].to).Some?
        && out[i].probe.pathBls <= LinkCap(links, r.id, out[i].to)
  {
    var res := HandleProbe(r, links, known, p, now);
    var out := res.value.1;
    if p.dest != r.id && out != [] {
      var dis, bls;
      if p.dest !in r.bestHopsTable {
        dis, bls := p.pathDis + 1, p.pathBls;
      } else {
        var e := UpdateEntry(links, r.id, p, r.bestHopsTable[p.dest]).value;
        dis, bls := e.dis, e.capacity;
      }
      assert Announce(links, known, r.id, r.neighbors, p.dest, dis, bls) == Success(out);
    }
  }

  /** Once handleProbe has emitted something for a destination, the stamp
      of that destination is the current time. */
  lemma AnnouncementStamps(r: Router, links: LinkBase, known: set<RouterID>, p: Probe, now: int)
    requires HandleProbe(r, links, known, p, now).Success?
    requires HandleProbe(r, links, known, p, now).value.1 != []
    ensures var r' := HandleProbe(r, links, known, p, now).value.0;
      p.dest in r'.probeUpdateTable && r'.probeUpdateTable[p.dest] == now
  {
  }

  /** Within `UpdateWindow` of the last announcement of a known destination
      handleProbe emits nothing and leaves the stamp as it was. */
  lemma QuietWithinWindow(r: Router, links: LinkBase, known: set<RouterID>, p: Probe, now: int)
    requires p.dest in r.bestHopsTable && p.dest in r.probeUpdateTable
    requires now - r.probeUpdateTable[p.dest] < UpdateWindow
    requires HandleProbe(r, links, known, p, now).Success?
    ensures var res := HandleProbe(r, links, known, p, now).value;
      res.1 == [] && res.0.probeUpdateTable == r.probeUpdateTable
  {
  }

  /** Suppression window: two probes about one destination handled less
      than `UpdateWindow` apart produce at most one announcement. */
  lemma {:induction false} SuppressionWindow(r: Router, links: LinkBase, known: set<RouterID>,
                                             p1: Probe, t1: int, p2: Probe, t2: int)
    requires HandleProbe(r, links, known, p1, t1).Success?
    requires HandleProbe(r, links, known, p1, t1).value.1 != []
    requires p2.dest == p1.dest && t2 - t1 < UpdateWindow
    ensures var r1 := HandleProbe(r, links, known, p1, t1).value.0;
      var res := HandleProbe(r1, links, known, p2, t2);
      res.Success? ==> res.value.1 == []
  {
    var r1 := HandleProbe(r, links, known, p1, t1).value.0;
    AnnouncementStamps(r, links, known, p1, t1);
    if p2.dest != r1.id {
      assert p1.dest in r1.bestHopsTable;
      if HandleProbe(r1, links, known, p2, t2).Success? {
        QuietWithinWindow(r1, links, known, p2, t2);
      }
    }
  }

  /** A router of a well-formed registry handles any probe that arrived
      over a link without error, as long as its tables agree: every
      neighbour has a link and a directory entry. */
  lemma WellFormedRegistryNeverFails(reg: Registry, id: RouterID, p: Probe, now: int)
    requires WellFormed(reg) && id in reg.routers
    requires TablesAgree(reg.routers[id])
    requires GetLink(reg.links, id, p.upper).Some?
    ensures HandleProbe(reg.routers[id], reg.links, reg.routers.Keys, p, now).Success?
  {
    var r := reg.routers[id];
    assert AllSendable(r, reg.links, reg.routers.Keys);
    TablesAgreePreserved(r, reg.links, reg.routers.Keys, p, now);
  }

  /** A probe a router of a well-formed registry emits reaches a registered
      router that sees a link back to the sender, whose capacity bounds the
      probe's bottleneck: the receiver's capacity-domination precondition. */
  lemma DeliveredProbesAdmissible(reg: Registry, id: RouterID, p: Probe, now: int)
    requires WellFormed(reg) && id in reg.routers
    requires HandleProbe(reg.routers[id], reg.links, reg.routers.Keys, p, now).Success?
    ensures var out := HandleProbe(reg.routers[id], reg.links, reg.routers.Keys, p, now).value.1;
      forall i :: 0 <= i < |out| ==>
        && out[i].to in reg.routers
        && out[i].probe.upper == id
        && GetLink(reg.links, out[i].to, id).Some?
        && out[i].probe.pathBls <= LinkCap(reg.links, out[i].to, id)
  {
    var out := HandleProbe(reg.routers[id], reg.links, reg.routers.Keys, p, now).value.1;
    EmittedProbesClamped(reg.routers[id], reg.links, reg.routers.Keys, p, now);
    forall i | 0 <= i < |out|
      ensures GetLink(reg.links, out[i].to, id) == GetLink(reg.links, id, out[i].to)
    {
      GetLinkSymmetric(reg, out[i].to, id);
    }
  }

  /** In a well-formed registry the timer tick sends exactly one fresh
      probe to every neighbour, in neighbour order, carrying the capacity
      of the link to it. */
  lemma {:induction false} TickFromReachesAll(links: LinkBase, known: set<RouterID>, self: RouterID, ns: seq<RouterID>)
    requires forall i :: 0 <= i < |ns| ==> Sendable(links, known, self, ns[i])
    ensures var out := TickFrom(links, known, self, ns);
      && |out| == |ns|
      && forall i :: 0 <= i < |ns| ==> out[i] == Message(ns[i], NewProbe(self, LinkCap(links, self, ns[i])))
  {
    if |ns| > 0 {
      TickFromReachesAll(links, known, self, ns[1..]);
    }
  }

  lemma TimerTickReachesAll(reg: Registry, id: RouterID)
    requires WellFormed(reg) && id in reg.routers
    ensures var r := reg.routers[id];
      var out := TimerTick(r, reg.links, reg.routers.Keys);
      && |out| == |r.neighbors|
      && forall i :: 0 <= i < |out| ==>
           && out[i].to == r.neighbors[i]
           && out[i].probe == Probe(id, id, 0, LinkCap(reg.links, id, r.neighbors[i]))
  {
    TickFromReachesAll(reg.links, reg.routers.Keys, id, reg.routers[id].neighbors);
  }

  /** The tick over one neighbour: one fresh probe if it can be sent to,
      nothing otherwise. */
  lemma TickFromSingle(links: LinkBase, known: set<RouterID>, self: RouterID, n: RouterID)
    ensures TickFrom(links, known, self, [n]) ==
      if Sendable(links, known, self, n) then [Message(n, NewProbe(self, LinkCap(links, self, n)))] else []
  {
    assert [n][1..] == [];
  }

  /** The tick handles neighbours one at a time, in order: its outbox over
      `a + b` is its outbox over `a` followed by its outbox over `b`.
      With `TickFromSingle` this fixes the outbox for any neighbour list,
      skipped neighbours included: one probe per sendable neighbour, in
      neighbour order. */
  lemma {:induction false} TickFromAppend(links: LinkBase, known: set<RouterID>, self: RouterID,
                                          a: seq<RouterID>, b: seq<RouterID>)
    ensures TickFrom(links, known, self, a + b) == TickFrom(links, known, self, a) + TickFrom(links, known, self, b)
    decreases |a|
  {
    if |a| == 0 {
      assert a + b == b;
    } else {
      assert (a + b)[0] == a[0];
      assert (a + b)[1..] == a[1..] + b;
      TickFromAppend(links, known, self, a[1..], b);
    }
  }

  /** A probe a router of a well-formed registry emits on a timer tick
      reaches a registered router that sees a link back to the sender,
      whose capacity equals the probe's bottleneck. */
  lemma TickProbesAdmissible(reg: Registry, id: RouterID)
    requires WellFormed(reg) && id in reg.routers
    ensures var out := TimerTick(reg.routers[id], reg.links, reg.routers.Keys);
      forall i :: 0 <= i < |out| ==>
        && out[i].to in reg.routers
        && out[i].probe.upper == id
        && GetLink(reg.links, out[i].to, id).Some?
        && out[i].probe.pathBls == LinkCap(reg.links, out[i].to, id)
  {
    var out := TimerTick(reg.routers[id], reg.links, reg.routers.Keys);
    forall i | 0 <= i < |out|
      ensures GetLink(reg.links, out[i].to, id) == GetLink(reg.links, id, out[i].to)
    {
      GetLinkSymmetric(reg, out[i].to, id);
    }
  }
}
