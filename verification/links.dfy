/** The link registry of HULA.go: `getLink` and `addLink`, over the shared
    link map and the directory of routers. */
module Links {
  import opened Wrappers
  import opened Utils
  import opened HulaTypes

  /** getLink: the link stored under (self, neighbor), else the one under
      (neighbor, self), else none. */
  function GetLink(links: LinkBase, self: RouterID, neighbor: RouterID): (l: Option<HulaLink>)
    ensures l.Some? <==> NewLinkKey(self, neighbor) in links || NewLinkKey(neighbor, self) in links
    ensures NewLinkKey(self, neighbor) in links ==> l == Some(links[NewLinkKey(self, neighbor)])
    ensures NewLinkKey(self, neighbor) !in links && NewLinkKey(neighbor, self) in links ==>
              l == Some(links[NewLinkKey(neighbor, self)])
  {
    var k1 := NewLinkKey(self, neighbor);
    var k2 := NewLinkKey(neighbor, self);
    if k1 in links then Some(links[k1])
    else if k2 in links then Some(links[k2])
    else None
  }

  /** Capacity of the link between `self` and `neighbor`, which must exist. */
  function LinkCap(links: LinkBase, self: RouterID, neighbor: RouterID): int
    requires GetLink(links, self, neighbor).Some?
  {
    GetLink(links, self, neighbor).value.capacity
  }

  /** Every neighbour of `r` is joined to it by a link (the Go code
      dereferences `getLink` for neighbours without a nil check). */
  predicate NeighborsLinked(r: Router, links: LinkBase) {
    forall n :: n in r.neighbors ==> GetLink(links, r.id, n).Some?
  }

  /** The router directory and the link map, shared by all routers. */
  datatype Registry = Registry(routers: map<RouterID, Router>, links: LinkBase)

  /** The shape `addLink` keeps: routers are filed under their own ID,
      every neighbour is a registered router joined by a link, every link is
      stored under the key of its own endpoints, and no pair of routers is
      stored in both orientations. */
  predicate WellFormed(reg: Registry) {
    && (forall id :: id in reg.routers ==> reg.routers[id].id == id)
    && (forall id, n :: id in reg.routers && n in reg.routers[id].neighbors ==>
          n in reg.routers && GetLink(reg.links, id, n).Some?)
    && (forall k :: k in reg.links ==> k == NewLinkKey(reg.links[k].r1, reg.links[k].r2))
    && (forall k1, k2 ::
          (k1 in reg.links && k2 in reg.links &&
           reg.links[k1].r1 == reg.links[k2].r2 && reg.links[k1].r2 == reg.links[k2].r1) ==> k1 == k2)
  }

  /** addLink. Fails with `LinkExists`, changing nothing, when the pair is
      already linked in either orientation; otherwise stores the link under
      the key (r1, r2) only and appends each endpoint to the other's
      neighbours (r1's list first). The Go code dereferences both routers,
      so both must be registered. */
  function AddLink(reg: Registry, r1: RouterID, r2: RouterID, capacity: int): (res: (Registry, Option<HulaError>))
    requires r1 in reg.routers && r2 in reg.routers
    ensures res.1.Some? <==> NewLinkKey(r1, r2) in reg.links || NewLinkKey(r2, r1) in reg.links
    ensures res.1.Some? ==> res.1 == Some(LinkExists(r1, r2)) && res.0 == reg
    ensures res.1.None? ==> res.0.links == reg.links[NewLinkKey(r1, r2) := HulaLink(r1, r2, capacity)]
    ensures res.1.None? ==> |res.0.links| == |reg.links| + 1
    ensures res.1.None? ==> res.0.routers.Keys == reg.routers.Keys
    ensures res.1.None? ==> forall id :: id in reg.routers && id != r1 && id != r2 ==>
              res.0.routers[id] == reg.routers[id]
    ensures res.1.None? ==> forall id :: id in reg.routers ==>
              && res.0.routers[id].id == reg.routers[id].id
              && res.0.routers[id].bestHopsTable == reg.routers[id].bestHopsTable
              && res.0.routers[id].probeUpdateTable == reg.routers[id].probeUpdateTable
    ensures res.1.None? && r1 != r2 ==>
              && res.0.routers[r1].neighbors == reg.routers[r1].neighbors + [r2]
              && res.0.routers[r2].neighbors == reg.routers[r2].neighbors + [r1]
    ensures res.1.None? && r1 == r2 ==>
              res.0.routers[r1].neighbors == reg.routers[r1].neighbors + [r1, r1]
  {
    var k1 := NewLinkKey(r1, r2);
    var k2 := NewLinkKey(r2, r1);
    if k1 in reg.links || k2 in reg.links then
      (reg, Some(LinkExists(r1, r2)))
    else
      var links := reg.links[k1 := HulaLink(r1, r2, capacity)];
      var a := reg.routers[r1];
      var rs := reg.routers[r1 := a.(neighbors := a.neighbors + [r2])];
      var b := rs[r2];
      var rs' := rs[r2 := b.(neighbors := b.neighbors + [r1])];
      (Registry(rs', links), None)
  }

  /** After a successful addLink each endpoint is the other's neighbour and
      getLink finds the new link from either end. */
  lemma AddLinkConnects(reg: Registry, r1: RouterID, r2: RouterID, capacity: int)
    requires r1 in reg.routers && r2 in reg.routers
    requires AddLink(reg, r1, r2, capacity).1.None?
    ensures var reg' := AddLink(reg, r1, r2, capacity).0;
      && r2 in reg'.routers[r1].neighbors
      && r1 in reg'.routers[r2].neighbors
      && GetLink(reg'.links, r1, r2) == Some(HulaLink(r1, r2, capacity))
      && GetLink(reg'.links, r2, r1) == Some(HulaLink(r1, r2, capacity))
  {
    var reg' := AddLink(reg, r1, r2, capacity).0;
    if r1 != r2 {
      LinkKeyOriented(r1, r2);
      assert NewLinkKey(r2, r1) !in reg'.links;
    }
  }

  /** Adding a key to the link map never hides a link getLink found before. */
  lemma GetLinkMonotone(links: LinkBase, k: string, l: HulaLink, a: RouterID, b: RouterID)
    requires GetLink(links, a, b).Some?
    ensures GetLink(links[k := l], a, b).Some?
  {
  }

  /** The registry of new routers `ids`, with no links yet. */
  function FreshRegistry(ids: set<RouterID>): (reg: Registry)
    ensures reg.routers.Keys == ids && reg.links == map[]
    ensures forall id :: id in ids ==> reg.routers[id] == NewRouter(id)
  {
    Registry(map id | id in ids :: NewRouter(id), map[])
  }

  /** A registry with no links and routers without neighbours is well formed. */
  lemma FreshRegistryWellFormed(ids: set<RouterID>)
    ensures WellFormed(FreshRegistry(ids))
  {
  }

  /** addLink keeps the registry well formed, whether it succeeds or not. */
  lemma AddLinkPreservesWellFormed(reg: Registry, r1: RouterID, r2: RouterID, capacity: int)
    requires WellFormed(reg)
    requires r1 in reg.routers && r2 in reg.routers
    ensures WellFormed(AddLink(reg, r1, r2, capacity).0)
  {
    var (reg', err) := AddLink(reg, r1, r2, capacity);
    if err.None? {
      var k1 := NewLinkKey(r1, r2);
      AddLinkConnects(reg, r1, r2, capacity);
      forall id, n | id in reg'.routers && n in reg'.routers[id].neighbors
        ensures n in reg'.routers && GetLink(reg'.links, id, n).Some?
      {
        if n in reg.routers[id].neighbors {
          GetLinkMonotone(reg.links, k1, HulaLink(r1, r2, capacity), id, n);
        }
      }
    }
  }

  /** In a well-formed registry getLink does not depend on which endpoint
      asks: both ends see the same link. */
  lemma GetLinkSymmetric(reg: Registry, a: RouterID, b: RouterID)
    requires WellFormed(reg)
    ensures GetLink(reg.links, a, b) == GetLink(reg.links, b, a)
  {
    var k1 := NewLinkKey(a, b);
    var k2 := NewLinkKey(b, a);
    if k1 in reg.links && k2 in reg.links {
      var l1, l2 := reg.links[k1], reg.links[k2];
      LinkKeyInjective(a, b, l1.r1, l1.r2);
      LinkKeyInjective(b, a, l2.r1, l2.r2);
    }
  }

  /** In a well-formed registry the link getLink finds joins exactly the
      two routers asked about, in one orientation or the other. */
  lemma GetLinkJoins(reg: Registry, self: RouterID, neighbor: RouterID)
    requires WellFormed(reg)
    requires GetLink(reg.links, self, neighbor).Some?
    ensures var l := GetLink(reg.links, self, neighbor).value;
      {l.r1, l.r2} == {self, neighbor}
  {
    var k1 := NewLinkKey(self, neighbor);
    var k2 := NewLinkKey(neighbor, self);
    var k := if k1 in reg.links then k1 else k2;
    var l := reg.links[k];
    assert k == NewLinkKey(l.r1, l.r2);
    LinkKeyInjective(self, neighbor, l.r1, l.r2);
    LinkKeyInjective(neighbor, self, l.r1, l.r2);
  }
}
