/** Concrete runs of the model: the tie-break example and the two- and
    three-router topologies, each built with addLink and driven by timer
    ticks and probe deliveries. */
module Scenarios {
  import opened Wrappers
  import opened Utils
  import opened HulaTypes
  import opened Links
  import opened Probes

  /** Entry {next hop 1, 3 hops, capacity 50}; a probe from router 2 at
      2 hops (3 with the extra hop) with bottleneck 10 leaves it alone,
      while one with bottleneck 80 switches the entry to router 2. */
  lemma TieBreakExample(links: LinkBase)
    ensures var e := HopTableEntry(1, 3, 50, false);
      && UpdateEntry(links, 7, Probe(9, 2, 2, 10), e) == Success(e)
      && UpdateEntry(links, 7, Probe(9, 2, 2, 80), e) == Success(HopTableEntry(2, 3, 80, true))
  {
  }

  /** Routers 1 and 2 joined by a link of capacity 100. */
  function TwoNodes(): Registry {
    AddLink(FreshRegistry({1, 2}), 1, 2, 100).0
  }

  /** After one send cycle of router 1, router 2 reaches 1 directly, one
      hop away, with the full link capacity; and symmetrically. */
  lemma TwoNodeScenario(now: int)
    ensures var reg := TwoNodes();
      && TimerTick(reg.routers[1], reg.links, {1, 2}) == [Message(2, Probe(1, 1, 0, 100))]
      && TimerTick(reg.routers[2], reg.links, {1, 2}) == [Message(1, Probe(2, 2, 0, 100))]
    ensures var reg := TwoNodes();
      var res := HandleProbe(reg.routers[2], reg.links, {1, 2}, Probe(1, 1, 0, 100), now);
      res.Success? && res.value.0.bestHopsTable[1] == HopTableEntry(1, 1, 100, false)
    ensures var reg := TwoNodes();
      var res := HandleProbe(reg.routers[1], reg.links, {1, 2}, Probe(2, 2, 0, 100), now);
      res.Success? && res.value.0.bestHopsTable[2] == HopTableEntry(2, 1, 100, false)
  {
    var reg0 := FreshRegistry({1, 2});
    LinkKeyOriented(1, 2);
    var reg := TwoNodes();
    assert reg.routers[1].neighbors == [2];
    assert reg.routers[2].neighbors == [1];
    AddLinkConnects(reg0, 1, 2, 100);
  }

  /** The chain 1 -(100)- 2 -(40)- 3. */
  function Chain(): Registry {
    var reg := AddLink(FreshRegistry({1, 2, 3}), 1, 2, 100).0;
    AddLink(reg, 2, 3, 40).0
  }

  /** The neighbour lists and links addLink builds for the chain. */
  lemma ChainShape()
    ensures var reg := Chain();
      && reg.routers.Keys == {1, 2, 3}
      && reg.routers[1] == Router(1, map[], map[], [2])
      && reg.routers[2] == Router(2, map[], map[], [1, 3])
      && reg.routers[3] == Router(3, map[], map[], [2])
    ensures var links := Chain().links;
      && GetLink(links, 1, 2) == Some(HulaLink(1, 2, 100))
      && GetLink(links, 2, 1) == Some(HulaLink(1, 2, 100))
      && GetLink(links, 2, 3) == Some(HulaLink(2, 3, 40))
      && GetLink(links, 3, 2) == Some(HulaLink(2, 3, 40))
  {
    var reg0 := FreshRegistry({1, 2, 3});
    LinkKeyOriented(1, 2);
    LinkKeyOriented(2, 3);
    LinkKeyInjective(2, 3, 1, 2);
    LinkKeyInjective(3, 2, 1, 2);
    LinkKeyInjective(2, 1, 2, 3);
    LinkKeyInjective(1, 2, 2, 3);
    var reg1 := AddLink(reg0, 1, 2, 100).0;
    AddLinkConnects(reg0, 1, 2, 100);
    assert NewLinkKey(2, 3) !in reg1.links && NewLinkKey(3, 2) !in reg1.links;
    AddLinkConnects(reg1, 2, 3, 40);
  }

  /** The chain is a well-formed registry, so the registry-level lemmas
      (symmetric getLink, no send failure, admissible probes) apply to it. */
  lemma ChainWellFormed()
    ensures WellFormed(Chain())
  {
    var reg0 := FreshRegistry({1, 2, 3});
    FreshRegistryWellFormed({1, 2, 3});
    AddLinkPreservesWellFormed(reg0, 1, 2, 100);
    AddLinkPreservesWellFormed(AddLink(reg0, 1, 2, 100).0, 2, 3, 40);
  }

  /** In the chain, router 3's tick reaches router 2, which floods it on to
      router 1; router 1 then reaches 3 through 2, two hops away, with the
      bottleneck 40 of the path rather than a sum. */
  lemma ChainScenario(now: int)
    ensures var reg := Chain();
      TimerTick(reg.routers[3], reg.links, {1, 2, 3}) == [Message(2, Probe(3, 3, 0, 40))]
    ensures var reg := Chain();
      var atB := HandleProbe(reg.routers[2], reg.links, {1, 2, 3}, Probe(3, 3, 0, 40), now);
      && atB.Success?
      && atB.value.0.bestHopsTable[3] == HopTableEntry(3, 1, 40, false)
      && atB.value.1 == [Message(1, Probe(3, 2, 1, 40)), Message(3, Probe(3, 2, 1, 40))]
    ensures var reg := Chain();
      var atA := HandleProbe(reg.routers[1], reg.links, {1, 2, 3}, Probe(3, 2, 1, 40), now);
      atA.Success? && atA.value.0.bestHopsTable[3] == HopTableEntry(2, 2, 40, false)
  {
    ChainShape();
  }
}
