/** The records of HULA.go: probes, best-hop entries, links and the
    per-router protocol state. Integers are unbounded; the Go `int` and
    `int64` widths are not modelled. */
module HulaTypes {

  type RouterID = int

  /** Minimum number of seconds between two re-announcements of one destination. */
  const UpdateWindow: int := 1

  /** "`dest` is reachable through `upper`, `pathDis` hops away, with
      bottleneck capacity `pathBls` on the path so far." */
  datatype Probe = Probe(dest: RouterID, upper: RouterID, pathDis: int, pathBls: int)

  /** The best next hop (`upperHop`) towards one destination, its hop
      distance, the bottleneck capacity through it, and whether it changed
      since it was last announced. */
  datatype HopTableEntry = HopTableEntry(upperHop: RouterID, dis: int, capacity: int, updated: bool)

  /** A link between routers `r1` and `r2` with a capacity. */
  datatype HulaLink = HulaLink(r1: RouterID, r2: RouterID, capacity: int)

  /** The protocol state one router owns. The shared link map and router
      directory are not part of it; operations receive them as arguments. */
  datatype Router = Router(
    id: RouterID,
    probeUpdateTable: map<RouterID, int>,
    bestHopsTable: map<RouterID, HopTableEntry>,
    neighbors: seq<RouterID>)

  /** A probe pushed onto the inbound queue of router `to`. */
  datatype Message = Message(to: RouterID, probe: Probe)

  datatype HulaError =
    | LinkExists(r1: RouterID, r2: RouterID)
    | RouterNotFound(id: RouterID)
    | MissingUpdateStamp(dest: RouterID)
    | NilLink(self: RouterID, neighbor: RouterID)

  /** The shared link map, keyed by `NewLinkKey`. */
  type LinkBase = map<string, HulaLink>

  /** newRouter: both tables empty and no neighbours yet. */
  function NewRouter(id: RouterID): Router {
    Router(id, map[], map[], [])
  }

  /** Every destination with a best-hop entry has an announce stamp, and
      vice versa. */
  predicate TablesAgree(r: Router) {
    r.bestHopsTable.Keys == r.probeUpdateTable.Keys
  }
}
