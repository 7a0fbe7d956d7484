# HULA probe engine and link registry, in Dafny

This project models the per-router engine of the HULA simulator. HULA is a
hop-by-hop routing protocol that balances load by capacity. Each router
floods probes about destinations. It keeps a best-hop table: for each
destination, the next hop, the hop distance, the bottleneck capacity
through it, and a dirty flag. A second table holds the time each
destination was last announced. The router re-announces changed entries
to its neighbours at most once per update window. Routers are joined by
links with a capacity, stored in a shared map under an oriented string
key. The model also covers that link registry.

Everything is pure:

- `HandleProbe(router, links, known, probe, now)` returns the new router
  state and an outbox, or an error. The outbox is the ordered sequence of
  messages the Go code pushes onto neighbours' channels.
- `TimerTick` returns the outbox of one send cycle.
- `AddLink` returns the new registry and an optional error.
- The wall clock (`now`) is a parameter.
- The router directory appears as the set `known` of registered IDs.

Files and modules:

- `wrappers.dfy` (`Wrappers`): `Option` and `Result`.
- `decimal.dfy` (`Decimal`): `strconv.Itoa`, with a parser used only to
  prove the rendering is injective.
- `utils.dfy` (`Utils`): `newLinkKey` and `min`.
- `hula_types.dfy` (`HulaTypes`): probes, best-hop entries, links, router
  state, errors, `UpdateWindow = 1`.
- `links.dfy` (`Links`): `getLink`, `addLink`, and the registry invariant
  `WellFormed`.
- `probes.dfy` (`Probes`): `newProbe`, the send loop, the timer tick, the
  tie-break rule, and `handleProbe`.
- `probe_properties.dfy` (`ProbeProperties`): per-branch behaviour,
  invariants, and how the engine fits the registry.
- `scenarios.dfy` (`Scenarios`): the tie-break example, and two- and
  three-router runs built with `addLink`.

Modelling decisions:

- Every `os.Exit` in `handleProbe` is a `Failure`. This covers a failed
  send (`RouterNotFound`) and a missing announce stamp
  (`MissingUpdateStamp`).
- The Go code dereferences `getLink(...)` without a nil check at HULA.go
  lines 137, 138, 158 and 200. That would crash, so a missing link is also
  a `Failure` (`NilLink`), raised at the point where the Go code would
  dereference.
- `WellFormedRegistryNeverFails` shows that no failure occurs in a registry
  built by `addLink`. It needs two hypotheses: the probe arrived over a
  link, and the router's two tables have the same keys.
  `TablesAgreePreserved` shows that `handleProbe` keeps the second one.
- HULA is meant to treat a missing link as a non-fatal topology gap. In
  the code that holds only for the timer tick. `handleProbe` dereferences
  the link unchecked. The model follows the code.
- The first-discovery flood clamps with `if bls > cap then cap else bls`.
  The re-announcement uses `min(bls, cap)`. Both give the same value, so
  both are modelled by one send loop, `Announce`, using `Min`.
- Capacity domination is meant to hold unconditionally. It says an
  entry's capacity never exceeds the link to its next hop. The code stores
  the probe's `pathBls` unclamped in two places. One is the new entry
  created on first discovery (HULA.go:125-128). The other is a route
  adopted from a different sender (HULA.go:170-181). So the invariant holds
  only for probes bounded by their incoming link.
  `CapacityDominationPreserved` assumes this bound. In a well-formed
  registry, every probe a router emits meets it.
  `DeliveredProbesAdmissible` shows this for `handleProbe`'s outbox, and
  `TickProbesAdmissible` for the timer tick's.
- `addLink` dereferences both routers in the directory, so the model
  requires both to be registered.
- With `r1 == r2`, `addLink` appends the router to its own neighbour list
  twice. The model does the same.

## Model

| member | source | states |
|---|---|---|
| Utils.Min | utils.go:9-15 | the result is at most both arguments and equal to one of them |
| Utils.MinCommutativeIdempotent | utils.go:9-15 | min's value does not depend on argument order, and min(x, x) = x |
| Decimal.ItoaRoundTrip | utils.go:6 | the decimal rendering of any integer, negative ones included, parses back to that integer |
| Utils.LinkKeyRoundTrip | utils.go:5-7 | splitting a link key at its first '-' after the sign recovers the ordered pair it was built from |
| Utils.LinkKeyInjective | utils.go:5-7 | two link keys are equal iff they were built from the same ordered pair |
| Utils.LinkKeyOriented | utils.go:6 | the keys (a, b) and (b, a) coincide iff a = b, which is why lookups try both orders |
| Links.GetLink | HULA.go:247-258 | a link is found iff the key (self, neighbour) or (neighbour, self) is present; it is the link under (self, neighbour) when that key exists, otherwise the one under (neighbour, self) |
| Links.GetLinkJoins | HULA.go:247-258 | in a registry built by addLink, the link found joins exactly the two routers asked about |
| Links.GetLinkSymmetric | HULA.go:247-258 | in a registry built by addLink, both endpoints see the same link |
| Links.AddLink | HULA.go:260-281 | fails, changing nothing, iff either orientation is present; otherwise inserts only the key (r1, r2), appends r2 to r1's neighbours and r1 to r2's, and changes no other router or table |
| Links.AddLinkConnects | HULA.go:270-280 | after a successful addLink each endpoint is the other's neighbour and getLink finds the new link from both ends |
| Links.AddLinkPreservesWellFormed | HULA.go:260-281 | addLink keeps the registry well formed: neighbours registered and linked, keys match their links, no pair stored in both orientations |
| Links.FreshRegistryWellFormed | HULA.go:233-245 | a registry of new routers with no links is well formed |
| Probes.Announce | HULA.go:131-148 | the send loop succeeds iff every neighbour has a link and is registered; then it emits one probe per neighbour in order, clamped to that link, and otherwise it fails at the first bad neighbour |
| Probes.TickFrom | HULA.go:77-92 | the tick emits only self-originated probes carrying the link capacity, only to linked, registered neighbours, and each of those neighbours receives such a probe |
| ProbeProperties.TickFromSingle | HULA.go:78-91 | for one neighbour, the tick emits one fresh probe with the link capacity if the neighbour has a link and is registered, and nothing otherwise |
| ProbeProperties.TickFromAppend | HULA.go:78-91 | the tick's outbox over a + b is its outbox over a followed by its outbox over b, so there is one probe per sendable neighbour, in neighbour order |
| ProbeProperties.TickProbesAdmissible | HULA.go:85-86 | every tick probe in a well-formed registry reaches a registered router with a link back whose capacity equals the probe's bottleneck |
| ProbeProperties.TickFromReachesAll | HULA.go:78-91 | when every neighbour is reachable, the tick emits exactly one message per neighbour, in neighbour order |
| ProbeProperties.TimerTickReachesAll | HULA.go:102-110 | in a well-formed registry each neighbour gets the probe {dest = self, upper = self, pathDis = 0, pathBls = link capacity} |
| Probes.UpdateEntry | HULA.go:155-182 | tie-break: a probe from the current next hop always refreshes distance and clamped capacity; another sender replaces the route iff it has strictly fewer hops, or equal hops and strictly more capacity |
| Probes.HandleProbe | HULA.go:112-215 | handleProbe keeps the router's ID and neighbours, touches only the probe's destination, makes that destination known, and emits only probes about it sent by this router |
| ProbeProperties.SelfProbeIgnored | HULA.go:114-116 | a probe about the receiver changes neither table and emits nothing |
| ProbeProperties.FirstDiscovery | HULA.go:124-150 | an unknown destination gets entry {upper, pathDis+1, pathBls, not dirty} and stamp now, and is flooded to all neighbours with pathDis+1 and min(pathBls, link) |
| ProbeProperties.FirstDiscoveryFailure | HULA.go:137-147 | first discovery fails iff some neighbour lacks a link or a directory entry, naming the first such neighbour |
| ProbeProperties.RefreshFromUpperHop | HULA.go:156-164 | a probe from the current next hop keeps the next hop and sets distance pathDis+1 and capacity min(link, pathBls), even when the path got worse; it fails only if some neighbour cannot be sent to |
| ProbeProperties.SwitchRule | HULA.go:167-182 | another sender's route is adopted iff preferred; on this branch distance never grows and at equal distance capacity never shrinks |
| ProbeProperties.ReannounceRule | HULA.go:184-211 | a known destination is re-announced iff it is dirty and its stamp is at least UpdateWindow old; then handling succeeds iff every neighbour can be sent to, the flood carries the entry's distance and clamped capacity, the stamp becomes now and the flag clears; otherwise handling succeeds with no output and the stamp is kept, for all inputs |
| ProbeProperties.MissingStampIsError | HULA.go:184-189 | a known destination without an announce stamp is a fatal error |
| ProbeProperties.TablesAgreePreserved | HULA.go:124-130 | handleProbe keeps the two tables on the same key set, so the missing-stamp error cannot occur while they agree |
| ProbeProperties.CapacityDominationPreserved | HULA.go:156-182 | if every entry's capacity is at most the link to its next hop, and the probe is bounded by its incoming link, this still holds afterwards |
| ProbeProperties.EmittedProbesClamped | HULA.go:194-201 | every emitted probe goes to a neighbour, names the router as sender, and carries at most the capacity of the link it is sent over |
| ProbeProperties.AnnouncementStamps | HULA.go:209 | whenever handleProbe emits anything, the destination's stamp is now |
| ProbeProperties.QuietWithinWindow | HULA.go:191-193 | within UpdateWindow of the last announcement, a known destination produces no output and keeps its stamp |
| ProbeProperties.SuppressionWindow | HULA.go:191-211 | two probes about one destination handled less than UpdateWindow apart produce at most one announcement |
| ProbeProperties.WellFormedRegistryNeverFails | HULA.go:224-231 | in a well-formed registry, with agreeing tables and a probe that arrived over a link, handleProbe never fails |
| ProbeProperties.DeliveredProbesAdmissible | HULA.go:194-202 | every probe emitted in a well-formed registry reaches a registered router with a link back whose capacity bounds the probe |
| Scenarios.TieBreakExample | HULA.go:167-182 | entry {hops 3, capacity 50}: an equal-hop probe with capacity 10 changes nothing, one with capacity 80 switches the next hop |
| Scenarios.TwoNodeScenario | HULA.go:77-92 | two routers linked with capacity 100: after one tick each reaches the other directly, one hop away, with capacity 100 |
| Scenarios.ChainShape | HULA.go:276-279 | addLink builds the chain's neighbour lists in call order, getLink finds each link from both ends |
| Scenarios.ChainWellFormed | HULA.go:260-281 | the chain built by two addLink calls is a well-formed registry |
| Scenarios.ChainScenario | HULA.go:124-150 | in the chain 1 -(100)- 2 -(40)- 3, router 1 reaches 3 through 2, two hops away, with bottleneck 40 |

## Left out

- The goroutine event loop of `start`, `stop`, the `quit` channel and the
  `sync.WaitGroup` are not modelled. They are concurrency. The model
  replaces them with per-call transitions and an explicit outbox.
- The bounded `MessagePool` channel (`BufferSize`) and the blocking
  enqueue are not modelled. A send either appends to the outbox or fails
  because the target is not registered.
- The `time.Ticker` and the `SendCycle` constant are not modelled. A tick
  is a separate call, `TimerTick`.
- `time.Now().Unix()` is not modelled. It becomes the parameter `now`. The
  known-destination path reads the clock twice (lines 191 and 209); the
  model uses one `now` for both reads.
- `os.Exit`, and the crash a nil `getLink` result would cause, are not
  modelled. Each becomes a `Failure` result.
- The debug hook for routers 5, 9 and 10 (HULA.go:117-120) is not
  modelled. Neither are `printBestHopTable` and the `fmt.Printf` logging.
  None of them affect state.
- main.go is not part of this model. Neither are the JSON structs
  `testGraph`, `testNode` and `testEdge` in utils.go. They load test input.
- Convergence across many routers is not modelled. Claims about it need
  fairness and scheduling assumptions that the code does not make.
- Links.AddLink: requires both endpoints to be registered routers. The Go
  code dereferences `nodeBase[r1]` and `nodeBase[r2]` (HULA.go:278-279).
  For an unregistered endpoint it would crash after it has already stored
  the link. The model does not describe that crash.
- The Go `int` and `int64` widths and their overflow are not modelled. All
  integers are unbounded.
