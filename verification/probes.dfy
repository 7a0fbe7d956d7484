/** The probe engine of HULA.go as pure transitions: the timer tick and
    `handleProbe`. The channels of the Go program become an outbox, the
    ordered sequence of messages the router would push onto its
    neighbours' queues. `known` is the set of router IDs in the shared
    router directory; `now` is the wall-clock second. Each process exit
    and each nil-link dereference of the Go code becomes a `Failure`. */
module Probes {
  import opened Wrappers
  import opened Utils
  import opened HulaTypes
  import opened Links

  /** newProbe: a self-originated probe, zero hops away. */
  function NewProbe(id: RouterID, bls: int): Probe {
    Probe(id, id, 0, bls)
  }

  /** Router `self` can push a probe to `n`: a link joins them and `n` is
      in the router directory. */
  predicate Sendable(links: LinkBase, known: set<RouterID>, self: RouterID, n: RouterID) {
    GetLink(links, self, n).Some? && n in known
  }

  /** The error the send loop of handleProbe stops at for neighbour `n`. */
  function SendError(links: LinkBase, self: RouterID, n: RouterID): HulaError {
    if GetLink(links, self, n).None? then NilLink(self, n) else RouterNotFound(n)
  }

  /** The send loop of handleProbe: to every neighbour in order, a probe for
      `dest` from `self` at distance `dis`, with `bls` clamped to the
      capacity of the link to that neighbour. It stops at the first
      neighbour without a link or not in the directory. */
  function Announce(links: LinkBase, known: set<RouterID>, self: RouterID, ns: seq<RouterID>,
                    dest: RouterID, dis: int, bls: int): (res: Result<seq<Message>, HulaError>)
    ensures res.Success? <==> forall n :: n in ns ==> Sendable(links, known, self, n)
    ensures res.Success? ==> |res.value| == |ns|
    ensures res.Success? ==> forall i :: 0 <= i < |ns| ==>
              Sendable(links, known, self, ns[i]) &&
              res.value[i] == Message(ns[i], Probe(dest, self, dis, Min(bls, LinkCap(links, self, ns[i]))))
    ensures res.Failure? ==>
              exists i :: 0 <= i < |ns| && !Sendable(links, known, self, ns[i])
                && res.error == SendError(links, self, ns[i])
                && (forall j :: 0 <= j < i ==> Sendable(links, known, self, ns[j]))
  {
    if |ns| == 0 then Success([])
    else if !Sendable(links, known, self, ns[0]) then Failure(SendError(links, self, ns[0]))
    else
      var m := Message(ns[0], Probe(dest, self, dis, Min(bls, LinkCap(links, self, ns[0]))));
      match Announce(links, known, self, ns[1..], dest, dis, bls)
      case Failure(e) => Failure(e)
      case Success(rest) => Success([m] + rest)
  }

  /** The timer tick over the neighbours `ns`: a fresh self-originated probe
      carrying the link capacity to each neighbour in order; a neighbour
      without a link, or whose send fails, is skipped. */
  function TickFrom(links: LinkBase, known: set<RouterID>, self: RouterID, ns: seq<RouterID>): (out: seq<Message>)
    ensures |out| <= |ns|
    ensures forall i :: 0 <= i < |out| ==>
              && out[i].to in ns
              && Sendable(links, known, self, out[i].to)
              && out[i].probe == Probe(self, self, 0, LinkCap(links, self, out[i].to))
    ensures forall n :: n in ns && Sendable(links, known, self, n) ==>
              Message(n, NewProbe(self, LinkCap(links, self, n))) in out
  {
    if |ns| == 0 then []
    else
      var rest := TickFrom(links, known, self, ns[1..]);
      if Sendable(links, known, self, ns[0]) then
        [Message(ns[0], NewProbe(self, LinkCap(links, self, ns[0])))] + rest
      else rest
  }

  /** One timer tick of router `r`. The tick changes no state. */
  function TimerTick(r: Router, links: LinkBase, known: set<RouterID>): seq<Message> {
    TickFrom(links, known, r.id, r.neighbors)
  }

  /** The candidate path the probe `p` offers (one hop more than `p`'s)
      strictly beats the entry `e`: fewer hops, or as many hops and a
      strictly larger bottleneck capacity. */
  predicate Preferred(p: Probe, e: HopTableEntry) {
    p.pathDis + 1 < e.dis || (p.pathDis + 1 == e.dis && p.pathBls > e.capacity)
  }

  /** The tie-break rule of handleProbe for a destination router `self`
      already knows, before any re-announcement. */
  function UpdateEntry(links: LinkBase, self: RouterID, p: Probe, e: HopTableEntry): (res: Result<HopTableEntry, HulaError>)
    ensures res.Failure? <==> e.upperHop == p.upper && GetLink(links, self, p.upper).None?
    ensures res.Failure? ==> res.error == NilLink(self, p.upper)
    ensures res.Success? && e.upperHop == p.upper ==>
              res.value == HopTableEntry(e.upperHop, p.pathDis + 1, Min(LinkCap(links, self, p.upper), p.pathBls), true)
    ensures e.upperHop != p.upper && Preferred(p, e) ==>
              res == Success(HopTableEntry(p.upper, p.pathDis + 1, p.pathBls, true))
    ensures e.upperHop != p.upper && !Preferred(p, e) ==> res == Success(e)
  {
    if e.upperHop == p.upper then
      match GetLink(links, self, e.upperHop)
      case None => Failure(NilLink(self, e.upperHop))
      case Some(l) => Success(e.(dis := p.pathDis + 1, capacity := Min(l.capacity, p.pathBls), updated := true))
    else if e.dis > p.pathDis + 1 then
      Success(e.(dis := p.pathDis + 1, upperHop := p.upper, capacity := p.pathBls, updated := true))
    else if e.dis == p.pathDis + 1 && e.capacity < p.pathBls then
      Success(e.(upperHop := p.upper, capacity := p.pathBls, updated := true))
    else
      Success(e)
  }

  /** The re-announcement of a destination is due: its entry changed since
      the last announcement, which was at least `UpdateWindow` seconds ago. */
  predicate AnnounceDue(e: HopTableEntry, lastUpdate: int, now: int) {
    e.updated && now - lastUpdate >= UpdateWindow
  }

  /** handleProbe: router `r` receives probe `p` at time `now`. */
  function HandleProbe(r: Router, links: LinkBase, known: set<RouterID>, p: Probe, now: int): (res: Result<(Router, seq<Message>), HulaError>)
    ensures res.Success? ==> res.value.0.id == r.id && res.value.0.neighbors == r.neighbors
    ensures res.Success? ==> forall d :: d != p.dest ==>
              && (d in res.value.0.bestHopsTable <==> d in r.bestHopsTable)
              && (d in r.bestHopsTable ==> res.value.0.bestHopsTable[d] == r.bestHopsTable[d])
              && (d in res.value.0.probeUpdateTable <==> d in r.probeUpdateTable)
              && (d in r.probeUpdateTable ==> res.value.0.probeUpdateTable[d] == r.probeUpdateTable[d])
    ensures res.Success? && p.dest != r.id ==> p.dest in res.value.0.bestHopsTable
    ensures res.Success? ==> forall i :: 0 <= i < |res.value.1| ==>
              res.value.1[i].probe.dest == p.dest && res.value.1[i].probe.upper == r.id
  {
    if p.dest == r.id then
      Success((r, []))
    else if p.dest !in r.bestHopsTable then
      var out :- Announce(links, known, r.id, r.neighbors, p.dest, p.pathDis + 1, p.pathBls);
      var e := HopTableEntry(p.upper, p.pathDis + 1, p.pathBls, false);
      Success((r.(bestHopsTable := r.bestHopsTable[p.dest := e],
                  probeUpdateTable := r.probeUpdateTable[p.dest := now]), out))
    else
      var e :- UpdateEntry(links, r.id, p, r.bestHopsTable[p.dest]);
      if p.dest !in r.probeUpdateTable then
        Failure(MissingUpdateStamp(p.dest))
      else if AnnounceDue(e, r.probeUpdateTable[p.dest], now) then
        var out :- Announce(links, known, r.id, r.neighbors, p.dest, e.dis, e.capacity);
        Success((r.(bestHopsTable := r.bestHopsTable[p.dest := e.(updated := false)],
                    probeUpdateTable := r.probeUpdateTable[p.dest := now]), out))
      else
        Success((r.(bestHopsTable := r.bestHopsTable[p.dest := e]), []))
  }
}
