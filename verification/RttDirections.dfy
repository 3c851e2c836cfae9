/** Whether the round-trip time of two hosts is the same from either side: exactly when all
    shortest routes between them take the same time to transmit, and a network on which they
    do not. */
module RttDirections {
  import opened Common
  import opened Network
  import opened Routing
  import opened Rtt

  // Every link has one bandwidth in both directions, as the reader gives it.
  ghost predicate SameBothWays(net: Net)
    requires WellFormed(net)
  {
    forall u, v :: Link(net, u, v) ==> Link(net, v, u) && net.nbr2if[u][v].bw == net.nbr2if[v][u].bw
  }

  ghost function Transmit(net: Net, payload: nat, p: seq<Node>): nat
    requires WellFormed(net) && IsPath(net, p)
  {
    PathFigures(net, payload, p).tx
  }

  lemma PathInit(net: Net, p: seq<Node>)
    requires WellFormed(net) && IsPath(net, p) && |p| >= 2
    ensures IsPath(net, p[..|p|-1]) && Link(net, p[|p|-1], p[|p|-2])
  {
    assert Link(net, p[|p|-2], p[|p|-2+1]);
  }

  // The sum read from the other end.
  lemma {:induction false} TransmitLast(net: Net, payload: nat, p: seq<Node>)
    requires WellFormed(net) && IsPath(net, p) && |p| >= 2
    ensures IsPath(net, p[..|p|-1]) && Link(net, p[|p|-1], p[|p|-2])
    ensures Transmit(net, payload, p) == Transmit(net, payload, p[..|p|-1]) + TxTime(payload, net.nbr2if[p[|p|-1]][p[|p|-2]].bw)
  {
    hide TxTime;
    PathInit(net, p);
    PathTail(net, p);
    if |p| == 2 {
      assert Transmit(net, payload, p[1..]) == 0 && Transmit(net, payload, p[..1]) == 0;
    } else {
      TransmitLast(net, payload, p[1..]);
      assert p[1..][..|p|-2] == p[..|p|-1][1..];
      PathTail(net, p[..|p|-1]);
    }
  }

  lemma {:induction false} TransmitReverse(net: Net, payload: nat, p: seq<Node>)
    requires WellFormed(net) && SameBothWays(net) && IsPath(net, p)
    ensures IsPath(net, Reverse(p)) && Transmit(net, payload, Reverse(p)) == Transmit(net, payload, p)
  {
    hide TxTime;
    RouteReverse(net, p[0], p[|p|-1], p);
    if |p| > 1 {
      PathTail(net, p);
      TransmitReverse(net, payload, p[1..]);
      var r := Reverse(p);
      assert r[..|r|-1] == Reverse(p[1..]);
      TransmitLast(net, payload, r);
    }
  }

  ghost predicate ShortestRoute(net: Net, a: Node, b: Node, d: nat, p: seq<Node>) {
    Route(net, a, b, p) && |p| == d + 1
  }

  /** All shortest routes from a to b take the same time to transmit. */
  ghost predicate OneTransmit(net: Net, payload: nat, a: Node, b: Node, d: nat)
    requires WellFormed(net)
  {
    forall p: seq<Node>, q: seq<Node> :: ShortestRoute(net, a, b, d, p) && ShortestRoute(net, a, b, d, q) ==>
      Transmit(net, payload, p) == Transmit(net, payload, q)
  }

  // Whatever shortest routes the figures are taken from, the round-trip time is the same.
  ghost predicate RttSymmetric(net: Net, payload: nat, dists: map<Node, map<Node, nat>>, a: Node, b: Node)
    requires WellFormed(net)
  {
    forall pairDelay: Table<nat>, pairTxDelay: Table<nat>, pairBw: Table<nat> ::
      AllFigures(net, payload, dists, pairDelay, pairTxDelay, pairBw) ==>
        BaseRtt(pairDelay, pairTxDelay, a, b) == BaseRtt(pairDelay, pairTxDelay, b, a)
  }

  // Figures recorded for two nodes come from a shortest route between them.
  lemma FiguresFrom(net: Net, payload: nat, dis: map<Node, nat>, pairDelay: Table<nat>, pairTxDelay: Table<nat>,
                    pairBw: Table<nat>, a: Node, b: Node, delay: nat) returns (p: seq<Node>)
    requires WellFormed(net) && UniformDelay(net, delay)
    requires FiguresTo(net, payload, b, dis, pairDelay, pairTxDelay, pairBw) && a in dis
    ensures ShortestRoute(net, a, b, dis[a], p) && At(pairDelay, a, b) == Product(delay, dis[a])
    ensures At(pairTxDelay, a, b) == Transmit(net, payload, p)
  {
    hide TxTime, Product, UniformDelay, PathFigures;
    var f := Figures(Cell(pairDelay, a, b).value, Cell(pairTxDelay, a, b).value, Cell(pairBw, a, b).value);
    assert Attained(net, payload, b, a, dis[a], f);
    p :| Route(net, a, b, p) && |p| == dis[a] + 1 && PathFigures(net, payload, p) == f;
    UniformDelayPath(net, payload, p, delay);
  }

  lemma OneTransmitSymmetric(net: Net, payload: nat, dists: map<Node, map<Node, nat>>, pairDelay: Table<nat>,
                             pairTxDelay: Table<nat>, pairBw: Table<nat>, a: Node, b: Node, delay: nat)
    requires WellFormed(net) && UniformDelay(net, delay) && SameBothWays(net)
    requires AllFigures(net, payload, dists, pairDelay, pairTxDelay, pairBw)
    requires a in dists && b in dists && a in dists[b] && b in dists[a] && dists[a][b] == dists[b][a]
    requires OneTransmit(net, payload, a, b, dists[b][a])
    ensures BaseRtt(pairDelay, pairTxDelay, a, b) == BaseRtt(pairDelay, pairTxDelay, b, a)
  {
    hide FiguresTo, Product, Transmit, SameBothWays, UniformDelay, At;
    var p := FiguresFrom(net, payload, dists[b], pairDelay, pairTxDelay, pairBw, a, b, delay);
    var q := FiguresFrom(net, payload, dists[a], pairDelay, pairTxDelay, pairBw, b, a, delay);
    TransmitReverse(net, payload, q);
    RouteReverse(net, b, a, q);
    assert ShortestRoute(net, a, b, dists[b][a], Reverse(q));
  }

  // The tables with the figures of one pair taken from another shortest route.
  lemma Retold(net: Net, payload: nat, dists: map<Node, map<Node, nat>>, pairDelay: Table<nat>, pairTxDelay: Table<nat>,
               pairBw: Table<nat>, a: Node, b: Node, p: seq<Node>)
    requires WellFormed(net) && AllFigures(net, payload, dists, pairDelay, pairTxDelay, pairBw)
    requires b in dists && a in dists[b] && ShortestRoute(net, a, b, dists[b][a], p)
    ensures var f := PathFigures(net, payload, p);
      AllFigures(net, payload, dists, Put(pairDelay, a, b, f.delay), Put(pairTxDelay, a, b, f.tx), Put(pairBw, a, b, f.bw))
  {
    hide PathFigures, Put;
    var f := PathFigures(net, payload, p);
    forall h, v | h in dists && v in dists[h]
      ensures var pd, pt, pb := Put(pairDelay, a, b, f.delay), Put(pairTxDelay, a, b, f.tx), Put(pairBw, a, b, f.bw);
        && Cell(pd, v, h).Some? && Cell(pt, v, h).Some? && Cell(pb, v, h).Some?
        && Attained(net, payload, h, v, dists[h][v], Figures(Cell(pd, v, h).value, Cell(pt, v, h).value, Cell(pb, v, h).value))
    {
      assert FiguresTo(net, payload, h, dists[h], pairDelay, pairTxDelay, pairBw);
      if (v, h) == (a, b) { assert Attained(net, payload, b, a, dists[b][a], f); }
    }
  }

  lemma TwoTransmits(net: Net, payload: nat, dists: map<Node, map<Node, nat>>, pairDelay: Table<nat>, pairTxDelay: Table<nat>,
                     pairBw: Table<nat>, a: Node, b: Node, delay: nat, p: seq<Node>, q: seq<Node>)
    requires WellFormed(net) && UniformDelay(net, delay) && SameBothWays(net)
    requires AllFigures(net, payload, dists, pairDelay, pairTxDelay, pairBw)
    requires a != b && a in dists && b in dists && a in dists[b] && b in dists[a] && dists[a][b] == dists[b][a]
    requires ShortestRoute(net, a, b, dists[b][a], p) && ShortestRoute(net, a, b, dists[b][a], q)
    requires Transmit(net, payload, p) != Transmit(net, payload, q)
    ensures !RttSymmetric(net, payload, dists, a, b)
  {
    hide AllFigures, Put, UniformDelay, SameBothWays, Product;
    var r := Reverse(q);
    ReversedShortest(net, payload, a, b, dists[b][a], q);
    var f, e := PathFigures(net, payload, p), PathFigures(net, payload, r);
    Retold(net, payload, dists, pairDelay, pairTxDelay, pairBw, a, b, p);
    var pd, pt, pb := Put(pairDelay, a, b, f.delay), Put(pairTxDelay, a, b, f.tx), Put(pairBw, a, b, f.bw);
    Retold(net, payload, dists, pd, pt, pb, b, a, r);
    var pd', pt', pb' := Put(pd, b, a, e.delay), Put(pt, b, a, e.tx), Put(pb, b, a, e.bw);
    ShortestDelay(net, payload, a, b, dists[b][a], p, delay);
    ShortestDelay(net, payload, b, a, dists[b][a], r, delay);
    hide PathFigures;
    assert BaseRtt(pd', pt', a, b) != BaseRtt(pd', pt', b, a);
  }

  lemma ReversedShortest(net: Net, payload: nat, a: Node, b: Node, d: nat, q: seq<Node>)
    requires WellFormed(net) && SameBothWays(net) && ShortestRoute(net, a, b, d, q)
    ensures ShortestRoute(net, b, a, d, Reverse(q)) && IsPath(net, Reverse(q)) && IsPath(net, q)
    ensures Transmit(net, payload, Reverse(q)) == Transmit(net, payload, q)
  {
    hide Transmit;
    RouteReverse(net, a, b, q);
    TransmitReverse(net, payload, q);
  }

  lemma ShortestDelay(net: Net, payload: nat, a: Node, b: Node, d: nat, p: seq<Node>, delay: nat)
    requires WellFormed(net) && UniformDelay(net, delay) && ShortestRoute(net, a, b, d, p)
    ensures IsPath(net, p) && PathFigures(net, payload, p).delay == Product(delay, d)
  {
    hide PathFigures, Product;
    UniformDelayPath(net, payload, p, delay);
  }

  /** With one delay everywhere and one bandwidth in both directions of each link, writing the
      round-trip time of two hosts under both orders is consistent, whatever shortest routes the
      figures came from, if and only if all shortest routes between them take the same time to
      transmit. */
  lemma RttSymmetricIff(net: Net, payload: nat, dists: map<Node, map<Node, nat>>, nextHop: Table<seq<Node>>,
                        pairDelay: Table<nat>, pairTxDelay: Table<nat>, pairBw: Table<nat>, a: Node, b: Node, delay: nat)
    requires WellFormed(net) && UniformDelay(net, delay) && SameBothWays(net)
    requires AllRoutes(net, dists, nextHop) && AllFigures(net, payload, dists, pairDelay, pairTxDelay, pairBw)
    requires IsHost(net, a) && IsHost(net, b) && a != b && a in dists[b]
    ensures RttSymmetric(net, payload, dists, a, b) <==> OneTransmit(net, payload, a, b, dists[b][a])
  {
    hide AllFigures, UniformDelay, SameBothWays, BaseRtt, Transmit, RoutesTo;
    HopsSymmetric(net, dists, nextHop, a, b);
    if OneTransmit(net, payload, a, b, dists[b][a]) {
      forall pd: Table<nat>, pt: Table<nat>, pb: Table<nat> | AllFigures(net, payload, dists, pd, pt, pb)
        ensures BaseRtt(pd, pt, a, b) == BaseRtt(pd, pt, b, a)
      {
        OneTransmitSymmetric(net, payload, dists, pd, pt, pb, a, b, delay);
      }
    } else {
      var p: seq<Node>, q: seq<Node> :| ShortestRoute(net, a, b, dists[b][a], p) && ShortestRoute(net, a, b, dists[b][a], q)
        && Transmit(net, payload, p) != Transmit(net, payload, q);
      TwoTransmits(net, payload, dists, pairDelay, pairTxDelay, pairBw, a, b, delay, p, q);
    }
  }

  lemma UniformOneTransmit(net: Net, payload: nat, a: Node, b: Node, d: nat, delay: nat, bw: nat)
    requires WellFormed(net) && Uniform(net, delay, bw) && 0 < bw <= BW_MAX
    ensures OneTransmit(net, payload, a, b, d)
  {
    hide TxTime, Product, Uniform, PathFigures;
    forall p: seq<Node>, q: seq<Node> | ShortestRoute(net, a, b, d, p) && ShortestRoute(net, a, b, d, q)
      ensures Transmit(net, payload, p) == Transmit(net, payload, q)
    {
      UniformPath(net, payload, p, delay, bw);
      UniformPath(net, payload, q, delay, bw);
    }
  }

  /* A network where the directions differ: hosts 0 and 7, and between the switches 1 and 6 two
     ways of equal length, over 2 and 4 or over 3 and 5; the link from 2 to 4 is slow. */

  const FAST: nat := 100_000_000_000
  const SLOW: nat := 10_000_000_000

  const NODES: set<Node> := {0, 1, 2, 3, 4, 5, 6, 7}

  function Column(v: Node): nat {
    if v == 0 then 0 else if v == 1 then 1 else if v <= 3 then 2 else if v <= 5 then 3 else if v == 6 then 4 else 5
  }

  predicate Forward(u: Node, v: Node) {
    || (u == 0 && v == 1) || (u == 1 && (v == 2 || v == 3)) || (u == 2 && v == 4) || (u == 3 && v == 5)
    || ((u == 4 || u == 5) && v == 6) || (u == 6 && v == 7)
  }

  function RateOf(u: Node, v: Node): nat {
    if (u == 2 && v == 4) || (u == 4 && v == 2) then SLOW else FAST
  }

  function TwoWays(): Net {
    Net(map v: Node | v in NODES :: if v == 0 || v == 7 then Host else Switch,
        map u: Node | u in NODES :: map v: Node | v in NODES && (Forward(u, v) || Forward(v, u)) :: Iface(v + 1, true, 1, RateOf(u, v)))
  }

  function HopsTo(h: Node, v: Node): nat {
    if h == 0 then Column(v) else 5 - Column(v)
  }

  function Before(v: Node): seq<Node> {
    if v == 0 then [] else if v == 1 then [0] else if v <= 3 then [1] else if v == 4 then [2]
    else if v == 5 then [3] else if v == 6 then [4, 5] else [6]
  }

  function Behind(v: Node): seq<Node> {
    if v == 0 then [1] else if v == 1 then [2, 3] else if v == 2 then [4] else if v == 3 then [5]
    else if v <= 5 then [6] else if v == 6 then [7] else []
  }

  // A table of the nodes, with a column for each host.
  function Hosts<T>(f: (Node, Node) -> T): Table<T> {
    map v: Node | v in NODES :: map h: Node | h in {0, 7} :: f(v, h)
  }

  // Where a search from 0 meets the slow way first, and one from 7 the fast one.
  function TransmitTo(v: Node, h: Node): nat {
    if h == 0 then
      if v == 0 then 0 else if v == 1 then 80 else if v <= 3 then 160 else if v == 4 then 960
      else if v == 5 then 240 else if v == 6 then 1040 else 1120
    else
      if v == 7 then 0 else if v == 6 then 80 else if v >= 4 then 160 else if v == 2 then 960
      else if v == 3 then 240 else if v == 1 then 320 else 400
  }

  function BandwidthTo(v: Node, h: Node): nat {
    if v == h then BW_MAX
    else if (h == 0 && (v == 4 || v >= 6)) || (h == 7 && v == 2) then SLOW else FAST
  }

  function FiguresOf(v: Node, h: Node): Figures { Figures(HopsTo(h, v), TransmitTo(v, h), BandwidthTo(v, h)) }

  lemma TwoWaysLinks(u: Node, v: Node)
    ensures Link(TwoWays(), u, v) <==> Forward(u, v) || Forward(v, u)
    ensures Link(TwoWays(), u, v) ==> TwoWays().nbr2if[u][v] == Iface(v + 1, true, 1, RateOf(u, v))
    ensures HasEntry(TwoWays(), u, v) <==> Link(TwoWays(), u, v)
  {
  }

  lemma TwoWaysFormed()
    ensures WellFormed(TwoWays()) && PortsDistinct(TwoWays()) && UniformDelay(TwoWays(), 1) && SameBothWays(TwoWays())
  {
    var net := TwoWays();
    forall u: Node, v: Node
      ensures HasEntry(net, u, v) ==> u in net.kind && v in net.kind && Link(net, u, v) && Link(net, v, u)
      ensures HasEntry(net, u, v) ==> net.nbr2if[u][v] == Iface(v + 1, true, 1, RateOf(u, v))
      ensures HasEntry(net, v, u) ==> net.nbr2if[v][u] == Iface(u + 1, true, 1, RateOf(v, u))
    {
      TwoWaysLinks(u, v);
      TwoWaysLinks(v, u);
    }
    hide TwoWays;
  }

  lemma TwoWaysKinds(v: Node)
    ensures v in TwoWays().kind <==> v < 8
    ensures IsHost(TwoWays(), v) <==> v == 0 || v == 7
    ensures IsSwitch(TwoWays(), v) <==> 0 < v < 7
  {
  }

  function DistancesTo(h: Node): map<Node, nat> { map v: Node | v in NODES :: HopsTo(h, v) }

  lemma DistancesAt(h: Node, v: Node)
    ensures v in DistancesTo(h) <==> v < 8
    ensures v < 8 ==> DistancesTo(h)[v] == HopsTo(h, v)
  {
  }

  lemma TwoWaysNearer(h: Node, v: Node, u: Node)
    requires h == 0 || h == 7
    ensures Nearer(TwoWays(), h, DistancesTo(h), v, u) <==> if h == 0 then Forward(u, v) else Forward(v, u)
  {
    hide TwoWays, DistancesTo;
    TwoWaysLinks(v, u);
    TwoWaysKinds(u);
    DistancesAt(h, v);
    DistancesAt(h, u);
  }

  lemma TwoWaysFalls(h: Node, v: Node) returns (u: Node)
    requires (h == 0 || h == 7) && v < 8 && v != h
    ensures Nearer(TwoWays(), h, DistancesTo(h), v, u)
  {
    hide TwoWays, DistancesTo, Nearer;
    u := if h == 0 then Before(v)[0] else Behind(v)[0];
    TwoWaysNearer(h, v, u);
  }

  lemma TwoWaysSlope(h: Node, v: Node, u: Node)
    requires (h == 0 || h == 7) && Link(TwoWays(), v, u)
    ensures v < 8 && u < 8 && HopsTo(h, v) <= HopsTo(h, u) + 1
  {
    hide TwoWays;
    TwoWaysLinks(v, u);
  }

  lemma TwoWaysDistances(h: Node)
    requires h == 0 || h == 7
    ensures Distances(TwoWays(), h, DistancesTo(h))
  {
    hide TwoWays, DistancesTo, Link, HopsTo, Nearer;
    var net, dis := TwoWays(), DistancesTo(h);
    forall v: Node ensures (v in dis <==> v < 8) && (v < 8 ==> dis[v] == HopsTo(h, v)) { DistancesAt(h, v); }
    HopsToSelf(h);
    forall v | v in dis && v != h ensures exists u :: Nearer(net, h, dis, v, u) {
      var u := TwoWaysFalls(h, v);
    }
    forall v, u | Link(net, v, u) && u in dis && Relays(net, h, u) ensures v in dis && dis[v] <= dis[u] + 1 {
      TwoWaysSlope(h, v, u);
    }
    PotentialIsDistance(net, h, dis);
  }

  lemma HopsToSelf(h: Node)
    requires h == 0 || h == 7
    ensures HopsTo(h, h) == 0
  {
  }

  function Hops(h: Node, v: Node): seq<Node> { if h == 0 then Before(v) else Behind(v) }

  function NextHopTable(): Table<seq<Node>> {
    map v: Node | v in NODES :: map h: Node | h in {0, 7} && h != v :: Hops(h, v)
  }

  lemma NextHopTableAt(h: Node, v: Node)
    ensures Cell(NextHopTable(), v, h) == if v < 8 && (h == 0 || h == 7) && h != v then Some(Hops(h, v)) else None
  {
    hide Hops;
  }

  lemma HopsAre(h: Node, v: Node, u: Node)
    requires (h == 0 || h == 7) && v < 8
    ensures u in Hops(h, v) <==> if h == 0 then Forward(u, v) else Forward(v, u)
    ensures Distinct(Hops(h, v)) && (v == h ==> Hops(h, v) == [])
  {
  }

  lemma TwoWaysNextHops(h: Node, v: Node)
    requires h == 0 || h == 7
    ensures NextHops(TwoWays(), h, DistancesTo(h), v, Lookup(NextHopTable(), v, h))
    ensures Cell(NextHopTable(), v, h).Some? <==> v in DistancesTo(h) && v != h
  {
    hide TwoWays, DistancesTo, NextHopTable, Hops, Nearer, Forward;
    NextHopTableAt(h, v);
    DistancesAt(h, v);
    var hops := Lookup(NextHopTable(), v, h);
    if v < 8 { HopsAre(h, v, v); }
    forall u: Node ensures u in hops <==> Nearer(TwoWays(), h, DistancesTo(h), v, u) {
      TwoWaysNearer(h, v, u);
      if v < 8 { HopsAre(h, v, u); } else { NoWay(u, v); }
    }
    NearerAsHops(h, v, hops);
  }

  lemma NoWay(u: Node, v: Node)
    ensures v >= 8 ==> !Forward(u, v) && !Forward(v, u)
  {
  }

  lemma NearerAsHops(h: Node, v: Node, hops: seq<Node>)
    requires Distinct(hops) && forall u: Node :: u in hops <==> Nearer(TwoWays(), h, DistancesTo(h), v, u)
    ensures NextHops(TwoWays(), h, DistancesTo(h), v, hops)
  {
    hide TwoWays, DistancesTo, Forward;
    forall u: Node ensures Link(TwoWays(), u, v) <==> Link(TwoWays(), v, u) {
      TwoWaysLinks(u, v);
      TwoWaysLinks(v, u);
    }
  }

  lemma TwoWaysRoutes(h: Node)
    requires h == 0 || h == 7
    ensures RoutesTo(TwoWays(), h, DistancesTo(h), NextHopTable())
  {
    hide TwoWays, DistancesTo, NextHopTable, Distances, NextHops;
    TwoWaysDistances(h);
    forall v ensures NextHops(TwoWays(), h, DistancesTo(h), v, Lookup(NextHopTable(), v, h))
      ensures Cell(NextHopTable(), v, h).Some? <==> v in DistancesTo(h) && v != h
    {
      TwoWaysNextHops(h, v);
    }
  }

  ghost predicate Shown(h: Node, v: Node)
    requires WellFormed(TwoWays())
  {
    Attained(TwoWays(), 1000, h, v, HopsTo(h, v), FiguresOf(v, h))
  }

  lemma ShownHost(h: Node)
    requires WellFormed(TwoWays()) && (h == 0 || h == 7)
    ensures Shown(h, h)
  {
    hide TwoWays;
    assert Route(TwoWays(), h, h, [h]);
  }

  predicate OneFurther(h: Node, u: Node, v: Node) {
    && u < 8 && v < 8 && (if h == 0 then Forward(u, v) else Forward(v, u))
    && TransmitTo(v, h) == TransmitTo(u, h) + (if RateOf(u, v) == SLOW then 800 else 80)
    && BandwidthTo(v, h) == if RateOf(u, v) < BandwidthTo(u, h) then RateOf(u, v) else BandwidthTo(u, h)
  }

  lemma StepFacts(h: Node, u: Node, v: Node)
    requires (h == 0 || h == 7) && OneFurther(h, u, v)
    ensures Link(TwoWays(), u, v) && TwoWays().nbr2if[u][v] == Iface(v + 1, true, 1, RateOf(u, v))
    ensures Relays(TwoWays(), h, u) && (u == h ==> HopsTo(h, u) == 0) && HopsTo(h, v) == HopsTo(h, u) + 1
    ensures TxTime(1000, FAST) == 80 && TxTime(1000, SLOW) == 800 && (RateOf(u, v) == SLOW || RateOf(u, v) == FAST)
  {
    hide TwoWays;
    TwoWaysLinks(u, v);
    TwoWaysKinds(u);
  }

  // The figures of v, from those of its neighbour u on the way to h.
  lemma ShownNext(h: Node, u: Node, v: Node)
    requires WellFormed(TwoWays()) && (h == 0 || h == 7) && OneFurther(h, u, v) && Shown(h, u)
    ensures Shown(h, v)
  {
    StepFacts(h, u, v);
    hide Attained, TxTime, WellFormed, TwoWays, RateOf, HopsTo;
    Extend(TwoWays(), 1000, h, u, HopsTo(h, u), FiguresOf(u, h), v);
  }

  lemma StepsOut()
    ensures OneFurther(0, 0, 1) && OneFurther(0, 1, 2) && OneFurther(0, 1, 3) && OneFurther(0, 2, 4) && OneFurther(0, 3, 5)
    ensures OneFurther(0, 4, 6) && OneFurther(0, 6, 7)
    ensures OneFurther(7, 7, 6) && OneFurther(7, 6, 4) && OneFurther(7, 6, 5) && OneFurther(7, 4, 2) && OneFurther(7, 5, 3)
    ensures OneFurther(7, 3, 1) && OneFurther(7, 1, 0)
  {
  }

  lemma AllShown(h: Node)
    requires WellFormed(TwoWays()) && (h == 0 || h == 7)
    ensures forall v: Node :: v < 8 ==> Shown(h, v)
  {
    ShownHost(h);
    StepsOut();
    hide Shown, OneFurther, TwoWays, WellFormed;
    if h == 0 {
      ShownNext(0, 0, 1);
      ShownNext(0, 1, 2);
      ShownNext(0, 1, 3);
      ShownNext(0, 2, 4);
      ShownNext(0, 3, 5);
      ShownNext(0, 4, 6);
      ShownNext(0, 6, 7);
    } else {
      ShownNext(7, 7, 6);
      ShownNext(7, 6, 4);
      ShownNext(7, 6, 5);
      ShownNext(7, 4, 2);
      ShownNext(7, 5, 3);
      ShownNext(7, 3, 1);
      ShownNext(7, 1, 0);
    }
    forall v: Node | v < 8 ensures Shown(h, v) {
      assert v == 0 || v == 1 || v == 2 || v == 3 || v == 4 || v == 5 || v == 6 || v == 7;
    }
  }

  function AllDistances(): map<Node, map<Node, nat>> { map h: Node | h in {0, 7} :: DistancesTo(h) }

  function DelayTo(v: Node, h: Node): nat { HopsTo(h, v) }

  lemma HostsAt(f: (Node, Node) -> nat, v: Node, h: Node)
    ensures Cell(Hosts(f), v, h) == if v < 8 && (h == 0 || h == 7) then Some(f(v, h)) else None
  {
  }

  lemma RoutesGathered()
    ensures AllRoutes(TwoWays(), AllDistances(), NextHopTable())
  {
    hide RoutesTo, TwoWays, DistancesTo, NextHopTable, IsHost, Hops;
    TwoWaysRoutes(0);
    TwoWaysRoutes(7);
    forall h: Node ensures IsHost(TwoWays(), h) <==> h in AllDistances() { TwoWaysKinds(h); }
    forall v: Node, h: Node | Cell(NextHopTable(), v, h).Some? ensures h in AllDistances() { NextHopTableAt(h, v); }
  }

  lemma FiguresGathered()
    requires WellFormed(TwoWays())
    ensures AllFigures(TwoWays(), 1000, AllDistances(), Hosts(DelayTo), Hosts(TransmitTo), Hosts(BandwidthTo))
  {
    hide Attained, HopsTo, TransmitTo, BandwidthTo, WellFormed, TwoWays, FiguresTo, DistancesTo;
    FiguresGatheredTo(0);
    FiguresGatheredTo(7);
  }

  lemma FiguresGatheredTo(h: Node)
    requires WellFormed(TwoWays()) && (h == 0 || h == 7)
    ensures FiguresTo(TwoWays(), 1000, h, DistancesTo(h), Hosts(DelayTo), Hosts(TransmitTo), Hosts(BandwidthTo))
  {
    hide Attained, HopsTo, TransmitTo, BandwidthTo, WellFormed, TwoWays, DistancesTo, Hosts;
    AllShown(h);
    forall v: Node | v in DistancesTo(h)
      ensures v < 8 && DistancesTo(h)[v] == HopsTo(h, v) && Shown(h, v)
      ensures Cell(Hosts(DelayTo), v, h) == Some(HopsTo(h, v)) && Cell(Hosts(TransmitTo), v, h) == Some(TransmitTo(v, h))
      ensures Cell(Hosts(BandwidthTo), v, h) == Some(BandwidthTo(v, h))
    {
      DistancesAt(h, v);
      HostsAt(DelayTo, v, h);
      HostsAt(TransmitTo, v, h);
      HostsAt(BandwidthTo, v, h);
    }
  }

  /** On this network, with one delay everywhere, exact routes and figures each attained by a
      shortest route still give the two hosts different round-trip times from the two sides. */
  lemma DirectionsDiffer()
    ensures WellFormed(TwoWays()) && PortsDistinct(TwoWays()) && UniformDelay(TwoWays(), 1) && SameBothWays(TwoWays())
    ensures IsHost(TwoWays(), 0) && IsHost(TwoWays(), 7) && AllRoutes(TwoWays(), AllDistances(), NextHopTable())
    ensures AllFigures(TwoWays(), 1000, AllDistances(), Hosts(DelayTo), Hosts(TransmitTo), Hosts(BandwidthTo))
    ensures BaseRtt(Hosts(DelayTo), Hosts(TransmitTo), 0, 7) == 410 && BaseRtt(Hosts(DelayTo), Hosts(TransmitTo), 7, 0) == 1130
  {
    TwoWaysFormed();
    TwoWaysKinds(0);
    TwoWaysKinds(7);
    hide TwoWays, WellFormed, Hosts, AllDistances, NextHopTable, UniformDelay, SameBothWays, AllRoutes, AllFigures, PortsDistinct, BaseRtt;
    RoutesGathered();
    FiguresGathered();
    RttFromEachSide();
  }

  lemma RttFromEachSide()
    ensures BaseRtt(Hosts(DelayTo), Hosts(TransmitTo), 0, 7) == 410 && BaseRtt(Hosts(DelayTo), Hosts(TransmitTo), 7, 0) == 1130
  {
    hide Hosts;
    HostsAt(DelayTo, 0, 7);
    HostsAt(DelayTo, 7, 0);
    HostsAt(TransmitTo, 0, 7);
    HostsAt(TransmitTo, 7, 0);
  }
}
