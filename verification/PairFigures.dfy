/** What the figures of a pair of nodes are made of: the delays, transmit times and bandwidths of
    the links of one shortest route. */
module PairFigures {
  import opened Common
  import opened Network
  import opened Routing
  import opened Rtt

  function Sum(xs: seq<nat>): nat {
    if xs == [] then 0 else xs[0] + Sum(xs[1..])
  }

  /** x is the least of xs, provided that those fit in 64 bits. */
  ghost predicate Least(xs: seq<nat>, x: nat) {
    && (forall y :: y in xs ==> x <= y)
    && (xs != [] && (forall y :: y in xs ==> y < 0x1_0000_0000_0000_0000) ==> x in xs)
  }

  /** One delay, transmit time and bandwidth per link of the path, each link in the direction in
      which it leads from the end of the path to its beginning. A transmit time is the number of
      whole nanoseconds, and no more, that the payload takes at the link's bits per second. */
  ghost predicate Measured(net: Net, payload: nat, p: seq<Node>, delays: seq<nat>, times: seq<nat>, bws: seq<nat>)
    requires WellFormed(net) && IsPath(net, p)
  {
    && |delays| == |times| == |bws| == |p| - 1
    && forall i: nat :: i + 1 < |p| ==> LinkMeasured(net, payload, p, i, delays[i], times[i], bws[i])
  }

  ghost predicate LinkMeasured(net: Net, payload: nat, p: seq<Node>, i: nat, delay: nat, time: nat, bw: nat) {
    && i + 1 < |p| && HasEntry(net, p[i + 1], p[i])
    && delay == net.nbr2if[p[i + 1]][p[i]].delay && bw == net.nbr2if[p[i + 1]][p[i]].bw
    && time * bw <= payload * 8_000_000_000 < (time + 1) * bw
  }

  lemma TxTimeIs(payload: nat, bw: nat)
    requires bw > 0
    ensures TxTime(payload, bw) * bw <= payload * 8_000_000_000 < (TxTime(payload, bw) + 1) * bw
  {
    var bits := payload * 8_000_000_000;
    assert bits == payload * 1_000_000_000 * 8;
    assert bits == bits / bw * bw + bits % bw;
  }

  lemma FirstLink(net: Net, p: seq<Node>)
    requires WellFormed(net) && IsPath(net, p) && |p| > 1
    ensures Link(net, p[1], p[0]) && net.nbr2if[p[1]][p[0]].bw > 0 && IsPath(net, p[1..])
  {
    PathTail(net, p);
  }

  // One more link at the beginning of the path.
  lemma MeasuredMore(net: Net, payload: nat, p: seq<Node>, delays: seq<nat>, times: seq<nat>, bws: seq<nat>)
    requires WellFormed(net) && IsPath(net, p) && |p| > 1 && IsPath(net, p[1..]) && Link(net, p[1], p[0])
    requires Measured(net, payload, p[1..], delays, times, bws)
    ensures var link := net.nbr2if[p[1]][p[0]];
      link.bw > 0 && Measured(net, payload, p, [link.delay] + delays, [TxTime(payload, link.bw)] + times, [link.bw] + bws)
  {
    var link := net.nbr2if[p[1]][p[0]];
    assert link.bw > 0;
    hide TxTime, WellFormed, IsPath;
    TxTimeIs(payload, link.bw);
    var d, t, b := [link.delay] + delays, [TxTime(payload, link.bw)] + times, [link.bw] + bws;
    forall i: nat | i + 1 < |p| ensures LinkMeasured(net, payload, p, i, d[i], t[i], b[i]) {
      if i > 0 { assert LinkMeasured(net, payload, p[1..], i - 1, delays[i - 1], times[i - 1], bws[i - 1]); }
    }
  }

  // The figures of a path, link by link.
  lemma {:induction false} FiguresOfPath(net: Net, payload: nat, p: seq<Node>)
    returns (delays: seq<nat>, times: seq<nat>, bws: seq<nat>)
    requires WellFormed(net) && IsPath(net, p)
    ensures Measured(net, payload, p, delays, times, bws)
    ensures var f := PathFigures(net, payload, p); f.delay == Sum(delays) && f.tx == Sum(times) && Least(bws, f.bw)
    ensures PathFigures(net, payload, p).bw < 0x1_0000_0000_0000_0000
  {
    if |p| == 1 {
      delays, times, bws := [], [], [];
    } else {
      FirstLink(net, p);
      hide TxTime, WellFormed, IsPath, Link, Least, LinkMeasured;
      var d, t, b := FiguresOfPath(net, payload, p[1..]);
      var link := net.nbr2if[p[1]][p[0]];
      MeasuredMore(net, payload, p, d, t, b);
      OneMore(link.bw, b, PathFigures(net, payload, p[1..]).bw);
      hide Measured;
      delays, times, bws := [link.delay] + d, [TxTime(payload, link.bw)] + t, [link.bw] + b;
    }
  }

  lemma OneMore(x: nat, xs: seq<nat>, y: nat)
    requires Least(xs, y) && y < 0x1_0000_0000_0000_0000 && (xs == [] ==> y == BW_MAX)
    ensures Least([x] + xs, if x < y then x else y)
  {
    assert x in [x] + xs && forall z :: z in xs ==> z in [x] + xs;
  }

  /** The figures are those of p, which is a shortest route from v to h. */
  ghost predicate Explains(net: Net, payload: nat, v: Node, h: Node, d: nat, p: seq<Node>, delays: seq<nat>, times: seq<nat>,
                           bws: seq<nat>, delay: nat, tx: nat, bw: nat)
    requires WellFormed(net)
  {
    && Route(net, v, h, p) && |p| == d + 1 && Measured(net, payload, p, delays, times, bws)
    && delay == Sum(delays) && tx == Sum(times) && Least(bws, bw)
  }

  /** The delay, transmit delay and bandwidth recorded for a pair come from the links of one
      shortest route: two sums, and a least bandwidth. */
  lemma FiguresExplained(net: Net, payload: nat, dists: map<Node, map<Node, nat>>, pairDelay: Table<nat>, pairTxDelay: Table<nat>,
                         pairBw: Table<nat>, v: Node, h: Node)
    returns (p: seq<Node>, delays: seq<nat>, times: seq<nat>, bws: seq<nat>)
    requires WellFormed(net) && AllFigures(net, payload, dists, pairDelay, pairTxDelay, pairBw) && h in dists && v in dists[h]
    ensures Explains(net, payload, v, h, dists[h][v], p, delays, times, bws,
                     At(pairDelay, v, h), At(pairTxDelay, v, h), At(pairBw, v, h))
  {
    hide PathFigures, WellFormed, Measured, Least;
    var f := Figures(At(pairDelay, v, h), At(pairTxDelay, v, h), At(pairBw, v, h));
    assert FiguresTo(net, payload, h, dists[h], pairDelay, pairTxDelay, pairBw);
    assert Attained(net, payload, h, v, dists[h][v], f);
    p :| Route(net, v, h, p) && |p| == dists[h][v] + 1 && PathFigures(net, payload, p) == f;
    delays, times, bws := FiguresOfPath(net, payload, p);
  }

  lemma BdpIs(rtt: nat, bw: nat)
    ensures var bdp := Product(rtt, bw) / 1_000_000_000 / 8; bdp * 8_000_000_000 <= rtt * bw < (bdp + 1) * 8_000_000_000
  {
  }

  /** From the links to what is recorded for two hosts, under both orders: the round-trip time is
      twice the delays and once the transmit times of a shortest route from the first to the
      second, and the product is that time at the route's bandwidth, in whole bytes. */
  lemma HostPairExplained(net: Net, payload: nat, dists: map<Node, map<Node, nat>>, pairDelay: Table<nat>, pairTxDelay: Table<nat>,
                          pairBw: Table<nat>, nodes: seq<Node>, pairRtt: Table<nat>, pairBdp: Table<nat>, maxRtt: nat, maxBdp: nat,
                          i: nat, j: nat)
    returns (p: seq<Node>, delays: seq<nat>, times: seq<nat>, bws: seq<nat>)
    requires WellFormed(net) && AllFigures(net, payload, dists, pairDelay, pairTxDelay, pairBw)
    requires forall v :: v in nodes ==> v in net.kind
    requires PairsDone(nodes, net.kind, (a, b) => BaseRtt(pairDelay, pairTxDelay, a, b), |nodes|, |nodes|, pairRtt, maxRtt)
    requires PairsDone(nodes, net.kind, (a, b) => BaseBdp(pairDelay, pairTxDelay, pairBw, a, b), |nodes|, |nodes|, pairBdp, maxBdp)
    requires HostPair(nodes, net.kind, i, j) && nodes[j] in dists && nodes[i] in dists[nodes[j]]
    ensures var a, b := nodes[i], nodes[j];
      && Explains(net, payload, a, b, dists[b][a], p, delays, times, bws,
                  At(pairDelay, a, b), At(pairTxDelay, a, b), At(pairBw, a, b))
      && At(pairRtt, a, b) == At(pairRtt, b, a) == 2 * Sum(delays) + Sum(times) <= maxRtt
      && At(pairBdp, a, b) == At(pairBdp, b, a) <= maxBdp
      && At(pairBdp, a, b) * 8_000_000_000 <= At(pairRtt, a, b) * At(pairBw, a, b) < (At(pairBdp, a, b) + 1) * 8_000_000_000
  {
    var a, b := nodes[i], nodes[j];
    p, delays, times, bws := FiguresExplained(net, payload, dists, pairDelay, pairTxDelay, pairBw, a, b);
    hide AllFigures, WellFormed, Measured, Least, Sum, Route, Product;
    BdpIs(BaseRtt(pairDelay, pairTxDelay, a, b), At(pairBw, a, b));
    assert Passed(|nodes|, |nodes|, i, j);
    assert Recorded(pairRtt, maxRtt, a, b, BaseRtt(pairDelay, pairTxDelay, a, b));
    assert Recorded(pairBdp, maxBdp, a, b, BaseBdp(pairDelay, pairTxDelay, pairBw, a, b));
  }

  /** Hosts for which nothing was found get a round-trip time and a product of 0. */
  lemma NothingFound(kind: map<Node, Kind>, pairDelay: Table<nat>, pairTxDelay: Table<nat>, pairBw: Table<nat>, nodes: seq<Node>,
                     pairRtt: Table<nat>, pairBdp: Table<nat>, maxRtt: nat, maxBdp: nat, i: nat, j: nat)
    requires forall v :: v in nodes ==> v in kind
    requires PairsDone(nodes, kind, (a, b) => BaseRtt(pairDelay, pairTxDelay, a, b), |nodes|, |nodes|, pairRtt, maxRtt)
    requires PairsDone(nodes, kind, (a, b) => BaseBdp(pairDelay, pairTxDelay, pairBw, a, b), |nodes|, |nodes|, pairBdp, maxBdp)
    requires HostPair(nodes, kind, i, j)
    requires Cell(pairDelay, nodes[i], nodes[j]) == None && Cell(pairTxDelay, nodes[i], nodes[j]) == None
    ensures Cell(pairRtt, nodes[i], nodes[j]) == Cell(pairRtt, nodes[j], nodes[i]) == Some(0)
    ensures Cell(pairBdp, nodes[i], nodes[j]) == Cell(pairBdp, nodes[j], nodes[i]) == Some(0)
  {
    var a, b := nodes[i], nodes[j];
    ZeroFigures(pairDelay, pairTxDelay, pairBw, a, b);
    hide BaseRtt, BaseBdp, Cell;
    assert Passed(|nodes|, |nodes|, i, j);
    assert Recorded(pairRtt, maxRtt, a, b, BaseRtt(pairDelay, pairTxDelay, a, b));
    assert Recorded(pairBdp, maxBdp, a, b, BaseBdp(pairDelay, pairTxDelay, pairBw, a, b));
  }

  lemma ZeroFigures(pairDelay: Table<nat>, pairTxDelay: Table<nat>, pairBw: Table<nat>, a: Node, b: Node)
    requires Cell(pairDelay, a, b) == None && Cell(pairTxDelay, a, b) == None
    ensures BaseRtt(pairDelay, pairTxDelay, a, b) == 0 && BaseBdp(pairDelay, pairTxDelay, pairBw, a, b) == 0
  {
    assert At(pairDelay, a, b) == 0 && At(pairTxDelay, a, b) == 0;
    assert Product(0, At(pairBw, a, b)) == 0;
    hide Cell, At;
  }
}
