/** Base round-trip times and bandwidth-delay products of host pairs, and their maxima. */
module Rtt {
  import opened Common
  import opened Network
  import opened Routing

  // operator[] on a number-valued table: a missing entry reads as 0.
  function At(t: Table<nat>, v: Node, h: Node): nat {
    match Cell(t, v, h) case Some(x) => x case None => 0
  }

  function BaseRtt(delay: Table<nat>, tx: Table<nat>, a: Node, b: Node): nat {
    At(delay, a, b) * 2 + At(tx, a, b)
  }

  function BaseBdp(delay: Table<nat>, tx: Table<nat>, bw: Table<nat>, a: Node, b: Node): nat {
    Product(BaseRtt(delay, tx, a, b), At(bw, a, b)) / 1_000_000_000 / 8
  }

  function Product(x: nat, y: nat): nat { x * y }

  // The value of a pair is written under both orders.
  function SetBoth(t: Table<nat>, a: Node, b: Node, x: nat): Table<nat> {
    Put<nat>(Put<nat>(t, a, b, x), b, a, x)
  }

  // Two hosts, in the order in which the loops meet them.
  predicate HostPair(nodes: seq<Node>, kind: map<Node, Kind>, i: int, j: int)
    requires forall v :: v in nodes ==> v in kind
  {
    0 <= i < j < |nodes| && kind[nodes[i]] == Host && kind[nodes[j]] == Host
  }

  // The loops have come past the pair (i, j): the outer loop stands at m, the inner at n.
  predicate Passed(m: int, n: int, i: int, j: int) {
    i < m || (i == m && j < n)
  }

  // The value x of the pair is recorded under both orders and counted in the maximum.
  ghost predicate Recorded(t: Table<nat>, max: nat, a: Node, b: Node, x: nat) {
    Cell(t, a, b) == Some(x) && Cell(t, b, a) == Some(x) && x <= max
  }

  /** All passed pairs are recorded, and the maximum is 0 or the value of some passed pair. */
  ghost predicate PairsDone(nodes: seq<Node>, kind: map<Node, Kind>, value: (Node, Node) -> nat, m: int, n: int,
                            t: Table<nat>, max: nat)
    requires forall v :: v in nodes ==> v in kind
  {
    && (forall i, j :: HostPair(nodes, kind, i, j) && Passed(m, n, i, j) ==> Recorded(t, max, nodes[i], nodes[j], value(nodes[i], nodes[j])))
    && (max == 0 || exists i, j :: HostPair(nodes, kind, i, j) && Passed(m, n, i, j) && value(nodes[i], nodes[j]) == max)
  }

  lemma RecordPair(nodes: seq<Node>, kind: map<Node, Kind>, value: (Node, Node) -> nat, m: int, n: int, t: Table<nat>, max: nat)
    requires forall v :: v in nodes ==> v in kind
    requires Distinct(nodes) && HostPair(nodes, kind, m, n) && PairsDone(nodes, kind, value, m, n, t, max)
    ensures var x := value(nodes[m], nodes[n]);
            PairsDone(nodes, kind, value, m, n + 1, SetBoth(t, nodes[m], nodes[n], x), if x > max then x else max)
  {
    hide Cell;
    var x := value(nodes[m], nodes[n]);
    var t' := SetBoth(t, nodes[m], nodes[n], x);
    assert Passed(m, n + 1, m, n);
    forall i, j | HostPair(nodes, kind, i, j) && Passed(m, n + 1, i, j)
      ensures Recorded(t', if x > max then x else max, nodes[i], nodes[j], value(nodes[i], nodes[j]))
    {
      if (i, j) != (m, n) {
        assert Passed(m, n, i, j) && Recorded(t, max, nodes[i], nodes[j], value(nodes[i], nodes[j]));
      }
    }
  }

  // No pair lies between the two positions.
  lemma SkipPairs(nodes: seq<Node>, kind: map<Node, Kind>, value: (Node, Node) -> nat, m: int, n: int, t: Table<nat>, max: nat,
                  m': int, n': int)
    requires 0 <= m < |nodes| && forall v :: v in nodes ==> v in kind
    requires PairsDone(nodes, kind, value, m, n, t, max)
    requires || (m' == m && n' == n + 1 == m + 1)
             || (m' == m && n' == n + 1 <= |nodes| && 0 <= n && kind[nodes[n]] == Switch)
             || (m' == n' == m + 1 && n == |nodes|)
             || (m' == n' == m + 1 && n == m && kind[nodes[m]] == Switch)
    ensures PairsDone(nodes, kind, value, m', n', t, max)
  {
    forall i, j | HostPair(nodes, kind, i, j) ensures Passed(m, n, i, j) <==> Passed(m', n', i, j) {
    }
  }

  method HostPairFigures(nodes: seq<Node>, kind: map<Node, Kind>, pairDelay: Table<nat>, pairTxDelay: Table<nat>, pairBw: Table<nat>)
    returns (pairRtt: Table<nat>, pairBdp: Table<nat>, maxRtt: nat, maxBdp: nat)
    requires Distinct(nodes) && forall v :: v in nodes ==> v in kind
    ensures PairsDone(nodes, kind, (a, b) => BaseRtt(pairDelay, pairTxDelay, a, b), |nodes|, |nodes|, pairRtt, maxRtt)
    ensures PairsDone(nodes, kind, (a, b) => BaseBdp(pairDelay, pairTxDelay, pairBw, a, b), |nodes|, |nodes|, pairBdp, maxBdp)
  {
    hide PairsDone, BaseRtt, BaseBdp, SetBoth, Distinct, Passed, Recorded, Put, Cell;
    pairRtt, pairBdp, maxRtt, maxBdp := map[], map[], 0, 0;
    ghost var rtts := (a: Node, b: Node) => BaseRtt(pairDelay, pairTxDelay, a, b);
    ghost var bdps := (a: Node, b: Node) => BaseBdp(pairDelay, pairTxDelay, pairBw, a, b);
    NoPairs(nodes, kind, rtts);
    NoPairs(nodes, kind, bdps);
    for i := 0 to |nodes|
      invariant PairsDone(nodes, kind, rtts, i, i, pairRtt, maxRtt)
      invariant PairsDone(nodes, kind, bdps, i, i, pairBdp, maxBdp)
    {
      if kind[nodes[i]] == Host {
        SkipPairs(nodes, kind, rtts, i, i, pairRtt, maxRtt, i, i + 1);
        SkipPairs(nodes, kind, bdps, i, i, pairBdp, maxBdp, i, i + 1);
        for j := i + 1 to |nodes|
          invariant PairsDone(nodes, kind, rtts, i, j, pairRtt, maxRtt)
          invariant PairsDone(nodes, kind, bdps, i, j, pairBdp, maxBdp)
        {
          if kind[nodes[j]] == Host {
            var rtt := BaseRtt(pairDelay, pairTxDelay, nodes[i], nodes[j]);
            var bdp := BaseBdp(pairDelay, pairTxDelay, pairBw, nodes[i], nodes[j]);
            RecordPair(nodes, kind, rtts, i, j, pairRtt, maxRtt);
            RecordPair(nodes, kind, bdps, i, j, pairBdp, maxBdp);
            pairBdp := SetBoth(pairBdp, nodes[i], nodes[j], bdp);
            pairRtt := SetBoth(pairRtt, nodes[i], nodes[j], rtt);
            if bdp > maxBdp { maxBdp := bdp; }
            if rtt > maxRtt { maxRtt := rtt; }
          } else {
            SkipPairs(nodes, kind, rtts, i, j, pairRtt, maxRtt, i, j + 1);
            SkipPairs(nodes, kind, bdps, i, j, pairBdp, maxBdp, i, j + 1);
          }
        }
      }
      ghost var reached := if kind[nodes[i]] == Host then |nodes| else i;
      SkipPairs(nodes, kind, rtts, i, reached, pairRtt, maxRtt, i + 1, i + 1);
      SkipPairs(nodes, kind, bdps, i, reached, pairBdp, maxBdp, i + 1, i + 1);
    }
  }

  lemma NoPairs(nodes: seq<Node>, kind: map<Node, Kind>, value: (Node, Node) -> nat)
    requires forall v :: v in nodes ==> v in kind
    ensures PairsDone(nodes, kind, value, 0, 0, map[], 0)
  {
  }

  // One delay on every link, as the topology reader asserts.
  ghost predicate UniformDelay(net: Net, delay: nat) {
    forall u, v :: Link(net, u, v) ==> net.nbr2if[u][v].delay == delay
  }

  lemma {:induction false} UniformDelayPath(net: Net, payload: nat, p: seq<Node>, delay: nat)
    requires WellFormed(net) && IsPath(net, p) && UniformDelay(net, delay)
    ensures PathFigures(net, payload, p).delay == Product(delay, |p| - 1)
  {
    hide TxTime;
    if |p| > 1 {
      PathTail(net, p);
      assert Link(net, p[1], p[0]);
      UniformDelayPath(net, payload, p[1..], delay);
    }
  }

  lemma UniformDelayOf(net: Net, payload: nat, dis: map<Node, nat>, pairDelay: Table<nat>, pairTxDelay: Table<nat>,
                       pairBw: Table<nat>, a: Node, b: Node, delay: nat)
    requires WellFormed(net) && UniformDelay(net, delay)
    requires FiguresTo(net, payload, b, dis, pairDelay, pairTxDelay, pairBw) && a in dis && a != b
    ensures At(pairDelay, a, b) == Product(delay, dis[a])
  {
    hide TxTime, Product;
    var f := Figures(Cell(pairDelay, a, b).value, Cell(pairTxDelay, a, b).value, Cell(pairBw, a, b).value);
    assert Attained(net, payload, b, a, dis[a], f);
    var p :| Route(net, a, b, p) && |p| == dis[a] + 1 && PathFigures(net, payload, p) == f;
    UniformDelayPath(net, payload, p, delay);
  }

  lemma HopsSymmetric(net: Net, dists: map<Node, map<Node, nat>>, nextHop: Table<seq<Node>>, a: Node, b: Node)
    requires WellFormed(net) && AllRoutes(net, dists, nextHop) && IsHost(net, a) && IsHost(net, b) && a in dists[b]
    ensures a in dists && b in dists && b in dists[a] && dists[a][b] == dists[b][a]
  {
    DistanceSymmetric(net, a, b, dists[a], dists[b]);
  }

  /** With one delay on every link, the delay of two hosts is the same in both directions, hops times
      the delay; their round-trip times can then differ in the transmit delay only. */
  lemma UniformDelaySymmetric(net: Net, payload: nat, dists: map<Node, map<Node, nat>>, nextHop: Table<seq<Node>>,
                              pairDelay: Table<nat>, pairTxDelay: Table<nat>, pairBw: Table<nat>, a: Node, b: Node, delay: nat)
    requires WellFormed(net) && UniformDelay(net, delay)
    requires AllRoutes(net, dists, nextHop) && AllFigures(net, payload, dists, pairDelay, pairTxDelay, pairBw)
    requires IsHost(net, a) && IsHost(net, b) && a != b && a in dists[b]
    ensures b in dists[a] && dists[a][b] == dists[b][a]
    ensures At(pairDelay, a, b) == At(pairDelay, b, a) == Product(delay, dists[b][a])
    ensures BaseRtt(pairDelay, pairTxDelay, a, b) == BaseRtt(pairDelay, pairTxDelay, b, a)
            <==> At(pairTxDelay, a, b) == At(pairTxDelay, b, a)
  {
    hide Product, At, UniformDelay, FiguresTo, RoutesTo, WellFormed;
    HopsSymmetric(net, dists, nextHop, a, b);
    UniformDelayOf(net, payload, dists[b], pairDelay, pairTxDelay, pairBw, a, b, delay);
    UniformDelayOf(net, payload, dists[a], pairDelay, pairTxDelay, pairBw, b, a, delay);
  }

  // One delay and one bandwidth on every link.
  ghost predicate Uniform(net: Net, delay: nat, bw: nat) {
    forall u, v :: Link(net, u, v) ==> net.nbr2if[u][v].delay == delay && net.nbr2if[u][v].bw == bw
  }

  lemma {:induction false} UniformPath(net: Net, payload: nat, p: seq<Node>, delay: nat, bw: nat)
    requires WellFormed(net) && IsPath(net, p) && Uniform(net, delay, bw) && 0 < bw <= BW_MAX
    ensures PathFigures(net, payload, p) ==
            Figures(Product(delay, |p| - 1), Product(TxTime(payload, bw), |p| - 1), if |p| == 1 then BW_MAX else bw)
  {
    hide TxTime;
    if |p| > 1 {
      PathTail(net, p);
      assert Link(net, p[1], p[0]);
      UniformPath(net, payload, p[1..], delay, bw);
    }
  }

  /** On a network with uniform links the recorded round-trip time and bandwidth-delay product
      of two hosts are fixed by their hop count, so they are the same seen from either host. */
  lemma UniformRtt(net: Net, payload: nat, dists: map<Node, map<Node, nat>>, nextHop: Table<seq<Node>>,
                   pairDelay: Table<nat>, pairTxDelay: Table<nat>, pairBw: Table<nat>, a: Node, b: Node, delay: nat, bw: nat)
    requires WellFormed(net) && Uniform(net, delay, bw) && 0 < bw <= BW_MAX
    requires AllRoutes(net, dists, nextHop) && AllFigures(net, payload, dists, pairDelay, pairTxDelay, pairBw)
    requires IsHost(net, a) && IsHost(net, b) && a != b && a in dists[b]
    ensures b in dists[a] && dists[a][b] == dists[b][a]
    ensures var hops := dists[b][a];
            && BaseRtt(pairDelay, pairTxDelay, a, b) == 2 * Product(delay, hops) + Product(TxTime(payload, bw), hops)
            && BaseRtt(pairDelay, pairTxDelay, b, a) == BaseRtt(pairDelay, pairTxDelay, a, b)
            && BaseBdp(pairDelay, pairTxDelay, pairBw, b, a) == BaseBdp(pairDelay, pairTxDelay, pairBw, a, b)
  {
    hide TxTime, Product, At, Uniform, FiguresTo, RoutesTo, WellFormed;
    HopsSymmetric(net, dists, nextHop, a, b);
    UniformFigures(net, payload, dists[b], pairDelay, pairTxDelay, pairBw, a, b, delay, bw);
    UniformFigures(net, payload, dists[a], pairDelay, pairTxDelay, pairBw, b, a, delay, bw);
  }

  lemma UniformFigures(net: Net, payload: nat, dis: map<Node, nat>, pairDelay: Table<nat>, pairTxDelay: Table<nat>,
                       pairBw: Table<nat>, a: Node, b: Node, delay: nat, bw: nat)
    requires WellFormed(net) && Uniform(net, delay, bw) && 0 < bw <= BW_MAX
    requires FiguresTo(net, payload, b, dis, pairDelay, pairTxDelay, pairBw) && a in dis && a != b
    ensures At(pairDelay, a, b) == Product(delay, dis[a]) && At(pairTxDelay, a, b) == Product(TxTime(payload, bw), dis[a])
    ensures At(pairBw, a, b) == bw
  {
    hide TxTime, Product;
    var f := Figures(Cell(pairDelay, a, b).value, Cell(pairTxDelay, a, b).value, Cell(pairBw, a, b).value);
    assert Attained(net, payload, b, a, dis[a], f);
    var p :| Route(net, a, b, p) && |p| == dis[a] + 1 && PathFigures(net, payload, p) == f;
    UniformPath(net, payload, p, delay, bw);
  }
}
