/** The network graph of scratch/network-load-balance.cc: hosts and switches joined by
    links that are up or down, the paths a packet may take in it, and least distances. */
module Network {
  import opened Common

  type Node = nat

  datatype Kind = Host | Switch

  // One direction of a link: the port it leaves by, its state, delay and bandwidth.
  datatype Iface = Iface(idx: nat, up: bool, delay: nat, bw: nat)

  datatype Net = Net(kind: map<Node, Kind>, nbr2if: map<Node, map<Node, Iface>>)

  predicate IsSwitch(net: Net, v: Node) {
    v in net.kind && net.kind[v] == Switch
  }

  predicate IsHost(net: Net, v: Node) {
    v in net.kind && net.kind[v] == Host
  }

  predicate HasEntry(net: Net, u: Node, v: Node) {
    u in net.nbr2if && v in net.nbr2if[u]
  }

  predicate Link(net: Net, u: Node, v: Node) {
    HasEntry(net, u, v) && net.nbr2if[u][v].up
  }

  /** What the topology reader establishes: links join known nodes, both directions of a
      link are recorded and go up and down together, and no link has zero bandwidth. */
  ghost predicate WellFormed(net: Net) {
    && (forall u, v :: HasEntry(net, u, v) ==> u in net.kind && v in net.kind)
    && (forall u, v :: Link(net, u, v) ==> Link(net, v, u))
    && (forall u, v :: HasEntry(net, u, v) ==> net.nbr2if[u][v].bw > 0)
  }

  // No two links of a node share a port, and port 0 is the loopback device.
  ghost predicate PortsDistinct(net: Net) {
    && (forall v, u, w :: HasEntry(net, v, u) && HasEntry(net, v, w) && u != w ==> net.nbr2if[v][u].idx != net.nbr2if[v][w].idx)
    && (forall v, u :: HasEntry(net, v, u) ==> net.nbr2if[v][u].idx > 0)
  }

  /** Consecutive nodes are linked and everything strictly between the ends is a switch. */
  ghost predicate IsPath(net: Net, p: seq<Node>) {
    && |p| >= 1
    && (forall i :: 0 <= i < |p| - 1 ==> Link(net, p[i], p[i+1]))
    && (forall i :: 0 < i < |p| - 1 ==> IsSwitch(net, p[i]))
  }

  ghost predicate Route(net: Net, v: Node, w: Node, p: seq<Node>) {
    IsPath(net, p) && p[0] == v && p[|p|-1] == w
  }

  // A node that forwards packets for `host`, or is `host` itself.
  predicate Relays(net: Net, host: Node, v: Node) {
    v == host || IsSwitch(net, v)
  }

  /** `dis` is defined exactly on the nodes with a route to `host`, and is the least number
      of hops of any such route. */
  ghost predicate Distances(net: Net, host: Node, dis: map<Node, nat>) {
    && (forall v :: v in dis ==> exists p :: Route(net, v, host, p) && |p| == dis[v] + 1)
    && (forall v, p :: Route(net, v, host, p) ==> v in dis && dis[v] + 1 <= |p|)
  }

  /** `hops` lists, once each, the neighbours of `v` that relay towards `host` and are one
      hop nearer to it. */
  ghost predicate NextHops(net: Net, host: Node, dis: map<Node, nat>, v: Node, hops: seq<Node>) {
    && Distinct(hops)
    && (forall u :: u in hops <==>
          Link(net, u, v) && Relays(net, host, u) && u in dis && v in dis && dis[u] + 1 == dis[v])
  }

  lemma PathTail(net: Net, p: seq<Node>)
    requires IsPath(net, p) && |p| >= 2
    ensures IsPath(net, p[1..])
    ensures Link(net, p[0], p[1])
    ensures Relays(net, p[|p|-1], p[1])
  {
  }

  lemma PathCons(net: Net, v: Node, p: seq<Node>)
    requires IsPath(net, p) && Link(net, v, p[0])
    requires |p| >= 2 ==> IsSwitch(net, p[0])
    ensures IsPath(net, [v] + p)
  {
    var q := [v] + p;
    forall i | 0 <= i < |q| - 1 ensures Link(net, q[i], q[i+1]) {
      if i > 0 { assert q[i] == p[i-1] && q[i+1] == p[i]; }
    }
    forall i | 0 < i < |q| - 1 ensures IsSwitch(net, q[i]) {
      assert q[i] == p[i-1];
    }
  }

  /** Distances are unique. */
  lemma DistancesUnique(net: Net, host: Node, d: map<Node, nat>, e: map<Node, nat>)
    requires Distances(net, host, d) && Distances(net, host, e)
    ensures d == e
  {
    forall v | v in d ensures v in e && e[v] <= d[v] {
      var p :| Route(net, v, host, p) && |p| == d[v] + 1;
    }
    forall v | v in e ensures v in d && d[v] <= e[v] {
      var p :| Route(net, v, host, p) && |p| == e[v] + 1;
    }
  }

  function Reverse<T>(s: seq<T>): (r: seq<T>)
    ensures |r| == |s|
    ensures forall i :: 0 <= i < |s| ==> r[i] == s[|s| - 1 - i]
  {
    if s == [] then [] else Reverse(s[1..]) + [s[0]]
  }

  lemma RouteReverse(net: Net, v: Node, w: Node, p: seq<Node>)
    requires WellFormed(net) && Route(net, v, w, p)
    ensures Route(net, w, v, Reverse(p))
  {
    var r := Reverse(p);
    forall i | 0 <= i < |r| - 1 ensures Link(net, r[i], r[i+1]) {
      var j := |p| - 2 - i;
      assert Link(net, p[j], p[j+1]);
    }
  }

  /** Hop counts are symmetric: the network seen from either end is the same. */
  lemma DistanceSymmetric(net: Net, a: Node, b: Node, da: map<Node, nat>, db: map<Node, nat>)
    requires WellFormed(net) && Distances(net, a, da) && Distances(net, b, db)
    ensures a in db <==> b in da
    ensures a in db ==> db[a] == da[b]
  {
    if a in db {
      var p :| Route(net, a, b, p) && |p| == db[a] + 1;
      RouteReverse(net, a, b, p);
    }
    if b in da {
      var p :| Route(net, b, a, p) && |p| == da[b] + 1;
      RouteReverse(net, b, a, p);
    }
  }

  // One hop on a shortest path.
  ghost predicate Nearer(net: Net, host: Node, dis: map<Node, nat>, v: Node, u: Node) {
    Link(net, v, u) && Relays(net, host, u) && u in dis && v in dis && dis[u] + 1 == dis[v]
  }

  lemma ZeroOnlyAtHost(net: Net, host: Node, dis: map<Node, nat>, v: Node)
    requires Distances(net, host, dis) && v in dis
    ensures dis[v] == 0 <==> v == host
  {
    var p :| Route(net, v, host, p) && |p| == dis[v] + 1;
    if v == host { assert Route(net, host, host, [host]); }
  }

  // A node with a route that has not arrived has a nearer neighbour.
  lemma NearerExists(net: Net, host: Node, dis: map<Node, nat>, v: Node) returns (u: Node)
    requires Distances(net, host, dis) && v in dis && v != host
    ensures Nearer(net, host, dis, v, u)
  {
    var p :| Route(net, v, host, p) && |p| == dis[v] + 1;
    u := p[1];
    PathTail(net, p);
    assert Route(net, u, host, p[1..]);
    var r :| Route(net, u, host, r) && |r| == dis[u] + 1;
    if |r| >= 2 && u == host { ZeroOnlyAtHost(net, host, dis, u); }
    PathCons(net, v, r);
    assert Route(net, v, host, [v] + r);
  }

  // f is 0 at the host only, drops by one along some link from every other node, and never by
  // more than one along a link from a relay.
  ghost predicate Potential(net: Net, host: Node, f: map<Node, nat>) {
    && host in f && f[host] == 0
    && (forall v :: v in f && v != host ==> exists u :: Nearer(net, host, f, v, u))
    && (forall v, u :: Link(net, v, u) && u in f && Relays(net, host, u) ==> v in f && f[v] <= f[u] + 1)
  }

  lemma {:induction false} PotentialBelow(net: Net, host: Node, f: map<Node, nat>, v: Node, p: seq<Node>)
    requires Potential(net, host, f) && Route(net, v, host, p)
    ensures v in f && f[v] + 1 <= |p|
    decreases |p|
  {
    if |p| > 1 {
      PathTail(net, p);
      PotentialBelow(net, host, f, p[1], p[1..]);
    }
  }

  lemma {:induction false} PotentialRoute(net: Net, host: Node, f: map<Node, nat>, v: Node) returns (p: seq<Node>)
    requires Potential(net, host, f) && v in f
    ensures Route(net, v, host, p) && |p| == f[v] + 1
    decreases f[v]
  {
    if v == host {
      p := [host];
    } else {
      var u :| Nearer(net, host, f, v, u);
      p := PotentialRoute(net, host, f, u);
      PathCons(net, v, p);
      p := [v] + p;
    }
  }

  /** Such a function is the distance to the host. */
  lemma PotentialIsDistance(net: Net, host: Node, f: map<Node, nat>)
    requires Potential(net, host, f)
    ensures Distances(net, host, f)
  {
    forall v | v in f ensures exists p :: Route(net, v, host, p) && |p| == f[v] + 1 {
      var p := PotentialRoute(net, host, f, v);
    }
    forall v, p | Route(net, v, host, p) ensures v in f && f[v] + 1 <= |p| {
      PotentialBelow(net, host, f, v, p);
    }
  }
}
