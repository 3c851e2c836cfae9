/** What the computed routes mean for packets: routing is unique up to the order of equal-cost
    choices, every packet arrives over a shortest path, and a failed link is never used again. */
module Forwarding {
  import opened Common
  import opened Network
  import opened Routing

  // The same elements, each as often.
  ghost predicate SameHops<T>(s: seq<T>, t: seq<T>) {
    multiset(s) == multiset(t)
  }

  lemma {:induction false} DistinctOnce<T>(s: seq<T>, x: T)
    requires Distinct(s)
    ensures multiset(s)[x] == if x in s then 1 else 0
  {
    if s != [] {
      DistinctOnce(s[1..], x);
      assert s == [s[0]] + s[1..];
    }
  }

  /** The routes depend on the network only, up to the order of equal-cost next hops: two
      computations agree on every distance and on every set of next hops, with multiplicity. */
  lemma RoutesUnique(net: Net, d: map<Node, map<Node, nat>>, e: map<Node, map<Node, nat>>,
                     s: Table<seq<Node>>, t: Table<seq<Node>>, v: Node, h: Node)
    requires AllRoutes(net, d, s) && AllRoutes(net, e, t)
    ensures d == e
    ensures SameHops(Lookup(s, v, h), Lookup(t, v, h))
    ensures Cell(s, v, h).Some? <==> Cell(t, v, h).Some?
  {
    forall g | g in d ensures g in e && d[g] == e[g] {
      DistancesUnique(net, g, d[g], e[g]);
    }
    if h in d {
      assert NextHops(net, h, d[h], v, Lookup(s, v, h)) && NextHops(net, h, d[h], v, Lookup(t, v, h));
      forall u ensures multiset(Lookup(s, v, h))[u] == multiset(Lookup(t, v, h))[u] {
        DistinctOnce(Lookup(s, v, h), u);
        DistinctOnce(Lookup(t, v, h), u);
      }
    }
  }

  // Node v may send a packet for host to its neighbour u.
  ghost predicate MaySend(net: Net, tables: Table<seq<nat>>, host: Node, v: Node, u: Node) {
    HasEntry(net, v, u) && net.nbr2if[v][u].idx in Lookup(tables, v, host)
  }

  /** The forwarding tables allow exactly the equal-cost shortest choices. */
  lemma TableChoices(net: Net, dists: map<Node, map<Node, nat>>, nextHop: Table<seq<Node>>, tables: Table<seq<nat>>,
                     host: Node, v: Node, u: Node)
    requires WellFormed(net) && PortsDistinct(net)
    requires AllRoutes(net, dists, nextHop) && TablesMatch(net, nextHop, tables) && host in dists
    ensures MaySend(net, tables, host, v, u) <==>
            var dis := dists[host];
            Link(net, v, u) && Relays(net, host, u) && u in dis && v in dis && dis[u] + 1 == dis[v]
  {
    var hops := Lookup(nextHop, v, host);
    assert NextHops(net, host, dists[host], v, hops);
    assert Lookup(tables, v, host) == Ports(net, v, hops);
    if MaySend(net, tables, host, v, u) {
      var k :| 0 <= k < |hops| && Ports(net, v, hops)[k] == net.nbr2if[v][u].idx;
      assert hops[k] in hops && Link(net, v, hops[k]);
    }
    if u in hops {
      var k :| 0 <= k < |hops| && hops[k] == u;
      assert Link(net, v, u) && Ports(net, v, hops)[k] == PortOf(net, v, u);
    }
  }

  // A packet for host sent on by some table entry at every node.
  ghost predicate Travels(net: Net, tables: Table<seq<nat>>, host: Node, run: seq<Node>) {
    |run| >= 1 && forall i :: 0 <= i < |run| - 1 ==> MaySend(net, tables, host, run[i], run[i+1])
  }

  lemma {:induction false} CountsDown(net: Net, host: Node, dis: map<Node, nat>, run: seq<Node>, k: nat)
    requires k < |run| && run[0] in dis && forall i :: 0 <= i < |run| - 1 ==> Nearer(net, host, dis, run[i], run[i+1])
    ensures run[k] in dis && dis[run[k]] + k == dis[run[0]]
  {
    if k > 0 {
      CountsDown(net, host, dis, run, k - 1);
      assert Nearer(net, host, dis, run[k-1], run[k-1+1]);
    }
  }

  /** Whatever choices are made, a packet gets one hop nearer at each step, so it visits no
      node twice, passes through switches only and is delivered after exactly `dis` hops. */
  lemma PacketArrives(net: Net, dists: map<Node, map<Node, nat>>, nextHop: Table<seq<Node>>,
                      tables: Table<seq<nat>>, host: Node, run: seq<Node>)
    requires WellFormed(net) && PortsDistinct(net)
    requires AllRoutes(net, dists, nextHop) && TablesMatch(net, nextHop, tables) && host in dists
    requires Travels(net, tables, host, run) && run[0] in dists[host]
    ensures forall i :: 0 <= i < |run| ==> run[i] in dists[host] && dists[host][run[i]] + i == dists[host][run[0]]
    ensures Distinct(run)
    ensures run[|run|-1] == host <==> |run| == dists[host][run[0]] + 1
    ensures Route(net, run[0], run[|run|-1], run)
  {
    var dis := dists[host];
    forall i | 0 <= i < |run| - 1 ensures Nearer(net, host, dis, run[i], run[i+1]) {
      TableChoices(net, dists, nextHop, tables, host, run[i], run[i+1]);
    }
    RunDescends(net, host, dis, run);
  }

  lemma RunDescends(net: Net, host: Node, dis: map<Node, nat>, run: seq<Node>)
    requires Distances(net, host, dis) && |run| >= 1 && run[0] in dis
    requires forall i :: 0 <= i < |run| - 1 ==> Nearer(net, host, dis, run[i], run[i+1])
    ensures forall i :: 0 <= i < |run| ==> run[i] in dis && dis[run[i]] + i == dis[run[0]]
    ensures Distinct(run)
    ensures run[|run|-1] == host <==> |run| == dis[run[0]] + 1
    ensures Route(net, run[0], run[|run|-1], run)
  {
    hide Distances;
    forall i | 0 <= i < |run| ensures run[i] in dis && dis[run[i]] + i == dis[run[0]] {
      CountsDown(net, host, dis, run, i);
    }
    forall i | 0 <= i < |run| - 1 ensures Link(net, run[i], run[i+1]) {
      assert Nearer(net, host, dis, run[i], run[i+1]);
    }
    forall i | 0 < i < |run| - 1 ensures IsSwitch(net, run[i]) {
      assert Nearer(net, host, dis, run[i-1], run[i-1+1]) && Nearer(net, host, dis, run[i], run[i+1]);
      ZeroOnlyAtHost(net, host, dis, run[i]);
    }
    ZeroOnlyAtHost(net, host, dis, run[|run|-1]);
  }

  /** A packet that has not arrived can always be sent on. */
  lemma NeverStuck(net: Net, dists: map<Node, map<Node, nat>>, nextHop: Table<seq<Node>>, tables: Table<seq<nat>>,
                   host: Node, v: Node) returns (u: Node)
    requires WellFormed(net) && PortsDistinct(net)
    requires AllRoutes(net, dists, nextHop) && TablesMatch(net, nextHop, tables) && host in dists
    requires v in dists[host] && v != host
    ensures MaySend(net, tables, host, v, u)
  {
    var dis := dists[host];
    u := NearerExists(net, host, dis, v);
    TableChoices(net, dists, nextHop, tables, host, v, u);
  }

  lemma RouteSurvives(net: Net, a: Node, b: Node, v: Node, w: Node, p: seq<Node>)
    requires WellFormed(net) && HasEntry(net, a, b) && HasEntry(net, b, a)
    requires Route(LinkDown(net, a, b), v, w, p)
    ensures Route(net, v, w, p)
  {
    LinkDownLinks(net, a, b);
  }

  /** After a link failure no host becomes nearer or newly reachable, and no node sends over
      the failed link in either direction. */
  lemma AfterLinkDown(net: Net, a: Node, b: Node, before: map<Node, map<Node, nat>>, s: Table<seq<Node>>,
                      after: map<Node, map<Node, nat>>, t: Table<seq<Node>>, tables: Table<seq<nat>>, h: Node)
    requires WellFormed(net) && PortsDistinct(net) && HasEntry(net, a, b) && HasEntry(net, b, a)
    requires AllRoutes(net, before, s) && AllRoutes(LinkDown(net, a, b), after, t)
    requires TablesMatch(LinkDown(net, a, b), t, tables)
    requires IsHost(net, h)
    ensures h in before && h in after
    ensures forall v :: v in after[h] ==> v in before[h] && before[h][v] <= after[h][v]
    ensures !MaySend(LinkDown(net, a, b), tables, h, a, b)
    ensures !MaySend(LinkDown(net, a, b), tables, h, b, a)
  {
    var down := LinkDown(net, a, b);
    LinkDownLinks(net, a, b);
    assert IsHost(down, h);
    forall v | v in after[h] ensures v in before[h] && before[h][v] <= after[h][v] {
      var p :| Route(down, v, h, p) && |p| == after[h][v] + 1;
      RouteSurvives(net, a, b, v, h, p);
    }
    DownPorts(net, a, b);
    TableChoices(down, after, t, tables, h, a, b);
    TableChoices(down, after, t, tables, h, b, a);
  }

  lemma DownPorts(net: Net, a: Node, b: Node)
    requires PortsDistinct(net) && HasEntry(net, a, b) && HasEntry(net, b, a)
    ensures PortsDistinct(LinkDown(net, a, b))
  {
    var r := LinkDown(net, a, b);
    forall u, v ensures HasEntry(r, u, v) <==> HasEntry(net, u, v)
    ensures HasEntry(r, u, v) ==> r.nbr2if[u][v].idx == net.nbr2if[u][v].idx
    {
      assert HasEntry(r, u, v) <==> Cell(r.nbr2if, u, v).Some?;
    }
  }
}
