/** Routing on the generated fat tree: exact distances, all shortest ToR-to-ToR paths and their
    number, and that the path construction never meets a topology it finds too large. */
module FatTreePaths {
  import opened Common
  import opened Network
  import opened Routing
  import opened Topology
  import opened PathTables
  import opened FatTree
  import opened FatTreePorts

  ghost predicate TreeKinds(g: Params, net: Net) {
    && (forall v: Node :: v in net.kind <==> v < g.Nodes())
    && (forall v :: v in net.kind ==> (net.kind[v] == Switch <==> v >= g.ITor()))
  }

  ghost predicate TreeLinks(g: Params, net: Net) {
    forall u, v :: Link(net, u, v) <==> Joined(g, u, v) || Joined(g, v, u)
  }

  ghost predicate TreeTors(g: Params, net: Net, torOf: map<Node, Node>) {
    && (forall h :: h in torOf <==> exists s :: IsHost(net, h) && IsSwitch(net, s) && Joined(g, h, s))
    && (forall h :: h in torOf ==> IsHost(net, h) && Joined(g, h, torOf[h]))
  }

  /** The network is the tree with the given parameters. */
  ghost predicate IsTree(g: Params, net: Net, torOf: map<Node, Node>) {
    && g.Valid() && WellFormed(net) && PortsDistinct(net)
    && TreeKinds(g, net) && TreeLinks(g, net) && TreeTors(g, net, torOf)
  }

  ghost predicate IsPlace(g: Params, v: Node) { exists x :: InTree(g, x) && Id(g, x) == v }

  ghost function PlaceOf(g: Params, v: Node): (x: Place)
    requires IsPlace(g, v)
    ensures InTree(g, x) && Id(g, x) == v
  {
    var x :| InTree(g, x) && Id(g, x) == v;
    x
  }

  lemma PlaceOfId(g: Params, x: Place)
    requires g.Valid() && InTree(g, x)
    ensures IsPlace(g, Id(g, x)) && PlaceOf(g, Id(g, x)) == x
  {
    IdInjective(g, PlaceOf(g, Id(g, x)), x);
  }

  /** Links join adjacent places, and only those. */
  lemma LinkIsAdjacent(g: Params, net: Net, torOf: map<Node, Node>, u: Node, v: Node)
    requires IsTree(g, net, torOf)
    ensures Link(net, u, v) <==> IsPlace(g, u) && IsPlace(g, v) && Adjacent(PlaceOf(g, u), PlaceOf(g, v))
  {
    hide Id, InTree;
    if Joined(g, u, v) {
      var x, y :| Written(g, x, y, (u, v));
      PlaceOfId(g, x);
      PlaceOfId(g, y);
    }
    if Joined(g, v, u) {
      var x, y :| Written(g, x, y, (v, u));
      PlaceOfId(g, x);
      PlaceOfId(g, y);
    }
    if IsPlace(g, u) && IsPlace(g, v) {
      var x, y := PlaceOf(g, u), PlaceOf(g, v);
      if Below(x, y) { assert Written(g, x, y, (u, v)); }
      if Below(y, x) { assert Written(g, y, x, (v, u)); }
    }
  }

  lemma PlaceKind(g: Params, net: Net, torOf: map<Node, Node>, x: Place)
    requires IsTree(g, net, torOf) && InTree(g, x)
    ensures IsHost(net, Id(g, x)) <==> x.Server?
    ensures IsSwitch(net, Id(g, x)) <==> !x.Server?
  {
    hide Id;
    IdRange(g, x);
  }

  /** Hops from a place to the server t. */
  ghost function Hops(t: Place, x: Place): nat
    requires t.Server?
  {
    match x
    case Server(pod, j, _) => if x == t then 0 else if pod == t.pod && j == t.j then 2 else if pod == t.pod then 4 else 6
    case Tor(pod, j) => if pod == t.pod && j == t.j then 1 else if pod == t.pod then 3 else 5
    case Agg(pod, _) => if pod == t.pod then 2 else 4
    case Core(_, _) => 3
  }

  ghost function HopMap(g: Params, t: Place): map<Node, nat>
    requires t.Server?
  {
    map v: Node | v < g.Nodes() && IsPlace(g, v) :: Hops(t, PlaceOf(g, v))
  }

  // A neighbour one hop nearer to the server.
  ghost function Towards(t: Place, x: Place): Place
    requires t.Server? && x != t
  {
    match x
    case Server(pod, j, _) => Tor(pod, j)
    case Tor(pod, j) => if pod == t.pod && j == t.j then t else Agg(pod, 0)
    case Agg(pod, l) => if pod == t.pod then Tor(pod, t.j) else Core(l, 0)
    case Core(j, _) => Agg(t.pod, j)
  }

  lemma HopMapAt(g: Params, t: Place, x: Place)
    requires g.Valid() && t.Server? && InTree(g, x)
    ensures Id(g, x) in HopMap(g, t) && HopMap(g, t)[Id(g, x)] == Hops(t, x)
  {
    hide Id;
    PlaceOfId(g, x);
    IdRange(g, x);
  }

  lemma TreeValid(g: Params, net: Net, torOf: map<Node, Node>)
    requires IsTree(g, net, torOf)
    ensures g.Valid() && WellFormed(net) && PortsDistinct(net)
  {
  }

  lemma HopMapFalls(g: Params, net: Net, torOf: map<Node, Node>, t: Place, v: Node)
    requires IsTree(g, net, torOf) && t.Server? && InTree(g, t) && v in HopMap(g, t) && v != Id(g, t)
    ensures exists u :: Nearer(net, Id(g, t), HopMap(g, t), v, u)
  {
    hide Id, IsTree;
    TreeValid(g, net, torOf);
    var x := PlaceOf(g, v);
    var y := Towards(t, x);
    assert InTree(g, y) && Adjacent(x, y) && Hops(t, y) + 1 == Hops(t, x);
    PlaceOfId(g, y);
    LinkIsAdjacent(g, net, torOf, v, Id(g, y));
    HopMapAt(g, t, x);
    HopMapAt(g, t, y);
    PlaceKind(g, net, torOf, y);
    assert Nearer(net, Id(g, t), HopMap(g, t), v, Id(g, y));
  }

  lemma HopsSlope(t: Place, x: Place, y: Place)
    requires t.Server? && Adjacent(x, y) && (y.Server? ==> y == t)
    ensures Hops(t, x) <= Hops(t, y) + 1
  {
  }

  lemma HopMapSlope(g: Params, net: Net, torOf: map<Node, Node>, t: Place, v: Node, u: Node)
    requires IsTree(g, net, torOf) && t.Server? && InTree(g, t)
    requires Link(net, v, u) && u in HopMap(g, t) && Relays(net, Id(g, t), u)
    ensures v in HopMap(g, t) && HopMap(g, t)[v] <= HopMap(g, t)[u] + 1
  {
    hide Id, IsTree, HopMap, Hops, InTree, Adjacent;
    TreeValid(g, net, torOf);
    LinkIsAdjacent(g, net, torOf, v, u);
    var x, y := PlaceOf(g, v), PlaceOf(g, u);
    HopMapAt(g, t, x);
    HopMapAt(g, t, y);
    PlaceKind(g, net, torOf, y);
    PlaceOfId(g, t);
    HopsSlope(t, x, y);
  }

  /** Exact distances on the tree. */
  lemma TreeDistances(g: Params, net: Net, torOf: map<Node, Node>, t: Place)
    requires IsTree(g, net, torOf) && t.Server? && InTree(g, t)
    ensures Distances(net, Id(g, t), HopMap(g, t))
  {
    hide Id, IsTree, HopMap;
    var host, f := Id(g, t), HopMap(g, t);
    TreeValid(g, net, torOf);
    HopMapAt(g, t, t);
    forall v | v in f && v != host ensures exists u :: Nearer(net, host, f, v, u) {
      HopMapFalls(g, net, torOf, t, v);
    }
    forall v, u | Link(net, v, u) && u in f && Relays(net, host, u) ensures v in f && f[v] <= f[u] + 1 {
      HopMapSlope(g, net, torOf, t, v, u);
    }
    PotentialIsDistance(net, host, f);
  }

  lemma LinkPlaces(g: Params, net: Net, torOf: map<Node, Node>, x: Place, y: Place)
    requires IsTree(g, net, torOf) && InTree(g, x) && InTree(g, y)
    ensures Link(net, Id(g, x), Id(g, y)) <==> Adjacent(x, y)
  {
    hide Id, IsTree, InTree, Adjacent;
    TreeValid(g, net, torOf);
    PlaceOfId(g, x);
    PlaceOfId(g, y);
    LinkIsAdjacent(g, net, torOf, Id(g, x), Id(g, y));
  }

  // A switch linked to the place x, as a place.
  lemma SwitchNextTo(g: Params, net: Net, torOf: map<Node, Node>, x: Place, v: Node) returns (y: Place)
    requires IsTree(g, net, torOf) && InTree(g, x) && Link(net, Id(g, x), v) && IsSwitch(net, v)
    ensures InTree(g, y) && v == Id(g, y) && Adjacent(x, y) && !y.Server?
  {
    hide Id, IsTree, InTree, Adjacent;
    TreeValid(g, net, torOf);
    PlaceOfId(g, x);
    LinkIsAdjacent(g, net, torOf, Id(g, x), v);
    y := PlaceOf(g, v);
    PlaceKind(g, net, torOf, y);
  }

  // Up to an aggregation switch of the pod and down again.
  ghost function Arch(g: Params, a: Place, b: Place, l: nat): seq<Node>
    requires a.Tor? && b.Tor?
  {
    [Id(g, a), Id(g, Agg(a.pod, l)), Id(g, b)]
  }

  // Up to core m of row l, and down on the same row in the other pod.
  ghost function HighArch(g: Params, a: Place, b: Place, l: nat, m: nat): seq<Node>
    requires a.Tor? && b.Tor?
  {
    [Id(g, a), Id(g, Agg(a.pod, l)), Id(g, Core(l, m)), Id(g, Agg(b.pod, l)), Id(g, b)]
  }

  lemma ArchIsRoute(g: Params, net: Net, torOf: map<Node, Node>, a: Place, b: Place, l: nat)
    requires IsTree(g, net, torOf) && InTree(g, a) && InTree(g, b) && a.Tor? && b.Tor? && a.pod == b.pod && l < g.half
    ensures Route(net, Id(g, a), Id(g, b), Arch(g, a, b, l))
  {
    hide Id, IsTree;
    LinkPlaces(g, net, torOf, a, Agg(a.pod, l));
    LinkPlaces(g, net, torOf, Agg(a.pod, l), b);
    PlaceKind(g, net, torOf, Agg(a.pod, l));
  }

  lemma HighArchIsRoute(g: Params, net: Net, torOf: map<Node, Node>, a: Place, b: Place, l: nat, m: nat)
    requires IsTree(g, net, torOf) && InTree(g, a) && InTree(g, b) && a.Tor? && b.Tor? && l < g.half && m < g.half
    ensures Route(net, Id(g, a), Id(g, b), HighArch(g, a, b, l, m))
  {
    hide Id, IsTree;
    LinkPlaces(g, net, torOf, a, Agg(a.pod, l));
    LinkPlaces(g, net, torOf, Agg(a.pod, l), Core(l, m));
    LinkPlaces(g, net, torOf, Core(l, m), Agg(b.pod, l));
    LinkPlaces(g, net, torOf, Agg(b.pod, l), b);
    PlaceKind(g, net, torOf, Agg(a.pod, l));
    PlaceKind(g, net, torOf, Agg(b.pod, l));
    PlaceKind(g, net, torOf, Core(l, m));
  }

  /** Inside a pod there is no other path of two hops ... */
  lemma ArchesOnly(g: Params, net: Net, torOf: map<Node, Node>, a: Place, b: Place, p: seq<Node>) returns (l: nat)
    requires IsTree(g, net, torOf) && InTree(g, a) && InTree(g, b) && a.Tor? && b.Tor?
    requires Route(net, Id(g, a), Id(g, b), p) && |p| == 3
    ensures l < g.half && p == Arch(g, a, b, l) && a.pod == b.pod
  {
    hide Id, IsTree;
    assert Link(net, p[0], p[1]) && Link(net, p[1], p[1+1]) && IsSwitch(net, p[1]);
    var x := SwitchNextTo(g, net, torOf, a, p[1]);
    LinkPlaces(g, net, torOf, x, b);
    l := x.l;
  }

  /** ... and between pods no other of four. */
  lemma HighArchesOnly(g: Params, net: Net, torOf: map<Node, Node>, a: Place, b: Place, p: seq<Node>) returns (l: nat, m: nat)
    requires IsTree(g, net, torOf) && InTree(g, a) && InTree(g, b) && a.Tor? && b.Tor? && a.pod != b.pod
    requires Route(net, Id(g, a), Id(g, b), p) && |p| == 5
    ensures l < g.half && m < g.half && p == HighArch(g, a, b, l, m)
  {
    hide Id, IsTree;
    assert Link(net, p[0], p[1]) && Link(net, p[1], p[1+1]) && Link(net, p[2], p[2+1]) && Link(net, p[3], p[3+1]);
    assert IsSwitch(net, p[1]) && IsSwitch(net, p[2]) && IsSwitch(net, p[3]);
    var x := SwitchNextTo(g, net, torOf, a, p[1]);
    var y := SwitchNextTo(g, net, torOf, x, p[2]);
    var z := SwitchNextTo(g, net, torOf, y, p[3]);
    LinkPlaces(g, net, torOf, z, b);
    l, m := y.j, y.l;
  }

  ghost predicate Hits(f: nat -> nat, n: nat, x: nat) {
    exists i: nat :: i < n && f(i) == x
  }

  // The numbers f(i) for i < n, all different, are n numbers.
  lemma {:induction false} ImageSize(f: nat -> nat, n: nat, s: set<nat>)
    requires forall i: nat, j: nat :: i < j < n ==> f(i) != f(j)
    requires forall x :: x in s <==> Hits(f, n, x)
    ensures |s| == n
  {
    if n == 0 {
      assert s == {};
    } else {
      var x := f(n - 1);
      assert x in s;
      ImageSize(f, n - 1, s - {x});
    }
  }

  ghost predicate GridHits(f: (nat, nat) -> nat, r: nat, n: nat, x: nat) {
    exists i: nat, j: nat :: i < r && j < n && f(i, j) == x
  }

  ghost predicate GridInjective(f: (nat, nat) -> nat, r: nat, n: nat) {
    forall i: nat, j: nat, a: nat, b: nat :: i < r && j < n && a < r && b < n && f(i, j) == f(a, b) ==> i == a && j == b
  }

  // The last row of a grid has n numbers that occur in no other row.
  lemma LastRow(f: (nat, nat) -> nat, m: nat, n: nat, x: nat)
    requires GridInjective(f, m + 1, n)
    ensures GridHits(f, m + 1, n, x) <==> GridHits(f, m, n, x) || Hits((j: nat) => f(m, j), n, x)
    ensures !(GridHits(f, m, n, x) && Hits((j: nat) => f(m, j), n, x))
  {
    var row := (j: nat) => f(m, j);
    if Hits(row, n, x) {
      var j: nat :| j < n && row(j) == x;
      assert f(m, j) == x;
    }
    if GridHits(f, m + 1, n, x) {
      var i: nat, j: nat :| i < m + 1 && j < n && f(i, j) == x;
      assert row(j) == f(m, j);
    }
  }

  // The same for a grid of r rows and n columns.
  lemma {:induction false} GridSize(f: (nat, nat) -> nat, r: nat, n: nat, s: set<nat>)
    requires GridInjective(f, r, n)
    requires forall x :: x in s <==> GridHits(f, r, n, x)
    ensures |s| == r * n
  {
    hide GridInjective, GridHits, Hits;
    if r == 0 {
      NoRows(f, n, s);
    } else {
      var m: nat := r - 1;
      var row := (j: nat) => f(m, j);
      RowInjective(f, m, n);
      var last := set x | x in s && Hits(row, n, x);
      forall x: nat ensures x in last <==> Hits(row, n, x) { LastRow(f, m, n, x); }
      forall x: nat ensures x in s - last <==> GridHits(f, m, n, x) { LastRow(f, m, n, x); }
      ImageSize(row, n, last);
      GridSize(f, m, n, s - last);
      assert |s| == |s - last| + |last|;
      OneRowMore(m, n);
    }
  }

  lemma OneRowMore(m: nat, n: nat)
    ensures m * n + n == (m + 1) * n
  {
  }

  lemma NoRows(f: (nat, nat) -> nat, n: nat, s: set<nat>)
    requires forall x :: x in s <==> GridHits(f, 0, n, x)
    ensures |s| == 0
  {
    assert s == {};
  }

  lemma RowInjective(f: (nat, nat) -> nat, m: nat, n: nat)
    requires GridInjective(f, m + 1, n)
    ensures GridInjective(f, m, n)
    ensures forall i: nat, j: nat :: i < j < n ==> f(m, i) != f(m, j)
  {
  }

  /** Servers hang off their own ToR and off nothing else. */
  lemma TreeHomed(g: Params, net: Net, torOf: map<Node, Node>, t: Place)
    requires IsTree(g, net, torOf) && InTree(g, t) && t.Server?
    ensures Homed(net, torOf, Id(g, t)) && torOf[Id(g, t)] == Id(g, Tor(t.pod, t.j))
  {
    TreeSingleHomed(g, net, torOf);
    hide Id;
    var tor := Tor(t.pod, t.j);
    assert Written(g, t, tor, (Id(g, t), Id(g, tor)));
    LinkPlaces(g, net, torOf, t, tor);
    PlaceKind(g, net, torOf, t);
  }

  lemma TreeSingleHomed(g: Params, net: Net, torOf: map<Node, Node>)
    requires IsTree(g, net, torOf)
    ensures SingleHomed(net, torOf)
  {
    hide Id;
    forall h, u | IsHost(net, h) && Link(net, h, u) ensures h in torOf && u == torOf[h] && IsSwitch(net, u) {
      LinkIsAdjacent(g, net, torOf, h, u);
      var x, y := PlaceOf(g, h), PlaceOf(g, u);
      PlaceKind(g, net, torOf, x);
      PlaceKind(g, net, torOf, y);
      assert Written(g, x, y, (h, u));
      assert Joined(g, h, u) && h in torOf;
      var x', y' :| Written(g, x', y', (h, torOf[h]));
      IdInjective(g, x, x');
    }
  }

  // The length of the shortest paths between two ToRs.
  lemma TreeShortest(g: Params, net: Net, torOf: map<Node, Node>, a: Place, t: Place, p: seq<Node>)
    requires IsTree(g, net, torOf) && InTree(g, a) && InTree(g, t) && a.Tor? && t.Server? && a != Tor(t.pod, t.j)
    ensures var tor := Id(g, Tor(t.pod, t.j));
            ShortestPath(net, Id(g, a), tor, p) <==> Route(net, Id(g, a), tor, p) && |p| == if a.pod == t.pod then 3 else 5
  {
    hide Id, IsTree;
    TreeValid(g, net, torOf);
    TreeHomed(g, net, torOf, t);
    TreeDistances(g, net, torOf, t);
    HopMapAt(g, t, a);
    PlaceKind(g, net, torOf, a);
    TorDistance(net, torOf, Id(g, a), Id(g, t), HopMap(g, t), p);
  }

  /* Ids: the low bytes of the ports on the way. */

  // How many different bytes n consecutive ports have.
  function Bytes(n: nat): nat { if n < 256 then n else 256 }

  lemma SameByte(base: nat, l: nat, m: nat)
    ensures (base + l) % 256 == (base + m) % 256 <==> l % 256 == m % 256
  {
  }

  lemma ByteBounds(n: nat, l: nat)
    requires l < n
    ensures l % 256 < Bytes(n) && (l < Bytes(n) ==> l % 256 == l) && Bytes(n) <= n
  {
  }

  lemma TreePort(g: Params, net: Net, x: Place, y: Place)
    requires TreePorts(g, net) && InTree(g, x) && InTree(g, y) && Adjacent(x, y)
    ensures PortOf(net, Id(g, x), Id(g, y)) == Port(g, x, y)
  {
  }

  lemma ArchId(g: Params, net: Net, a: Place, b: Place, l: nat)
    requires TreePorts(g, net) && InTree(g, a) && InTree(g, b) && a.Tor? && b.Tor? && a.pod == b.pod && l < g.half
    ensures PathId(net, Arch(g, a, b, l)) == WordOf([(g.perTor + 1 + l) % 256, (1 + b.j) % 256, 0, 0])
  {
    hide Id, TreePorts, PathId, WordOf;
    var y := Agg(a.pod, l);
    TreePort(g, net, a, y);
    TreePort(g, net, y, b);
    IdOfTwo(net, Arch(g, a, b, l));
  }

  lemma HighArchId(g: Params, net: Net, a: Place, b: Place, l: nat, m: nat)
    requires TreePorts(g, net) && InTree(g, a) && InTree(g, b) && a.Tor? && b.Tor? && l < g.half && m < g.half
    ensures PathId(net, HighArch(g, a, b, l, m))
         == WordOf([(g.perTor + 1 + l) % 256, (g.half + 1 + m) % 256, (1 + b.pod) % 256, (1 + b.j) % 256])
  {
    hide Id, TreePorts, PathId, WordOf;
    var x, y, z := Agg(a.pod, l), Core(l, m), Agg(b.pod, l);
    TreePort(g, net, a, x);
    TreePort(g, net, x, y);
    TreePort(g, net, y, z);
    TreePort(g, net, z, b);
    IdOfFour(net, HighArch(g, a, b, l, m));
  }

  // Two ids agree if and only if the ways up do, modulo 256.
  lemma ArchIds(g: Params, net: Net, a: Place, b: Place, l: nat, l': nat)
    requires TreePorts(g, net) && InTree(g, a) && InTree(g, b) && a.Tor? && b.Tor? && a.pod == b.pod && l < g.half && l' < g.half
    ensures PathId(net, Arch(g, a, b, l)) == PathId(net, Arch(g, a, b, l')) <==> l % 256 == l' % 256
  {
    hide PathId, Arch, TreePorts;
    ArchId(g, net, a, b, l);
    ArchId(g, net, a, b, l');
    SameByte(g.perTor + 1, l, l');
  }

  lemma HighArchIds(g: Params, net: Net, a: Place, b: Place, l: nat, m: nat, l': nat, m': nat)
    requires TreePorts(g, net) && InTree(g, a) && InTree(g, b) && a.Tor? && b.Tor?
    requires l < g.half && m < g.half && l' < g.half && m' < g.half
    ensures PathId(net, HighArch(g, a, b, l, m)) == PathId(net, HighArch(g, a, b, l', m')) <==> l % 256 == l' % 256 && m % 256 == m' % 256
  {
    hide PathId, HighArch, TreePorts;
    HighArchId(g, net, a, b, l, m);
    HighArchId(g, net, a, b, l', m');
    SameByte(g.perTor + 1, l, l');
    SameByte(g.half + 1, m, m');
    TwoBytes((g.perTor + 1 + l) % 256, (g.half + 1 + m) % 256, (g.perTor + 1 + l') % 256, (g.half + 1 + m') % 256,
             (1 + b.pod) % 256, (1 + b.j) % 256);
  }

  lemma TwoBytes(p: nat, q: nat, p': nat, q': nat, r: nat, s: nat)
    requires p < 256 && q < 256 && p' < 256 && q' < 256
    ensures WordOf([p, q, r, s]) == WordOf([p', q', r, s]) <==> p == p' && q == q'
  {
  }

  // The entry between two ToRs of a pod: its ids are those of the arches.
  lemma IdsInsidePod(g: Params, net: Net, torOf: map<Node, Node>, a: Place, t: Place, oneHopDelay: Option<nat>, e: TorEntry, id: nat)
    requires IsTree(g, net, torOf) && InTree(g, a) && InTree(g, t) && a.Tor? && t.Server? && a.pod == t.pod && a.j != t.j
    requires Complete(net, Id(g, a), Id(g, Tor(t.pod, t.j)), oneHopDelay, e)
    ensures id in e.ids <==> Hits((l: nat) => PathId(net, Arch(g, a, Tor(t.pod, t.j), l)), g.half, id)
  {
    hide Id, IsTree, PathId, Arch;
    var b := Tor(t.pod, t.j);
    var f := (l: nat) => PathId(net, Arch(g, a, b, l));
    if id in e.ids {
      var p :| ShortestPath(net, Id(g, a), Id(g, b), p) && 3 <= |p| <= 5 && PathId(net, p) == id;
      TreeShortest(g, net, torOf, a, t, p);
      var l := ArchesOnly(g, net, torOf, a, b, p);
      assert f(l) == id;
    }
    if Hits(f, g.half, id) {
      var l: nat :| l < g.half && f(l) == id;
      ArchIsRoute(g, net, torOf, a, b, l);
      TreeShortest(g, net, torOf, a, t, Arch(g, a, b, l));
      ArchLength(g, a, b, l, 0);
      assert IsPathId(net, Id(g, a), Id(g, b), id);
    }
  }

  lemma RttInsidePod(g: Params, net: Net, torOf: map<Node, Node>, a: Place, t: Place, oneHopDelay: Option<nat>, e: TorEntry)
    requires IsTree(g, net, torOf) && InTree(g, a) && InTree(g, t) && a.Tor? && t.Server? && a.pod == t.pod && a.j != t.j
    requires Complete(net, Id(g, a), Id(g, Tor(t.pod, t.j)), oneHopDelay, e)
    ensures e.rtt == match oneHopDelay case Some(d) => Some(4 * d) case None => None
  {
    hide Id, IsTree, PathId, Arch;
    var b := Tor(t.pod, t.j);
    ArchIsRoute(g, net, torOf, a, b, 0);
    ArchLength(g, a, b, 0, 0);
    TreeShortest(g, net, torOf, a, t, Arch(g, a, b, 0));
  }

  // Repeated values add nothing: 256 of the ways up have all the ids.
  lemma HitsInBytes(f: nat -> nat, n: nat, id: nat)
    requires forall l: nat, m: nat :: l < n && m < n ==> (f(l) == f(m) <==> l % 256 == m % 256)
    ensures Hits(f, n, id) <==> Hits(f, Bytes(n), id)
  {
    if Hits(f, n, id) {
      var l: nat :| l < n && f(l) == id;
      ByteBounds(n, l);
      assert f(l % 256) == id;
    }
    if Hits(f, Bytes(n), id) {
      var l: nat :| l < Bytes(n) && f(l) == id;
      assert l < n;
    }
  }

  lemma SmallDiffer(n: nat, l: nat, m: nat)
    requires l < m < Bytes(n)
    ensures l % 256 != m % 256
  {
  }

  /** Between two ToRs of one pod there are k/2 paths, all of two hops; they have k/2 different
      ids if and only if k is at most 512, and 256 beyond. */
  lemma PathsInsidePod(g: Params, net: Net, torOf: map<Node, Node>, a: Place, t: Place, oneHopDelay: Option<nat>, e: TorEntry)
    requires IsTree(g, net, torOf) && TreePorts(g, net) && InTree(g, a) && InTree(g, t) && a.Tor? && t.Server?
    requires a.pod == t.pod && a.j != t.j && Complete(net, Id(g, a), Id(g, Tor(t.pod, t.j)), oneHopDelay, e)
    ensures |e.ids| == Bytes(g.half) && (|e.ids| == g.half <==> g.K() <= 512)
    ensures e.rtt == match oneHopDelay case Some(d) => Some(4 * d) case None => None
  {
    RttInsidePod(g, net, torOf, a, t, oneHopDelay, e);
    hide Id, IsTree, PathId, Arch, TreePorts, Complete, Hits;
    var b := Tor(t.pod, t.j);
    var f := (l: nat) => PathId(net, Arch(g, a, b, l));
    forall l: nat, m: nat | l < g.half && m < g.half ensures f(l) == f(m) <==> l % 256 == m % 256 {
      ArchIds(g, net, a, b, l, m);
    }
    forall id: nat ensures id in e.ids <==> Hits(f, Bytes(g.half), id) {
      IdsInsidePod(g, net, torOf, a, t, oneHopDelay, e, id);
      HitsInBytes(f, g.half, id);
    }
    forall l: nat, m: nat | l < m < Bytes(g.half) ensures f(l) != f(m) { SmallDiffer(g.half, l, m); }
    ImageSize(f, Bytes(g.half), e.ids);
  }

  lemma ArchLength(g: Params, a: Place, b: Place, l: nat, m: nat)
    requires a.Tor? && b.Tor?
    ensures |Arch(g, a, b, l)| == 3 && |HighArch(g, a, b, l, m)| == 5
  {
  }

  lemma IdsBetweenPods(g: Params, net: Net, torOf: map<Node, Node>, a: Place, t: Place, oneHopDelay: Option<nat>, e: TorEntry, id: nat)
    requires IsTree(g, net, torOf) && InTree(g, a) && InTree(g, t) && a.Tor? && t.Server? && a.pod != t.pod
    requires Complete(net, Id(g, a), Id(g, Tor(t.pod, t.j)), oneHopDelay, e)
    ensures id in e.ids <==> GridHits((l: nat, m: nat) => PathId(net, HighArch(g, a, Tor(t.pod, t.j), l, m)), g.half, g.half, id)
  {
    hide Id, IsTree, PathId, HighArch;
    var b := Tor(t.pod, t.j);
    var f := (l: nat, m: nat) => PathId(net, HighArch(g, a, b, l, m));
    if id in e.ids {
      var p :| ShortestPath(net, Id(g, a), Id(g, b), p) && 3 <= |p| <= 5 && PathId(net, p) == id;
      TreeShortest(g, net, torOf, a, t, p);
      var l, m := HighArchesOnly(g, net, torOf, a, b, p);
      assert f(l, m) == id;
    }
    if GridHits(f, g.half, g.half, id) {
      var l: nat, m: nat :| l < g.half && m < g.half && f(l, m) == id;
      HighArchIsRoute(g, net, torOf, a, b, l, m);
      TreeShortest(g, net, torOf, a, t, HighArch(g, a, b, l, m));
      ArchLength(g, a, b, l, m);
      assert IsPathId(net, Id(g, a), Id(g, b), id);
    }
  }

  lemma RttBetweenPods(g: Params, net: Net, torOf: map<Node, Node>, a: Place, t: Place, oneHopDelay: Option<nat>, e: TorEntry)
    requires IsTree(g, net, torOf) && InTree(g, a) && InTree(g, t) && a.Tor? && t.Server? && a.pod != t.pod
    requires Complete(net, Id(g, a), Id(g, Tor(t.pod, t.j)), oneHopDelay, e)
    ensures e.rtt == match oneHopDelay case Some(d) => Some(8 * d) case None => None
  {
    hide Id, IsTree, PathId, HighArch;
    var b := Tor(t.pod, t.j);
    HighArchIsRoute(g, net, torOf, a, b, 0, 0);
    ArchLength(g, a, b, 0, 0);
    TreeShortest(g, net, torOf, a, t, HighArch(g, a, b, 0, 0));
  }

  // The values of f on the grid depend on the bytes of the coordinates, and differ with them.
  ghost predicate ByteGrid(f: (nat, nat) -> nat, n: nat) {
    forall l: nat, m: nat, l': nat, m': nat :: l < n && m < n && l' < n && m' < n ==>
      (f(l, m) == f(l', m') <==> l % 256 == l' % 256 && m % 256 == m' % 256)
  }

  lemma GridHitsInBytes(f: (nat, nat) -> nat, n: nat, id: nat)
    requires ByteGrid(f, n)
    ensures GridHits(f, n, n, id) <==> GridHits(f, Bytes(n), Bytes(n), id)
  {
    if GridHits(f, n, n, id) {
      var l: nat, m: nat :| l < n && m < n && f(l, m) == id;
      ByteBounds(n, l);
      ByteBounds(n, m);
      assert f(l % 256, m % 256) == id;
    }
    if GridHits(f, Bytes(n), Bytes(n), id) {
      var l: nat, m: nat :| l < Bytes(n) && m < Bytes(n) && f(l, m) == id;
      assert l < n && m < n;
    }
  }

  lemma BytesInjective(f: (nat, nat) -> nat, n: nat)
    requires ByteGrid(f, n)
    ensures GridInjective(f, Bytes(n), Bytes(n))
  {
    forall l: nat, m: nat, l': nat, m': nat | l < Bytes(n) && m < Bytes(n) && l' < Bytes(n) && m' < Bytes(n) && f(l, m) == f(l', m')
      ensures l == l' && m == m'
    {
      ByteBounds(n, l);
      ByteBounds(n, m);
      ByteBounds(n, l');
      ByteBounds(n, m');
    }
  }

  lemma SquareOfBytes(n: nat)
    ensures Bytes(n) * Bytes(n) == n * n <==> n <= 256
  {
    if n > 256 { assert n * n > 256 * 256; }
  }

  /** Between ToRs of different pods there are (k/2)^2 paths, all of four hops; they have as many
      different ids if and only if k is at most 512, and 256^2 beyond. */
  lemma PathsBetweenPods(g: Params, net: Net, torOf: map<Node, Node>, a: Place, t: Place, oneHopDelay: Option<nat>, e: TorEntry)
    requires IsTree(g, net, torOf) && TreePorts(g, net) && InTree(g, a) && InTree(g, t) && a.Tor? && t.Server?
    requires a.pod != t.pod && Complete(net, Id(g, a), Id(g, Tor(t.pod, t.j)), oneHopDelay, e)
    ensures |e.ids| == Bytes(g.half) * Bytes(g.half) && (|e.ids| == g.half * g.half <==> g.K() <= 512)
    ensures e.rtt == match oneHopDelay case Some(d) => Some(8 * d) case None => None
  {
    RttBetweenPods(g, net, torOf, a, t, oneHopDelay, e);
    hide Id, IsTree, PathId, HighArch, TreePorts, Complete, GridHits, GridInjective, Bytes;
    var b := Tor(t.pod, t.j);
    var f := (l: nat, m: nat) => PathId(net, HighArch(g, a, b, l, m));
    assert ByteGrid(f, g.half) by {
      forall l: nat, m: nat, l': nat, m': nat | l < g.half && m < g.half && l' < g.half && m' < g.half
        ensures f(l, m) == f(l', m') <==> l % 256 == l' % 256 && m % 256 == m' % 256
      {
        HighArchIds(g, net, a, b, l, m, l', m');
      }
    }
    hide ByteGrid;
    forall id: nat ensures id in e.ids <==> GridHits(f, Bytes(g.half), Bytes(g.half), id) {
      IdsBetweenPods(g, net, torOf, a, t, oneHopDelay, e, id);
      GridHitsInBytes(f, g.half, id);
    }
    BytesInjective(f, g.half);
    GridSize(f, Bytes(g.half), Bytes(g.half), e.ids);
    SquareOfBytes(g.half);
  }

  /** No host is more than five hops from any ToR it has a route to, so "Too large topology?" is
      never printed. */
  lemma NeverTooLarge(g: Params, net: Net, torOf: map<Node, Node>, dists: map<Node, map<Node, nat>>, nextHop: Table<seq<Node>>,
                      src: Node, dst: Node)
    requires IsTree(g, net, torOf) && AllRoutes(net, dists, nextHop) && IsTor(net, torOf, src) && Remote(torOf, dists, src, dst)
    ensures dists[dst][src] <= 5
  {
    hide Id, RoutesTo;
    var x := ServerOf(g, net, torOf, dst);
    hide IsTree, HopMap, Hops;
    TreeDistances(g, net, torOf, x);
    assert Distances(net, dst, dists[dst]) by { RoutedDistances(net, dists, nextHop, dst); }
    DistancesUnique(net, dst, dists[dst], HopMap(g, x));
    SwitchHops(g, net, torOf, x, src);
  }

  lemma RoutedDistances(net: Net, dists: map<Node, map<Node, nat>>, nextHop: Table<seq<Node>>, dst: Node)
    requires AllRoutes(net, dists, nextHop) && dst in dists
    ensures Distances(net, dst, dists[dst])
  {
  }

  lemma ServerOf(g: Params, net: Net, torOf: map<Node, Node>, dst: Node) returns (x: Place)
    requires IsTree(g, net, torOf) && dst in torOf
    ensures InTree(g, x) && x.Server? && Id(g, x) == dst
  {
    hide Id;
    var y;
    x, y :| Written(g, x, y, (dst, torOf[dst]));
    PlaceKind(g, net, torOf, x);
  }

  lemma SwitchHops(g: Params, net: Net, torOf: map<Node, Node>, t: Place, v: Node)
    requires IsTree(g, net, torOf) && t.Server? && v in HopMap(g, t) && IsSwitch(net, v)
    ensures HopMap(g, t)[v] <= 5
  {
    hide Id;
    PlaceKind(g, net, torOf, PlaceOf(g, v));
  }

  // Everything the tables of a fat tree hold between the ToR a and the ToR of server t.
  ghost predicate TreeEntry(g: Params, net: Net, oneHopDelay: Option<nat>, tables: map<Node, map<Node, TorEntry>>, a: Place, t: Place)
    requires InTree(g, a) && a.Tor? && InTree(g, t) && t.Server? && a != Tor(t.pod, t.j)
  {
    var src, tor := Id(g, a), Id(g, Tor(t.pod, t.j));
    && src in tables && tor in tables[src] && Complete(net, src, tor, oneHopDelay, tables[src][tor])
    && |tables[src][tor].ids| == (if a.pod == t.pod then Bytes(g.half) else Bytes(g.half) * Bytes(g.half))
    && tables[src][tor].rtt == match oneHopDelay case Some(d) => Some(if a.pod == t.pod then 4 * d else 8 * d) case None => None
  }

  lemma TreeEntryHolds(g: Params, net: Net, torOf: map<Node, Node>, dists: map<Node, map<Node, nat>>, nextHop: Table<seq<Node>>,
                       oneHopDelay: Option<nat>, tables: map<Node, map<Node, TorEntry>>, a: Place, t: Place)
    requires IsTree(g, net, torOf) && TreePorts(g, net) && AllRoutes(net, dists, nextHop)
    requires InTree(g, a) && a.Tor? && InTree(g, t) && t.Server? && a != Tor(t.pod, t.j)
    requires forall src :: src in tables <==> src in nextHop && IsTor(net, torOf, src)
    requires forall src :: src in tables ==> TorTableFor(net, torOf, dists, src, oneHopDelay, dists.Keys, tables[src])
    ensures TreeEntry(g, net, oneHopDelay, tables, a, t)
  {
    hide Id, IsTree, RoutesTo, Complete, TorTableFor, TreePorts, Bytes;
    var src, dst := Id(g, a), Id(g, t);
    TreeValid(g, net, torOf);
    TreeHomed(g, net, torOf, t);
    TreeHomed(g, net, torOf, Server(a.pod, a.j, 0));
    PlaceKind(g, net, torOf, a);
    RowOfTor(g, net, torOf, dists, nextHop, a, t);
    IdsDiffer(g, a, Tor(t.pod, t.j));
    assert Far(torOf, dists, src, dst);
    assert src in torOf.Values;
    EntryComplete(net, torOf, dists, src, oneHopDelay, tables[src], dst);
    if a.pod == t.pod {
      PathsInsidePod(g, net, torOf, a, t, oneHopDelay, tables[src][torOf[dst]]);
    } else {
      PathsBetweenPods(g, net, torOf, a, t, oneHopDelay, tables[src][torOf[dst]]);
    }
  }

  lemma IdsDiffer(g: Params, x: Place, y: Place)
    requires g.Valid() && InTree(g, x) && InTree(g, y) && x != y
    ensures Id(g, x) != Id(g, y)
  {
    hide Id;
    if Id(g, x) == Id(g, y) { IdInjective(g, x, y); }
  }

  lemma EntryComplete(net: Net, torOf: map<Node, Node>, dists: map<Node, map<Node, nat>>, src: Node, oneHopDelay: Option<nat>,
                      table: map<Node, TorEntry>, dst: Node)
    requires TorTableFor(net, torOf, dists, src, oneHopDelay, dists.Keys, table) && Far(torOf, dists, src, dst)
    ensures torOf[dst] in table && Complete(net, src, torOf[dst], oneHopDelay, table[torOf[dst]])
  {
  }

  // The switch a has a route to the server t.
  lemma RowOfTor(g: Params, net: Net, torOf: map<Node, Node>, dists: map<Node, map<Node, nat>>, nextHop: Table<seq<Node>>, a: Place, t: Place)
    requires IsTree(g, net, torOf) && AllRoutes(net, dists, nextHop)
    requires InTree(g, a) && a.Tor? && InTree(g, t) && t.Server?
    ensures Id(g, t) in dists && Id(g, a) in dists[Id(g, t)] && Id(g, a) in nextHop
    ensures dists[Id(g, t)][Id(g, a)] == Hops(t, a)
  {
    hide Id, IsTree;
    PlaceKind(g, net, torOf, t);
    TreeValid(g, net, torOf);
    TreeDistances(g, net, torOf, t);
    HopMapAt(g, t, a);
    DistancesUnique(net, Id(g, t), dists[Id(g, t)], HopMap(g, t));
    IdsDiffer(g, a, t);
    assert Cell(nextHop, Id(g, a), Id(g, t)).Some?;
  }

  // What the reader makes of the generator's file is the tree.
  lemma TreeRead(g: Params, net: Net, torOf: map<Node, Node>, switchIds: seq<nat>, delay: nat, rate: nat)
    requires g.Valid() && rate > 0 && LinesOfTree(g, TreeLines(g)) && KindsRead(g.Nodes(), switchIds, net.kind)
    requires forall v :: v in switchIds <==> g.ITor() <= v < g.Nodes()
    requires TorsAssigned(net.kind, Rated(TreeLines(g), rate), torOf)
    requires LinksRead(net.nbr2if, Rated(TreeLines(g), rate), delay)
    ensures IsTree(g, net, torOf) && TreePorts(g, net)
  {
    hide LinesOfTree, KindsRead, TorsAssigned, LinksRead, Joined, WellFormed, PortsDistinct, TreeLines, TreePorts;
    var lines := TreeLines(g);
    KindsOfTree(g, net, switchIds);
    forall c | c in Rated(lines, rate) ensures c.rate > 0 && c.src in net.kind && c.dst in net.kind {
      var i :| 0 <= i < |lines| && Rated(lines, rate)[i] == c;
      EndsInTree(g, lines, lines[i]);
    }
    hide TreeKinds, TreeLinks, TreeTors, Rated;
    ReadNetwork(net, Rated(lines, rate), delay);
    LinksOfTree(g, net, lines, rate);
    TorsOfTree(g, net, torOf, lines, rate);
    PortsOfTree(g, net, rate, delay);
  }

  lemma KindsOfTree(g: Params, net: Net, switchIds: seq<nat>)
    requires KindsRead(g.Nodes(), switchIds, net.kind) && forall v :: v in switchIds <==> g.ITor() <= v < g.Nodes()
    ensures TreeKinds(g, net)
  {
  }

  lemma RatedJoins(lines: seq<(nat, nat)>, rate: nat, v: Node, u: Node)
    ensures AnyJoins(Rated(lines, rate), v, u) <==> (v, u) in lines || (u, v) in lines
  {
    var cables := Rated(lines, rate);
    if AnyJoins(cables, v, u) {
      var i :| 0 <= i < |cables| && Joins(cables[i], v, u);
      assert lines[i] in lines && lines[i] == (cables[i].src, cables[i].dst);
    }
    if (v, u) in lines {
      var i :| 0 <= i < |lines| && lines[i] == (v, u);
      assert Joins(cables[i], v, u);
    }
    if (u, v) in lines {
      var i :| 0 <= i < |lines| && lines[i] == (u, v);
      assert Joins(cables[i], v, u);
    }
  }

  lemma LinksOfTree(g: Params, net: Net, lines: seq<(nat, nat)>, rate: nat)
    requires LinesOfTree(g, lines)
    requires forall v: Node, u: Node :: Link(net, v, u) <==> AnyJoins(Rated(lines, rate), v, u)
    ensures TreeLinks(g, net)
  {
    hide Joined, AnyJoins;
    forall u, v ensures Link(net, u, v) <==> Joined(g, u, v) || Joined(g, v, u) {
      RatedJoins(lines, rate, u, v);
    }
  }

  lemma TorsOfTree(g: Params, net: Net, torOf: map<Node, Node>, lines: seq<(nat, nat)>, rate: nat)
    requires LinesOfTree(g, lines) && TorsAssigned(net.kind, Rated(lines, rate), torOf)
    ensures TreeTors(g, net, torOf)
  {
    hide Joined, TorFrom;
    forall h: Node
      ensures h in torOf <==> exists s :: IsHost(net, h) && IsSwitch(net, s) && Joined(g, h, s)
      ensures h in torOf ==> IsHost(net, h) && Joined(g, h, torOf[h])
    {
      TorOfTree(g, net, torOf, lines, rate, h);
    }
  }

  lemma TorOfTree(g: Params, net: Net, torOf: map<Node, Node>, lines: seq<(nat, nat)>, rate: nat, h: Node)
    requires LinesOfTree(g, lines) && TorsAssigned(net.kind, Rated(lines, rate), torOf)
    ensures h in torOf <==> exists s :: IsHost(net, h) && IsSwitch(net, s) && Joined(g, h, s)
    ensures h in torOf ==> IsHost(net, h) && Joined(g, h, torOf[h])
  {
    hide Joined, TorFrom;
    var cables := Rated(lines, rate);
    TorIsLine(net.kind, cables, h);
    assert TorFrom(net.kind, cables, h) == if h in torOf then Some(torOf[h]) else None;
    if h in torOf {
      var i :| 0 <= i < |cables| && HostLine(net.kind, cables[i]) && cables[i].src == h && cables[i].dst == torOf[h];
      assert lines[i] in lines && lines[i] == (h, torOf[h]);
      assert IsSwitch(net, torOf[h]) && Joined(g, h, torOf[h]);
    }
    if s: nat :| IsHost(net, h) && IsSwitch(net, s) && Joined(g, h, s) {
      assert (h, s) in lines;
      var i :| 0 <= i < |lines| && lines[i] == (h, s);
      assert HostLine(net.kind, cables[i]) && cables[i].src == h;
    }
  }

  lemma EndsInTree(g: Params, lines: seq<(nat, nat)>, line: (nat, nat))
    requires g.Valid() && LinesOfTree(g, lines) && line in lines
    ensures line.0 < g.Nodes() && line.1 < g.Nodes()
  {
    hide Id;
    assert line == (line.0, line.1) && Joined(g, line.0, line.1);
    var x, y :| Written(g, x, y, line);
    IdRange(g, x);
    IdRange(g, y);
  }

  method ReadTree(k: nat, oversubscript: real, delay: nat, rate: nat) returns (g: Params, net: Net, torOf: map<Node, Node>)
    requires k % 2 == 0 && oversubscript >= 0.0 && rate > 0
    ensures g == ParamsOf(k, oversubscript) && IsTree(g, net, torOf) && TreePorts(g, net)
  {
    hide Id, IsTree, LinksRead, LinesOfTree, KindsRead, TorsAssigned, TreePorts, TreeLines;
    var switchIds, lines, numLink;
    g, switchIds, lines, numLink := Generate(k, oversubscript);
    SwitchRange(g);
    var cables := Rated(lines, rate);
    var kind := ReadKinds(g.Nodes(), switchIds);
    var nbr2if := InstallLinks(cables, delay);
    net := Net(kind, nbr2if);
    torOf := AssignToRs(kind, cables);
    TreeRead(g, net, torOf, switchIds, delay, rate);
  }

  /** From the generator's two parameters to the simulator's path tables: on every fat tree the
      construction runs to the end, and finds the k/2 paths of two hops inside a pod and the (k/2)^2
      of four hops between pods, with as many ids as 256 bytes allow: all different up to k == 512. */
  method FatTreeTables(k: nat, oversubscript: real, payload: nat, delay: nat, rate: nat, oneHopDelay: Option<nat>)
    returns (ok: bool, g: Params, net: Net, torOf: map<Node, Node>, tables: map<Node, map<Node, TorEntry>>)
    requires k % 2 == 0 && oversubscript >= 0.0 && rate > 0
    ensures g == ParamsOf(k, oversubscript) && IsTree(g, net, torOf) && TreePorts(g, net)
    ensures ok
    ensures forall a, t :: InTree(g, a) && a.Tor? && InTree(g, t) && t.Server? && a != Tor(t.pod, t.j) ==>
              TreeEntry(g, net, oneHopDelay, tables, a, t)
  {
    hide Id, IsTree, AllRoutes, TorTableFor, TreeEntry, TreePorts;
    g, net, torOf := ReadTree(k, oversubscript, delay, rate);
    TreeValid(g, net, torOf);
    TreeSingleHomed(g, net, torOf);
    TreeNodes(g, net, torOf);
    var nodes := AllNodes(g.Nodes());
    var router := new Router(nodes, net, payload);
    ghost var dists := router.Reroute();
    ok, tables := BuildPathTables(net, torOf, router.nextHop, oneHopDelay, dists);
    forall src, dst | src in router.nextHop && IsTor(net, torOf, src) && Remote(torOf, dists, src, dst) ensures dists[dst][src] <= 5 {
      NeverTooLarge(g, net, torOf, dists, router.nextHop, src, dst);
    }
    forall a, t | InTree(g, a) && a.Tor? && InTree(g, t) && t.Server? && a != Tor(t.pod, t.j)
      ensures TreeEntry(g, net, oneHopDelay, tables, a, t)
    {
      TreeEntryHolds(g, net, torOf, dists, router.nextHop, oneHopDelay, tables, a, t);
    }
  }

  lemma TreeNodes(g: Params, net: Net, torOf: map<Node, Node>)
    requires IsTree(g, net, torOf)
    ensures forall v: Node :: v in net.kind <==> v < g.Nodes()
  {
  }

  method AllNodes(n: nat) returns (nodes: seq<Node>)
    ensures Distinct(nodes) && forall v: Node :: v in nodes <==> v < n
  {
    nodes := [];
    for i := 0 to n
      invariant |nodes| == i && forall j :: 0 <= j < i ==> nodes[j] == j
    {
      nodes := nodes + [i];
    }
    forall v: Node | v < n ensures v in nodes { assert nodes[v] == v; }
  }
}
