/** The ToR-to-ToR path tables: every shortest path between two top-of-rack switches, packed
    into a 32-bit id by writing its ports to a shared four-byte buffer. */
module PathTables {
  import opened Common
  import opened Network
  import opened Routing

  /** No host has a link except to one switch, its ToR. */
  ghost predicate SingleHomed(net: Net, torOf: map<Node, Node>) {
    forall h, u :: IsHost(net, h) && Link(net, h, u) ==> h in torOf && u == torOf[h] && IsSwitch(net, u)
  }

  // A host that is linked to its ToR.
  ghost predicate Homed(net: Net, torOf: map<Node, Node>, h: Node) {
    SingleHomed(net, torOf) && IsHost(net, h) && h in torOf && Link(net, h, torOf[h])
  }

  ghost predicate ShortestPath(net: Net, v: Node, w: Node, p: seq<Node>) {
    Route(net, v, w, p) && forall q :: Route(net, v, w, q) ==> |p| <= |q|
  }

  // The bytes of a little-endian number.
  function Pack(bytes: seq<nat>): nat {
    if bytes == [] then 0 else bytes[0] % 256 + 256 * Pack(bytes[1..])
  }

  function PortsAlong(net: Net, p: seq<Node>): (ports: seq<nat>)
    ensures |ports| == if p == [] then 0 else |p| - 1
  {
    if |p| <= 1 then [] else [PortOf(net, p[0], p[1])] + PortsAlong(net, p[1..])
  }

  function PathId(net: Net, p: seq<Node>): nat {
    Pack(PortsAlong(net, p))
  }

  /** The number is the id of a shortest path from one ToR to another that takes two to four hops. */
  ghost predicate IsPathId(net: Net, src: Node, tor: Node, id: nat) {
    exists p :: ShortestPath(net, src, tor, p) && 3 <= |p| <= 5 && PathId(net, p) == id
  }

  // Routes to the host `dst` behind `tor` are known.
  ghost predicate Behind(net: Net, torOf: map<Node, Node>, dst: Node, tor: Node, dis: map<Node, nat>, nextHop: Table<seq<Node>>) {
    && WellFormed(net) && Homed(net, torOf, dst) && tor == torOf[dst]
    && RoutesTo(net, dst, dis, nextHop)
  }

  /** Routes to a host are the routes to its ToR with one hop more. */
  lemma RouteViaTor(net: Net, torOf: map<Node, Node>, src: Node, dst: Node, p: seq<Node>)
    requires WellFormed(net) && Homed(net, torOf, dst) && IsSwitch(net, src)
    ensures Route(net, src, torOf[dst], p) ==> Route(net, src, dst, p + [dst])
    ensures Route(net, src, dst, p) ==> |p| >= 2 && Route(net, src, torOf[dst], p[..|p|-1])
  {
    var tor := torOf[dst];
    assert Link(net, dst, tor);
    if Route(net, src, tor, p) {
      var q := p + [dst];
      forall i | 0 <= i < |q| - 1 ensures Link(net, q[i], q[i+1]) {
        if i < |p| - 1 { assert Link(net, p[i], p[i+1]); }
      }
    }
    if Route(net, src, dst, p) {
      var q := p[..|p|-1];
      assert Link(net, p[|p|-2], p[|p|-2+1]);
      forall i | 0 <= i < |q| - 1 ensures Link(net, q[i], q[i+1]) {
        assert Link(net, p[i], p[i+1]);
      }
    }
  }

  lemma TorDistance(net: Net, torOf: map<Node, Node>, src: Node, dst: Node, dis: map<Node, nat>, p: seq<Node>)
    requires WellFormed(net) && Homed(net, torOf, dst) && IsSwitch(net, src)
    requires Distances(net, dst, dis) && src in dis
    ensures ShortestPath(net, src, torOf[dst], p) <==> Route(net, src, torOf[dst], p) && |p| == dis[src]
  {
    var tor := torOf[dst];
    var r :| Route(net, src, dst, r) && |r| == dis[src] + 1;
    RouteViaTor(net, torOf, src, dst, r);
    RouteViaTor(net, torOf, src, dst, p);
    forall q | Route(net, src, tor, q) ensures dis[src] <= |q| {
      RouteViaTor(net, torOf, src, dst, q);
    }
  }

  /** Next hops towards a host, near its ToR: the list is exactly [tor] at distance two and
      nowhere else. */
  lemma HopsNearTor(net: Net, torOf: map<Node, Node>, dst: Node, tor: Node, dis: map<Node, nat>, nextHop: Table<seq<Node>>, v: Node)
    requires Behind(net, torOf, dst, tor, dis, nextHop) && v in dis && Relays(net, dst, v)
    ensures dis[v] == 0 <==> v == dst
    ensures dis[v] == 1 <==> v == tor
    ensures var hops := Lookup(nextHop, v, dst);
            && (hops == [tor] <==> dis[v] == 2)
            && (|hops| == 1 && hops[0] == tor <==> dis[v] == 2)
            && (hops == [] <==> v == dst)
            && (forall u :: u in hops <==> Nearer(net, dst, dis, v, u))
  {
    var hops := Lookup(nextHop, v, dst);
    assert NextHops(net, dst, dis, v, hops);
    assert Link(net, dst, tor);
    DistanceOne(net, torOf, dst, dis, v);
    forall u ensures u in hops <==> Nearer(net, dst, dis, v, u) {
      assert Link(net, u, v) <==> Link(net, v, u);
    }
    if v != dst {
      var u := NearerExists(net, dst, dis, v);
      assert u in hops;
    }
    forall u | u in hops ensures dis[u] == 1 <==> u == tor {
      DistanceOne(net, torOf, dst, dis, u);
    }
    if dis[v] == 2 {
      OnlyOne(hops, tor);
    }
    if |hops| == 1 && hops[0] == tor { assert tor in hops; }
  }

  lemma OnlyOne<T>(s: seq<T>, x: T)
    requires Distinct(s) && forall y :: y in s ==> y == x
    ensures |s| <= 1
  {
    if |s| > 1 {
      FirstTwoEqual(s, x);
      assert false;
    }
  }

  lemma FirstTwoEqual<T>(s: seq<T>, x: T)
    requires |s| > 1 && forall y :: y in s ==> y == x
    ensures s[0] == s[1]
  {
    assert s[0] in s && s[1] in s;
  }

  lemma DistanceOne(net: Net, torOf: map<Node, Node>, dst: Node, dis: map<Node, nat>, v: Node)
    requires WellFormed(net) && Homed(net, torOf, dst) && Distances(net, dst, dis) && v in dis
    ensures dis[v] == 0 <==> v == dst
    ensures dis[v] == 1 <==> v == torOf[dst]
  {
    var p :| Route(net, v, dst, p) && |p| == dis[v] + 1;
    assert Link(net, dst, torOf[dst]);
    assert Route(net, dst, dst, [dst]);
    if v == torOf[dst] { assert Route(net, v, dst, [v, dst]); }
    if |p| == 2 { assert Link(net, p[0], p[1]); }
  }

  // The walks from v that follow d-1 next hops.
  ghost function Walks(nextHop: Table<seq<Node>>, dst: Node, v: Node, d: nat): set<seq<Node>>
    decreases d, 1, 0
  {
    if d <= 1 then {[v]} else WalksVia(nextHop, dst, v, d, Lookup(nextHop, v, dst))
  }

  // Those whose first hop is among `us`.
  ghost function WalksVia(nextHop: Table<seq<Node>>, dst: Node, v: Node, d: nat, us: seq<Node>): set<seq<Node>>
    requires d > 1
    decreases d, 0, |us|
  {
    if us == [] then {}
    else WalksVia(nextHop, dst, v, d, us[..|us|-1]) + After(v, Walks(nextHop, dst, us[|us|-1], d - 1))
  }

  ghost function After(v: Node, ps: set<seq<Node>>): set<seq<Node>> {
    set p | p in ps :: [v] + p
  }

  // The walk p begins v, u and goes on from u.
  ghost predicate GoesOn(nextHop: Table<seq<Node>>, dst: Node, v: Node, d: nat, u: Node, p: seq<Node>)
    requires d > 1
  {
    p in After(v, Walks(nextHop, dst, u, d - 1))
  }

  lemma {:induction false} WalksViaMember(nextHop: Table<seq<Node>>, dst: Node, v: Node, d: nat, us: seq<Node>, p: seq<Node>)
    requires d > 1
    ensures p in WalksVia(nextHop, dst, v, d, us) <==> exists u :: u in us && GoesOn(nextHop, dst, v, d, u, p)
    decreases |us|
  {
    if us != [] {
      var u, init := us[|us|-1], us[..|us|-1];
      WalksViaMember(nextHop, dst, v, d, init, p);
      assert us == init + [u];
      if p in WalksVia(nextHop, dst, v, d, us) && !GoesOn(nextHop, dst, v, d, u, p) {
        assert p in WalksVia(nextHop, dst, v, d, init);
      }
    }
  }

  lemma AfterMember(v: Node, ps: set<seq<Node>>, p: seq<Node>)
    ensures p in After(v, ps) <==> |p| >= 1 && p[0] == v && p[1..] in ps
  {
    if p in After(v, ps) {
      var r :| r in ps && p == [v] + r;
      assert p[1..] == r;
    }
    if |p| >= 1 && p[0] == v && p[1..] in ps {
      assert p == [v] + p[1..];
    }
  }

  /** From distance d, the walks of d-1 next hops are exactly the shortest paths to the ToR. */
  lemma {:induction false} WalkIsShortest(net: Net, torOf: map<Node, Node>, dst: Node, tor: Node, dis: map<Node, nat>,
                                          nextHop: Table<seq<Node>>, v: Node, p: seq<Node>)
    requires Behind(net, torOf, dst, tor, dis, nextHop) && v in dis && IsSwitch(net, v)
    requires p in Walks(nextHop, dst, v, dis[v])
    ensures Route(net, v, tor, p) && |p| == dis[v]
    decreases dis[v]
  {
    HopsNearTor(net, torOf, dst, tor, dis, nextHop, v);
    if dis[v] > 1 {
      WalksViaMember(nextHop, dst, v, dis[v], Lookup(nextHop, v, dst), p);
      var u :| u in Lookup(nextHop, v, dst) && GoesOn(nextHop, dst, v, dis[v], u, p);
      AfterMember(v, Walks(nextHop, dst, u, dis[v] - 1), p);
      var r := p[1..];
      assert Nearer(net, dst, dis, v, u);
      DistanceOne(net, torOf, dst, dis, u);
      WalkIsShortest(net, torOf, dst, tor, dis, nextHop, u, r);
      PathCons(net, v, r);
      assert p == [v] + r;
    }
  }

  lemma {:induction false} ShortestIsWalk(net: Net, torOf: map<Node, Node>, dst: Node, tor: Node, dis: map<Node, nat>,
                                          nextHop: Table<seq<Node>>, v: Node, p: seq<Node>)
    requires Behind(net, torOf, dst, tor, dis, nextHop) && v in dis && IsSwitch(net, v)
    requires Route(net, v, tor, p) && |p| == dis[v]
    ensures p in Walks(nextHop, dst, v, dis[v])
    decreases dis[v]
  {
    if dis[v] == 1 {
      assert p == [v];
    } else {
      var u, r := p[1], p[1..];
      PathTail(net, p);
      SuffixDistance(net, torOf, dst, dis, v, p);
      ShortestIsWalk(net, torOf, dst, tor, dis, nextHop, u, r);
      HopsNearTor(net, torOf, dst, tor, dis, nextHop, v);
      assert Nearer(net, dst, dis, v, u);
      AfterMember(v, Walks(nextHop, dst, u, dis[v] - 1), p);
      assert GoesOn(nextHop, dst, v, dis[v], u, p);
      WalksViaMember(nextHop, dst, v, dis[v], Lookup(nextHop, v, dst), p);
    }
  }

  // The second node of a shortest path to the ToR is one hop nearer.
  lemma SuffixDistance(net: Net, torOf: map<Node, Node>, dst: Node, dis: map<Node, nat>, v: Node, p: seq<Node>)
    requires WellFormed(net) && Homed(net, torOf, dst) && Distances(net, dst, dis)
    requires v in dis && Route(net, v, torOf[dst], p) && |p| == dis[v] && |p| >= 2
    ensures IsSwitch(net, p[1]) && p[1] in dis && dis[p[1]] + 1 == dis[v]
  {
    PathTail(net, p);
    var u := p[1];
    assert IsSwitch(net, u);
    RouteViaTor(net, torOf, u, dst, p[1..]);
    assert Route(net, u, dst, p[1..] + [dst]);
    var r :| Route(net, u, dst, r) && |r| == dis[u] + 1;
    PathCons(net, v, r);
    assert Route(net, v, dst, [v] + r);
  }

  // The ids of the walks `ps` continued after `prefix`.
  ghost function Ids(net: Net, prefix: seq<Node>, ps: set<seq<Node>>): set<nat> {
    set p | p in ps :: PathId(net, prefix + p)
  }

  lemma IdsOneMore(net: Net, prefix: seq<Node>, nextHop: Table<seq<Node>>, dst: Node, v: Node, d: nat, us: seq<Node>, u: Node)
    requires d > 1
    ensures Ids(net, prefix, WalksVia(nextHop, dst, v, d, us + [u])) ==
            Ids(net, prefix, WalksVia(nextHop, dst, v, d, us)) + Ids(net, prefix + [v], Walks(nextHop, dst, u, d - 1))
  {
    var ps := Walks(nextHop, dst, u, d - 1);
    var before := WalksVia(nextHop, dst, v, d, us);
    assert WalksVia(nextHop, dst, v, d, us + [u]) == before + After(v, ps) by {
      assert (us + [u])[..|us|] == us;
    }
    hide Walks, WalksVia;
    assert Ids(net, prefix, before + After(v, ps)) == Ids(net, prefix, before) + Ids(net, prefix, After(v, ps));
    IdsAfter(net, prefix, v, ps);
  }

  lemma IdsAfter(net: Net, prefix: seq<Node>, v: Node, ps: set<seq<Node>>)
    ensures Ids(net, prefix, After(v, ps)) == Ids(net, prefix + [v], ps)
  {
    hide PathId;
    forall p | p in ps ensures PathId(net, prefix + [v] + p) in Ids(net, prefix, After(v, ps)) {
      assert [v] + p in After(v, ps);
      assert prefix + ([v] + p) == prefix + [v] + p;
    }
    forall q | q in After(v, ps) ensures PathId(net, prefix + q) in Ids(net, prefix + [v], ps) {
      var p :| p in ps && q == [v] + p;
      assert prefix + ([v] + p) == prefix + [v] + p;
    }
  }

  // What the loops for one source ToR and one destination host read.
  datatype Target = Target(net: Net, torOf: map<Node, Node>, dst: Node, tor: Node, nextHop: Table<seq<Node>>)
  {
    function Hops(v: Node): seq<Node> {
      Lookup(nextHop, v, dst)
    }

    // The destination ToR is the only next hop: v is the last switch before it.
    predicate IsLast(v: Node) {
      |Hops(v)| == 1 && Hops(v)[0] == tor
    }

    ghost predicate Valid(dis: map<Node, nat>) {
      Behind(net, torOf, dst, tor, dis, nextHop)
    }

    ghost function WalkIds(prefix: seq<Node>, v: Node, d: nat): set<nat> {
      Ids(net, prefix, Walks(nextHop, dst, v, d))
    }

    // The ids gathered on the way through the first k next hops.
    ghost function WalkIdsVia(prefix: seq<Node>, v: Node, d: nat, k: nat): set<nat>
      requires k <= |Hops(v)|
    {
      if d > 1 then Ids(net, prefix, WalksVia(nextHop, dst, v, d, Hops(v)[..k])) else {}
    }
  }

  // The routing table and the base round-trip time kept for one destination ToR.
  datatype TorEntry = TorEntry(ids: set<nat>, rtt: Option<nat>)

  // The entry after the ids of some paths of `hops` links have been added.
  ghost function WithPaths(e: TorEntry, ids: set<nat>, rtt: Option<nat>): TorEntry {
    if ids == {} then e else TorEntry(e.ids + ids, if rtt.Some? then rtt else e.rtt)
  }

  function WordOf(b: seq<nat>): nat
    requires |b| == 4
  {
    b[0] + 256 * b[1] + 65536 * b[2] + 16777216 * b[3]
  }

  // No byte beyond the first `used` has ever been written.
  ghost predicate ZeroFrom(b: seq<nat>, used: nat) {
    |b| == 4 && forall j :: used <= j < 4 ==> b[j] == 0
  }

  lemma NextHopFacts(t: Target, dis: map<Node, nat>, v: Node, k: nat)
    requires t.Valid(dis) && v in dis && Relays(t.net, t.dst, v) && k < |t.Hops(v)|
    ensures var u := t.Hops(v)[k]; u in dis && dis[u] + 1 == dis[v] && Relays(t.net, t.dst, u) && (t.IsLast(u) <==> dis[u] == 2)
  {
    var u := t.Hops(v)[k];
    assert u in t.Hops(v);
    HopsNearTor(t.net, t.torOf, t.dst, t.tor, dis, t.nextHop, v);
    HopsNearTor(t.net, t.torOf, t.dst, t.tor, dis, t.nextHop, u);
  }

  lemma ViaOneMore(t: Target, prefix: seq<Node>, v: Node, d: nat, k: nat)
    requires d > 1 && k < |t.Hops(v)|
    ensures t.WalkIdsVia(prefix, v, d, k + 1) == t.WalkIdsVia(prefix, v, d, k) + t.WalkIds(prefix + [v], t.Hops(v)[k], d - 1)
  {
    assert t.Hops(v)[..k+1] == t.Hops(v)[..k] + [t.Hops(v)[k]];
    IdsOneMore(t.net, prefix, t.nextHop, t.dst, v, d, t.Hops(v)[..k], t.Hops(v)[k]);
  }

  lemma ViaEnds(t: Target, prefix: seq<Node>, v: Node, d: nat)
    requires d > 1
    ensures t.WalkIdsVia(prefix, v, d, 0) == {}
    ensures t.WalkIdsVia(prefix, v, d, |t.Hops(v)|) == t.WalkIds(prefix, v, d)
  {
    assert t.Hops(v)[..|t.Hops(v)|] == t.Hops(v);
  }

  // From the last switch there is one way on, straight to the ToR.
  lemma LastWalk(t: Target, dis: map<Node, nat>, prefix: seq<Node>, u: Node)
    requires t.Valid(dis) && u in dis && Relays(t.net, t.dst, u) && dis[u] == 2
    ensures t.WalkIds(prefix, u, 2) == {PathId(t.net, prefix + [u, t.tor])}
  {
    HopsNearTor(t.net, t.torOf, t.dst, t.tor, dis, t.nextHop, u);
    assert t.Hops(u) == [t.tor];
    assert Walks(t.nextHop, t.dst, t.tor, 1) == {[t.tor]};
    assert [t.tor][..0] == [];
    assert Walks(t.nextHop, t.dst, u, 2) == {} + After(u, {[t.tor]});
    assert After(u, {[t.tor]}) == {[u, t.tor]} by {
      assert [u] + [t.tor] == [u, t.tor];
      assert [t.tor] in {[t.tor]} && [u] + [t.tor] in After(u, {[t.tor]});
    }
  }

  lemma WithPathsTwice(e: TorEntry, a: set<nat>, b: set<nat>, rtt: Option<nat>)
    ensures WithPaths(WithPaths(e, a, rtt), b, rtt) == WithPaths(e, a + b, rtt)
  {
    assert e.ids + a + b == e.ids + (a + b);
  }

  lemma WithoutPaths(e: TorEntry, rtt: Option<nat>)
    ensures WithPaths(e, {}, rtt) == e
  {
  }

  // The base round-trip time of a path of h hops, kept for ConWeave only.
  function RttOf(oneHopDelay: Option<nat>, h: nat): Option<nat> {
    match oneHopDelay case Some(d) => Some(2 * h * d) case None => None
  }

  // One found path: its ports are in the buffer, its id and round-trip time go into the entry.
  function Recorded(e: TorEntry, word: nat, rtt: Option<nat>): (r: TorEntry)
    ensures r == WithPaths(e, {word}, rtt)
  {
    TorEntry(e.ids + {word}, if rtt.Some? then rtt else e.rtt)
  }

  lemma IdCons(net: Net, p: seq<Node>)
    requires |p| >= 2
    ensures PathId(net, p) == PortOf(net, p[0], p[1]) % 256 + 256 * PathId(net, p[1..])
  {
    assert PortsAlong(net, p)[1..] == PortsAlong(net, p[1..]);
  }

  // The buffer read as a number is the id of the path whose ports were written to it.
  lemma IdOfFour(net: Net, p: seq<Node>)
    requires |p| == 5
    ensures PathId(net, p) == WordOf([PortOf(net, p[0], p[1]) % 256, PortOf(net, p[1], p[2]) % 256,
                                      PortOf(net, p[2], p[3]) % 256, PortOf(net, p[3], p[4]) % 256])
  {
    IdCons(net, p);
    IdCons(net, p[1..]);
    IdCons(net, p[1..][1..]);
    IdCons(net, p[1..][1..][1..]);
  }

  lemma IdOfThree(net: Net, p: seq<Node>)
    requires |p| == 4
    ensures PathId(net, p) == WordOf([PortOf(net, p[0], p[1]) % 256, PortOf(net, p[1], p[2]) % 256, PortOf(net, p[2], p[3]) % 256, 0])
  {
    IdCons(net, p);
    IdCons(net, p[1..]);
    IdCons(net, p[1..][1..]);
  }

  lemma IdOfTwo(net: Net, p: seq<Node>)
    requires |p| == 3
    ensures PathId(net, p) == WordOf([PortOf(net, p[0], p[1]) % 256, PortOf(net, p[1], p[2]) % 256, 0, 0])
  {
    IdCons(net, p);
    IdCons(net, p[1..]);
  }

  // The innermost loop: paths of four hops. It stops the program when the ToR is farther.
  method ThirdHops(t: Target, src: Node, n1: Node, n2: Node, pathPorts: array<nat>, e: TorEntry, oneHopDelay: Option<nat>,
                   ghost dis: map<Node, nat>)
    returns (ok: bool, r: TorEntry)
    requires t.Valid(dis) && n2 in dis && Relays(t.net, t.dst, n2) && dis[n2] != 1 && dis[n2] != 2
    requires pathPorts.Length == 4 && ZeroFrom(pathPorts[..], dis[n2] + 1)
    modifies pathPorts
    ensures ok <==> dis[n2] <= 3
    ensures ok ==> ZeroFrom(pathPorts[..], dis[n2] + 1)
    ensures ok ==> r == if dis[n2] == 3 then WithPaths(e, t.WalkIds([src, n1], n2, 3), RttOf(oneHopDelay, 4)) else e
  {
    hide Behind, PathId, WithPaths, RttOf, Ids, Walks, WalksVia;
    r := e;
    var outPort1, outPort2 := PortOf(t.net, src, n1), PortOf(t.net, n1, n2);
    var nexts3 := t.Hops(n2);
    HopsNearTor(t.net, t.torOf, t.dst, t.tor, dis, t.nextHop, n2);
    ViaEnds(t, [src, n1], n2, 3);
    WithoutPaths(e, RttOf(oneHopDelay, 4));
    for k := 0 to |nexts3|
      invariant k > 0 ==> dis[n2] <= 3
      invariant ZeroFrom(pathPorts[..], dis[n2] + 1)
      invariant r == if dis[n2] == 3 then WithPaths(e, t.WalkIdsVia([src, n1], n2, 3, k), RttOf(oneHopDelay, 4)) else e
    {
      var next3 := nexts3[k];
      NextHopFacts(t, dis, n2, k);
      var outPort3 := PortOf(t.net, n2, next3);
      var nexts4 := t.Hops(next3);
      if |nexts4| == 1 && nexts4[0] == t.tor {
        var outPort4 := PortOf(t.net, next3, nexts4[0]);
        pathPorts[0], pathPorts[1], pathPorts[2], pathPorts[3] := outPort1 % 256, outPort2 % 256, outPort3 % 256, outPort4 % 256;
        LastWalk(t, dis, [src, n1] + [n2], next3);
        ViaOneMore(t, [src, n1], n2, 3, k);
        var p := [src, n1] + [n2] + [next3, t.tor];
        IdOfFour(t.net, p);
        assert pathPorts[..] == [outPort1 % 256, outPort2 % 256, outPort3 % 256, outPort4 % 256];
        WithPathsTwice(e, t.WalkIdsVia([src, n1], n2, 3, k), {PathId(t.net, p)}, RttOf(oneHopDelay, 4));
        r := Recorded(r, WordOf(pathPorts[..]), RttOf(oneHopDelay, 4));
      } else {
        return false, r;
      }
    }
    ok := true;
  }

  // The middle loop: paths of three hops, and of four through the innermost loop.
  method SecondHops(t: Target, src: Node, n1: Node, pathPorts: array<nat>, e: TorEntry, oneHopDelay: Option<nat>,
                    ghost dis: map<Node, nat>)
    returns (ok: bool, r: TorEntry)
    requires t.Valid(dis) && n1 in dis && Relays(t.net, t.dst, n1) && dis[n1] != 0 && dis[n1] != 2
    requires pathPorts.Length == 4 && ZeroFrom(pathPorts[..], dis[n1])
    modifies pathPorts
    ensures ok <==> dis[n1] <= 4
    ensures ok ==> ZeroFrom(pathPorts[..], dis[n1])
    ensures ok ==> r == if dis[n1] >= 3 then WithPaths(e, t.WalkIds([src], n1, dis[n1]), RttOf(oneHopDelay, dis[n1])) else e
  {
    hide Behind, PathId, WithPaths, RttOf, Ids, Walks, WalksVia;
    r := e;
    ghost var d, rtt := dis[n1], RttOf(oneHopDelay, dis[n1]);
    var outPort1 := PortOf(t.net, src, n1);
    var nexts2 := t.Hops(n1);
    HopsNearTor(t.net, t.torOf, t.dst, t.tor, dis, t.nextHop, n1);
    if d > 1 { ViaEnds(t, [src], n1, d); }
    WithoutPaths(e, rtt);
    for k := 0 to |nexts2|
      invariant k > 0 ==> d <= 4
      invariant ZeroFrom(pathPorts[..], d)
      invariant r == if d >= 3 then WithPaths(e, t.WalkIdsVia([src], n1, d, k), rtt) else e
    {
      var next2 := nexts2[k];
      NextHopFacts(t, dis, n1, k);
      if d > 1 {
        ViaOneMore(t, [src], n1, d, k);
        WithPathsTwice(e, t.WalkIdsVia([src], n1, d, k), t.WalkIds([src] + [n1], next2, d - 1), rtt);
        assert [src] + [n1] == [src, n1];
      }
      var outPort2 := PortOf(t.net, n1, next2);
      var nexts3 := t.Hops(next2);
      if |nexts3| == 1 && nexts3[0] == t.tor {
        var outPort3 := PortOf(t.net, next2, nexts3[0]);
        pathPorts[0], pathPorts[1], pathPorts[2] := outPort1 % 256, outPort2 % 256, outPort3 % 256;
        LastWalk(t, dis, [src, n1], next2);
        var p := [src, n1] + [next2, t.tor];
        IdOfThree(t.net, p);
        assert pathPorts[..] == [outPort1 % 256, outPort2 % 256, outPort3 % 256, 0];
        r := Recorded(r, WordOf(pathPorts[..]), RttOf(oneHopDelay, 3));
      } else {
        var fine;
        fine, r := ThirdHops(t, src, n1, next2, pathPorts, r, oneHopDelay, dis);
        if !fine {
          return false, r;
        }
      }
    }
    ok := true;
  }

  lemma NotTheHost(t: Target, dis: map<Node, nat>, src: Node)
    requires t.Valid(dis) && IsSwitch(t.net, src)
    ensures src != t.dst
  {
  }

  // All paths from one ToR towards one host of another: the body of the loop over destinations.
  method FirstHops(t: Target, src: Node, e: TorEntry, oneHopDelay: Option<nat>, ghost dis: map<Node, nat>)
    returns (ok: bool, r: TorEntry)
    requires t.Valid(dis) && src in dis && IsSwitch(t.net, src) && src != t.tor
    ensures ok <==> dis[src] <= 5
    ensures ok ==> r == if dis[src] >= 3 then WithPaths(e, t.WalkIds([], src, dis[src]), RttOf(oneHopDelay, dis[src] - 1)) else e
  {
    hide Behind, PathId, WithPaths, RttOf, Ids, Walks, WalksVia;
    r := e;
    var pathPorts := new nat[4](_ => 0);
    HopsNearTor(t.net, t.torOf, t.dst, t.tor, dis, t.nextHop, src);
    NotTheHost(t, dis, src);
    ghost var d, rtt := dis[src], RttOf(oneHopDelay, dis[src] - 1);
    var nexts1 := t.Hops(src);
    ViaEnds(t, [], src, d);
    WithoutPaths(e, rtt);
    for k := 0 to |nexts1|
      invariant k > 0 ==> d <= 5
      invariant ZeroFrom(pathPorts[..], d - 1)
      invariant r == if d >= 3 then WithPaths(e, t.WalkIdsVia([], src, d, k), rtt) else e
    {
      var next1 := nexts1[k];
      NextHopFacts(t, dis, src, k);
      ViaOneMore(t, [], src, d, k);
      WithPathsTwice(e, t.WalkIdsVia([], src, d, k), t.WalkIds([] + [src], next1, d - 1), rtt);
      assert [] + [src] == [src];
      var outPort1 := PortOf(t.net, src, next1);
      var nexts2 := t.Hops(next1);
      if |nexts2| == 1 && nexts2[0] == t.tor {
        var outPort2 := PortOf(t.net, next1, nexts2[0]);
        pathPorts[0], pathPorts[1] := outPort1 % 256, outPort2 % 256;
        LastWalk(t, dis, [src], next1);
        var p := [src] + [next1, t.tor];
        IdOfTwo(t.net, p);
        assert pathPorts[..] == [outPort1 % 256, outPort2 % 256, 0, 0];
        r := Recorded(r, WordOf(pathPorts[..]), RttOf(oneHopDelay, 2));
      } else {
        var fine;
        fine, r := SecondHops(t, src, next1, pathPorts, r, oneHopDelay, dis);
        if !fine {
          return false, r;
        }
      }
    }
    ok := true;
  }

  const NO_ENTRY := TorEntry({}, None)

  /** The entry for one destination ToR holds exactly the ids of the shortest paths of two to
      four hops, and the round-trip time of their length. */
  ghost predicate Complete(net: Net, src: Node, tor: Node, oneHopDelay: Option<nat>, e: TorEntry) {
    && (forall id :: id in e.ids <==> IsPathId(net, src, tor, id))
    && (forall p :: ShortestPath(net, src, tor, p) ==>
          e.rtt == if oneHopDelay.Some? && 3 <= |p| <= 5 then Some(2 * (|p| - 1) * oneHopDelay.value) else None)
  }

  // The ids found by walking the next hops are those of the shortest paths.
  lemma WalkIdsArePathIds(t: Target, dis: map<Node, nat>, src: Node, id: nat)
    requires t.Valid(dis) && src in dis && IsSwitch(t.net, src)
    ensures id in t.WalkIds([], src, dis[src]) && 3 <= dis[src] <= 5 <==> IsPathId(t.net, src, t.tor, id)
  {
    hide PathId, Walks, ShortestPath, Behind;
    forall p ensures p in Walks(t.nextHop, t.dst, src, dis[src]) <==> ShortestPath(t.net, src, t.tor, p) {
      WalkIffShortest(t, dis, src, p);
    }
    forall p ensures ShortestPath(t.net, src, t.tor, p) ==> |p| == dis[src] {
      if ShortestPath(t.net, src, t.tor, p) { LengthIsDistance(t, dis, src, p); }
    }
    if id in t.WalkIds([], src, dis[src]) {
      var p :| p in Walks(t.nextHop, t.dst, src, dis[src]) && PathId(t.net, [] + p) == id;
      assert [] + p == p;
    }
    if IsPathId(t.net, src, t.tor, id) {
      var p :| ShortestPath(t.net, src, t.tor, p) && 3 <= |p| <= 5 && PathId(t.net, p) == id;
      assert [] + p == p;
    }
  }

  lemma WalkIffShortest(t: Target, dis: map<Node, nat>, src: Node, p: seq<Node>)
    requires t.Valid(dis) && src in dis && IsSwitch(t.net, src)
    ensures p in Walks(t.nextHop, t.dst, src, dis[src]) <==> ShortestPath(t.net, src, t.tor, p)
  {
    hide Walks;
    TorDistance(t.net, t.torOf, src, t.dst, dis, p);
    hide ShortestPath;
    if p in Walks(t.nextHop, t.dst, src, dis[src]) {
      WalkIsShortest(t.net, t.torOf, t.dst, t.tor, dis, t.nextHop, src, p);
    }
    if Route(t.net, src, t.tor, p) && |p| == dis[src] {
      ShortestIsWalk(t.net, t.torOf, t.dst, t.tor, dis, t.nextHop, src, p);
    }
  }

  /** Filling in the same paths for another host behind the same ToR changes nothing. */
  lemma PathsCompleteEntry(t: Target, dis: map<Node, nat>, src: Node, oneHopDelay: Option<nat>, e: TorEntry)
    requires t.Valid(dis) && src in dis && IsSwitch(t.net, src) && 2 <= dis[src] <= 5
    requires e == NO_ENTRY || Complete(t.net, src, t.tor, oneHopDelay, e)
    ensures Complete(t.net, src, t.tor, oneHopDelay,
                     if dis[src] >= 3 then WithPaths(e, t.WalkIds([], src, dis[src]), RttOf(oneHopDelay, dis[src] - 1)) else e)
  {
    hide PathId, Walks, Behind, IsPathId, Ids;
    var w := t.WalkIds([], src, dis[src]);
    forall id ensures id in w && dis[src] >= 3 <==> IsPathId(t.net, src, t.tor, id) {
      WalkIdsArePathIds(t, dis, src, id);
    }
    forall p | ShortestPath(t.net, src, t.tor, p) ensures |p| == dis[src] {
      LengthIsDistance(t, dis, src, p);
    }
    SomeWalk(t, dis, src);
  }

  // Nothing is inserted for a ToR linked to src; for others the entry is no longer empty.
  lemma PathsFound(t: Target, dis: map<Node, nat>, src: Node, oneHopDelay: Option<nat>, e: TorEntry, r: TorEntry)
    requires t.Valid(dis) && src in dis && IsSwitch(t.net, src)
    requires r == if dis[src] >= 3 then WithPaths(e, t.WalkIds([], src, dis[src]), RttOf(oneHopDelay, dis[src] - 1)) else e
    ensures dis[src] < 3 ==> r == e
    ensures dis[src] >= 3 ==> r != NO_ENTRY
  {
    SomeWalk(t, dis, src);
  }

  lemma LengthIsDistance(t: Target, dis: map<Node, nat>, src: Node, p: seq<Node>)
    requires t.Valid(dis) && src in dis && IsSwitch(t.net, src) && ShortestPath(t.net, src, t.tor, p)
    ensures |p| == dis[src]
  {
    TorDistance(t.net, t.torOf, src, t.dst, dis, p);
  }

  lemma SomeWalk(t: Target, dis: map<Node, nat>, src: Node)
    requires t.Valid(dis) && src in dis && IsSwitch(t.net, src)
    ensures t.WalkIds([], src, dis[src]) != {}
    ensures exists p :: ShortestPath(t.net, src, t.tor, p)
  {
    hide PathId, Walks;
    var q :| Route(t.net, src, t.dst, q) && |q| == dis[src] + 1;
    RouteViaTor(t.net, t.torOf, src, t.dst, q);
    var p := q[..|q|-1];
    TorDistance(t.net, t.torOf, src, t.dst, dis, p);
    ShortestIsWalk(t.net, t.torOf, t.dst, t.tor, dis, t.nextHop, src, p);
    assert PathId(t.net, [] + p) in t.WalkIds([], src, dis[src]);
  }

  // dst is a host of another ToR that src has a route to.
  ghost predicate Remote(torOf: map<Node, Node>, dists: map<Node, map<Node, nat>>, src: Node, dst: Node) {
    dst in dists && src in dists[dst] && dst in torOf && torOf[dst] != src
  }

  // A remote host whose ToR is not linked to src itself.
  ghost predicate Far(torOf: map<Node, Node>, dists: map<Node, map<Node, nat>>, src: Node, dst: Node) {
    Remote(torOf, dists, src, dst) && dists[dst][src] >= 3
  }

  /** The table of one source ToR: an entry for the ToR of every remote host that is two hops away
      or more, and no other. */
  ghost predicate TorTableFor(net: Net, torOf: map<Node, Node>, dists: map<Node, map<Node, nat>>, src: Node,
                              oneHopDelay: Option<nat>, dsts: set<Node>, table: map<Node, TorEntry>)
  {
    && (forall dst :: dst in dsts && Far(torOf, dists, src, dst) ==>
          torOf[dst] in table && Complete(net, src, torOf[dst], oneHopDelay, table[torOf[dst]]))
    && (forall tor :: tor in table ==> exists dst :: dst in dsts && Far(torOf, dists, src, dst) && torOf[dst] == tor)
  }

  // One more host of a ToR two hops away or more.
  lemma TableStep(net: Net, torOf: map<Node, Node>, dists: map<Node, map<Node, nat>>, src: Node, oneHopDelay: Option<nat>,
                  dsts: set<Node>, table: map<Node, TorEntry>, dst: Node, e: TorEntry)
    requires TorTableFor(net, torOf, dists, src, oneHopDelay, dsts, table)
    requires Far(torOf, dists, src, dst) && Complete(net, src, torOf[dst], oneHopDelay, e)
    ensures TorTableFor(net, torOf, dists, src, oneHopDelay, dsts + {dst}, table[torOf[dst] := e])
  {
    hide Complete;
    var table' := table[torOf[dst] := e];
    forall tor | tor in table' ensures exists d :: d in dsts + {dst} && Far(torOf, dists, src, d) && torOf[d] == tor {
      if tor == torOf[dst] { assert dst in dsts + {dst}; }
      else {
        var d :| d in dsts && Far(torOf, dists, src, d) && torOf[d] == tor;
        assert d in dsts + {dst};
      }
    }
  }

  lemma TableEntry(net: Net, torOf: map<Node, Node>, dists: map<Node, map<Node, nat>>, src: Node, oneHopDelay: Option<nat>,
                   dsts: set<Node>, table: map<Node, TorEntry>, tor: Node)
    requires TorTableFor(net, torOf, dists, src, oneHopDelay, dsts, table) && tor in table
    ensures Complete(net, src, tor, oneHopDelay, table[tor])
  {
  }

  method TorTable(net: Net, torOf: map<Node, Node>, nextHop: Table<seq<Node>>, src: Node, oneHopDelay: Option<nat>,
                  ghost dists: map<Node, map<Node, nat>>)
    returns (ok: bool, table: map<Node, TorEntry>)
    requires WellFormed(net) && SingleHomed(net, torOf) && AllRoutes(net, dists, nextHop) && IsSwitch(net, src)
    ensures ok <==> forall dst :: Remote(torOf, dists, src, dst) ==> dists[dst][src] <= 5
    ensures ok ==> TorTableFor(net, torOf, dists, src, oneHopDelay, dists.Keys, table)
  {
    hide Complete, WithPaths, TorTableFor, WellFormed, SingleHomed, AllRoutes, Behind, Ids, RttOf;
    table := map[];
    var row := Row(nextHop, src);
    var todo := row.Keys;
    ghost var done := dists.Keys - todo;
    NoTable(net, torOf, nextHop, dists, src, oneHopDelay, done);
    while todo != {}
      invariant todo <= row.Keys && done == dists.Keys - todo
      invariant forall dst :: Remote(torOf, dists, src, dst) && dst !in todo ==> dists[dst][src] <= 5
      invariant TorTableFor(net, torOf, dists, src, oneHopDelay, done, table)
    {
      var dst :| dst in todo;
      ghost var dis := dists[dst];
      HostBehind(net, torOf, nextHop, dists, src, dst);
      var tor := torOf[dst];
      if src != tor {
        var e := if tor in table then table[tor] else NO_ENTRY;
        if tor in table { TableEntry(net, torOf, dists, src, oneHopDelay, done, table, tor); }
        var t := Target(net, torOf, dst, tor, nextHop);
        var fine, r := FirstHops(t, src, e, oneHopDelay, dis);
        if !fine {
          return false, table;
        }
        if dis[src] >= 3 {
          PathsCompleteEntry(t, dis, src, oneHopDelay, e);
          TableStep(net, torOf, dists, src, oneHopDelay, done, table, dst, r);
        } else {
          TableSkip(net, torOf, dists, src, oneHopDelay, done, table, dst);
        }
        PathsFound(t, dis, src, oneHopDelay, e, r);
        assert r == e && tor in table ==> table[tor := r] == table;
        if r != e {
          table := table[tor := r];
        }
      } else {
        TableSkip(net, torOf, dists, src, oneHopDelay, done, table, dst);
      }
      todo, done := todo - {dst}, done + {dst};
    }
    ok := true;
    assert done == dists.Keys;
  }

  lemma NoTable(net: Net, torOf: map<Node, Node>, nextHop: Table<seq<Node>>, dists: map<Node, map<Node, nat>>, src: Node,
                oneHopDelay: Option<nat>, done: set<Node>)
    requires AllRoutes(net, dists, nextHop) && IsSwitch(net, src) && done == dists.Keys - Row(nextHop, src).Keys
    ensures TorTableFor(net, torOf, dists, src, oneHopDelay, done, map[])
    ensures Row(nextHop, src).Keys <= dists.Keys
    ensures forall dst :: dst in done ==> !Remote(torOf, dists, src, dst)
  {
    forall dst | dst in dists ensures dst in Row(nextHop, src) <==> src in dists[dst] {
      assert RoutesTo(net, dst, dists[dst], nextHop);
      assert Cell(nextHop, src, dst).Some? <==> dst in Row(nextHop, src);
    }
    forall dst | dst in Row(nextHop, src) ensures dst in dists {
      assert Cell(nextHop, src, dst).Some?;
    }
  }

  lemma TableSkip(net: Net, torOf: map<Node, Node>, dists: map<Node, map<Node, nat>>, src: Node, oneHopDelay: Option<nat>,
                  dsts: set<Node>, table: map<Node, TorEntry>, dst: Node)
    requires TorTableFor(net, torOf, dists, src, oneHopDelay, dsts, table) && !Far(torOf, dists, src, dst)
    ensures TorTableFor(net, torOf, dists, src, oneHopDelay, dsts + {dst}, table)
  {
    hide Complete;
  }

  lemma HostBehind(net: Net, torOf: map<Node, Node>, nextHop: Table<seq<Node>>, dists: map<Node, map<Node, nat>>, src: Node, dst: Node)
    requires WellFormed(net) && SingleHomed(net, torOf) && AllRoutes(net, dists, nextHop) && IsSwitch(net, src)
    requires dst in Row(nextHop, src) && dst in dists
    ensures dst in torOf && Target(net, torOf, dst, torOf[dst], nextHop).Valid(dists[dst]) && src in dists[dst]
    ensures torOf[dst] != src ==> dists[dst][src] >= 2
  {
    assert Cell(nextHop, src, dst).Some?;
    var p: seq<Node> :| Route(net, src, dst, p) && |p| == dists[dst][src] + 1;
    RouteReverse(net, src, dst, p);
    assert Link(net, Reverse(p)[0], Reverse(p)[1]);
    DistanceOne(net, torOf, dst, dists[dst], src);
  }

  predicate IsTor(net: Net, torOf: map<Node, Node>, v: Node) {
    IsSwitch(net, v) && v in torOf.Values
  }

  /** The path tables of all ToRs. The program stops, on "Too large topology?", exactly when
      some ToR is more than four hops away from the ToR of a host it has a route to. */
  method BuildPathTables(net: Net, torOf: map<Node, Node>, nextHop: Table<seq<Node>>, oneHopDelay: Option<nat>,
                         ghost dists: map<Node, map<Node, nat>>)
    returns (ok: bool, tables: map<Node, map<Node, TorEntry>>)
    requires WellFormed(net) && SingleHomed(net, torOf) && AllRoutes(net, dists, nextHop)
    ensures ok <==> forall src, dst :: src in nextHop && IsTor(net, torOf, src) && Remote(torOf, dists, src, dst) ==> dists[dst][src] <= 5
    ensures ok ==> forall src :: src in tables <==> src in nextHop && IsTor(net, torOf, src)
    ensures ok ==> forall src :: src in tables ==> TorTableFor(net, torOf, dists, src, oneHopDelay, dists.Keys, tables[src])
  {
    hide TorTableFor, WellFormed, SingleHomed, AllRoutes;
    tables := map[];
    var todo := nextHop.Keys;
    while todo != {}
      invariant todo <= nextHop.Keys
      invariant forall src, dst :: src in nextHop.Keys - todo && IsTor(net, torOf, src) && Remote(torOf, dists, src, dst) ==> dists[dst][src] <= 5
      invariant forall src :: src in tables <==> src in nextHop.Keys - todo && IsTor(net, torOf, src)
      invariant forall src :: src in tables ==> TorTableFor(net, torOf, dists, src, oneHopDelay, dists.Keys, tables[src])
    {
      var src :| src in todo;
      if IsTor(net, torOf, src) {
        var fine, table := TorTable(net, torOf, nextHop, src, oneHopDelay, dists);
        if !fine {
          return false, tables;
        }
        tables := tables[src := table];
      }
      todo := todo - {src};
    }
    ok := true;
  }

  // The first n bytes of an id, nearest first.
  function Unpack(id: nat, n: nat): seq<nat> {
    if n == 0 then [] else [id % 256] + Unpack(id / 256, n - 1)
  }

  // The ports as they are stored.
  function LowBytes(ports: seq<nat>): (bytes: seq<nat>)
    ensures |bytes| == |ports| && forall i :: 0 <= i < |ports| ==> bytes[i] == ports[i] % 256
  {
    seq(|ports|, i requires 0 <= i < |ports| => ports[i] % 256)
  }

  lemma {:induction false} UnpackPack(ports: seq<nat>)
    ensures Unpack(Pack(ports), |ports|) == LowBytes(ports)
  {
    if ports == [] {
    } else {
      UnpackPack(ports[1..]);
      assert Pack(ports) % 256 == ports[0] % 256 && Pack(ports) / 256 == Pack(ports[1..]);
      assert LowBytes(ports) == [ports[0] % 256] + LowBytes(ports[1..]);
    }
  }

  /** Unpacking the id of a path gives the low bytes of the ports to take; these are the ports
      themselves if and only if they are below 256. */
  lemma PathIdUnpacks(net: Net, p: seq<Node>)
    requires |p| >= 1
    ensures Unpack(PathId(net, p), |p| - 1) == LowBytes(PortsAlong(net, p))
    ensures LowBytes(PortsAlong(net, p)) == PortsAlong(net, p) <==> forall i :: 0 <= i < |p| - 1 ==> PortsAlong(net, p)[i] < 256
  {
    UnpackPack(PortsAlong(net, p));
    hide PortsAlong, Unpack, Pack, LowBytes;
    BytesAreSmall(PortsAlong(net, p));
  }

  lemma BytesAreSmall(ports: seq<nat>)
    ensures LowBytes(ports) == ports <==> forall i :: 0 <= i < |ports| ==> ports[i] < 256
  {
    if forall i :: 0 <= i < |ports| ==> ports[i] < 256 {
      assert LowBytes(ports) == ports;
    } else {
      var i :| 0 <= i < |ports| && ports[i] >= 256;
      assert LowBytes(ports)[i] != ports[i];
    }
  }

  // Paths of one length from one node have different ids.
  ghost predicate IdsNamePaths(net: Net) {
    forall p: seq<Node>, q: seq<Node> ::
      IsPath(net, p) && IsPath(net, q) && |p| == |q| && p[0] == q[0] && PathId(net, p) == PathId(net, q) ==> p == q
  }

  // No two links of a node have ports with the same low byte.
  ghost predicate LowBytesDistinct(net: Net) {
    forall v, u, w :: Link(net, v, u) && Link(net, v, w) && u != w ==> PortOf(net, v, u) % 256 != PortOf(net, v, w) % 256
  }

  lemma {:induction false} SameId(net: Net, p: seq<Node>, q: seq<Node>)
    requires LowBytesDistinct(net) && IsPath(net, p) && IsPath(net, q) && p[0] == q[0] && |p| == |q|
    requires PathId(net, p) == PathId(net, q)
    ensures p == q
  {
    if |p| > 1 {
      PathTail(net, p);
      PathTail(net, q);
      IdCons(net, p);
      IdCons(net, q);
      hide PathId;
      assert p[1] == q[1];
      SameId(net, p[1..], q[1..]);
      assert p == [p[0]] + p[1..] && q == [q[0]] + q[1..];
    }
  }

  lemma DistinctNames(net: Net)
    requires LowBytesDistinct(net)
    ensures IdsNamePaths(net)
  {
    hide LowBytesDistinct, PathId;
    forall p: seq<Node>, q: seq<Node> | IsPath(net, p) && IsPath(net, q) && |p| == |q| && p[0] == q[0] && PathId(net, p) == PathId(net, q)
      ensures p == q
    {
      SameId(net, p, q);
    }
  }

  lemma NamesDistinct(net: Net, v: Node, u: Node, w: Node)
    requires IdsNamePaths(net) && Link(net, v, u) && Link(net, v, w) && u != w
    ensures PortOf(net, v, u) % 256 != PortOf(net, v, w) % 256
  {
    OneHopIds(net, v, u);
    OneHopIds(net, v, w);
    hide PathId, PortOf, IsPath;
    assert IsPath(net, [v, u]) && IsPath(net, [v, w]) && [v, u][1] != [v, w][1];
  }

  /** Ids name paths if and only if at every node the links have ports with different low bytes,
      as they have whenever ports stay below 256. */
  lemma IdsNamePathsIff(net: Net)
    ensures IdsNamePaths(net) <==> LowBytesDistinct(net)
    ensures PortsDistinct(net) && (forall v, u :: HasEntry(net, v, u) ==> net.nbr2if[v][u].idx < 256) ==> LowBytesDistinct(net)
  {
    if LowBytesDistinct(net) { DistinctNames(net); }
    if IdsNamePaths(net) {
      hide IdsNamePaths, PortOf;
      forall v, u, w | Link(net, v, u) && Link(net, v, w) && u != w ensures PortOf(net, v, u) % 256 != PortOf(net, v, w) % 256 {
        NamesDistinct(net, v, u, w);
      }
    }
  }

  lemma OneHopIds(net: Net, v: Node, u: Node)
    requires Link(net, v, u)
    ensures IsPath(net, [v, u]) && PathId(net, [v, u]) == PortOf(net, v, u) % 256
  {
    IdCons(net, [v, u]);
    assert [v, u][1..] == [u];
    assert PathId(net, [u]) == 0;
  }

  // An id of at most four ports is a 32-bit number.
  lemma PathIdFits(net: Net, p: seq<Node>)
    requires 3 <= |p| <= 5
    ensures PathId(net, p) < 0x1_0000_0000
  {
    if |p| == 3 { IdOfTwo(net, p); } else if |p| == 4 { IdOfThree(net, p); } else { IdOfFour(net, p); }
  }
}
