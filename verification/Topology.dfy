/** The topology reader of scratch/network-load-balance.cc: node types, links with their ports,
    and the ToR switch of every host. */
module Topology {
  import opened Common
  import opened Network
  import opened Routing

  // The nodes of the header, switches where listed and hosts otherwise.
  ghost predicate KindsRead(nodeNum: nat, switchIds: seq<nat>, kind: map<Node, Kind>) {
    && (forall v: Node :: v in kind <==> v < nodeNum)
    && (forall v: Node :: v < nodeNum ==> (kind[v] == Switch <==> v in switchIds))
  }

  method ReadKinds(nodeNum: nat, switchIds: seq<nat>) returns (kind: map<Node, Kind>)
    requires forall s :: s in switchIds ==> s < nodeNum
    ensures KindsRead(nodeNum, switchIds, kind)
  {
    kind := map[];
    for v := 0 to nodeNum
      invariant forall u: Node :: u in kind <==> u < v
      invariant forall u: Node :: u < v ==> kind[u] == Host
    {
      kind := kind[v := Host];
    }
    for i := 0 to |switchIds|
      invariant forall v: Node :: v in kind <==> v < nodeNum
      invariant forall v: Node :: v < nodeNum ==> (kind[v] == Switch <==> v in switchIds[..i])
    {
      assert switchIds[i] in switchIds;
      kind := kind[switchIds[i] := Switch];
    }
  }

  // A line of the file; the link delay is asserted to be the same on all lines.
  datatype Cable = Cable(src: Node, dst: Node, rate: nat)

  predicate Joins(c: Cable, v: Node, u: Node) {
    (c.src == v && c.dst == u) || (c.src == u && c.dst == v)
  }

  // Devices that v has got; device 0 is the loopback, so this is also the port of the last one.
  function Ends(cables: seq<Cable>, v: Node): nat {
    if cables == [] then 0
    else
      var c := cables[|cables|-1];
      Ends(cables[..|cables|-1], v) + (if c.src == v then 1 else 0) + if c.dst == v then 1 else 0
  }

  /** The interface of v towards u: the device made by the last line that joins them. */
  function Installed(cables: seq<Cable>, delay: nat, v: Node, u: Node): Option<Iface> {
    if cables == [] then None
    else if Joins(cables[|cables|-1], v, u) then Some(Iface(Ends(cables, v), true, delay, cables[|cables|-1].rate))
    else Installed(cables[..|cables|-1], delay, v, u)
  }

  ghost predicate LinksRead(t: Table<Iface>, cables: seq<Cable>, delay: nat) {
    forall v: Node, u: Node :: Cell(t, v, u) == Installed(cables, delay, v, u)
  }

  method InstallLinks(cables: seq<Cable>, delay: nat) returns (nbr2if: map<Node, map<Node, Iface>>)
    ensures LinksRead(nbr2if, cables, delay)
  {
    hide Installed, Ends, Put;
    nbr2if := map[];
    var devices: map<Node, nat> := map[];
    NothingInstalled(delay);
    assert cables[..0] == [];
    for n := 0 to |cables|
      invariant LinksRead(nbr2if, cables[..n], delay)
      invariant forall v: Node :: Devices(devices, v) == Ends(cables[..n], v)
    {
      var c := cables[n];
      assert cables[..n+1] == cables[..n] + [c];
      InstalledNext(cables[..n], delay, c);
      devices := devices[c.src := Devices(devices, c.src) + 1];
      var out := Devices(devices, c.src);
      devices := devices[c.dst := Devices(devices, c.dst) + 1];
      nbr2if := Put(nbr2if, c.src, c.dst, Iface(out, true, delay, c.rate));
      nbr2if := Put(nbr2if, c.dst, c.src, Iface(Devices(devices, c.dst), true, delay, c.rate));
    }
    assert cables[..|cables|] == cables;
  }

  function Devices(devices: map<Node, nat>, v: Node): nat {
    if v in devices then devices[v] else 0
  }

  lemma NothingInstalled(delay: nat)
    ensures LinksRead(map[], [], delay) && forall v: Node :: Ends([], v) == 0
  {
  }

  lemma InstalledNext(cables: seq<Cable>, delay: nat, c: Cable)
    ensures forall v: Node :: Ends(cables + [c], v) == Ends(cables, v) + (if c.src == v then 1 else 0) + if c.dst == v then 1 else 0
    ensures forall v: Node, u: Node :: Installed(cables + [c], delay, v, u) ==
              if Joins(c, v, u) then Some(Iface(Ends(cables + [c], v), true, delay, c.rate)) else Installed(cables, delay, v, u)
  {
    assert (cables + [c])[..|cables|] == cables;
  }

  predicate AnyJoins(cables: seq<Cable>, v: Node, u: Node) {
    exists i :: 0 <= i < |cables| && Joins(cables[i], v, u)
  }

  // Line i, and no later one, joins v and u.
  ghost predicate LastJoins(cables: seq<Cable>, v: Node, u: Node, i: nat) {
    i < |cables| && Joins(cables[i], v, u) && forall j :: i < j < |cables| ==> !Joins(cables[j], v, u)
  }

  /** The interface is that of the last line: its rate, the delay of all, up, and the port counted
      when the line was read. */
  lemma {:induction false} InstalledIs(cables: seq<Cable>, delay: nat, v: Node, u: Node, i: nat)
    requires LastJoins(cables, v, u, i)
    ensures var iface := Installed(cables, delay, v, u);
      iface.Some? && iface.value.up && iface.value.delay == delay && iface.value.bw == cables[i].rate
      && iface.value.idx == Ends(cables[..i + 1], v)
  {
    if i + 1 == |cables| {
      assert cables[..i + 1] == cables;
    } else {
      var init := cables[..|cables|-1];
      InstalledIs(init, delay, v, u, i);
      assert init[..i + 1] == cables[..i + 1];
    }
  }

  // A link is there in both directions, at one rate, exactly if a line joins its ends.
  lemma {:induction false} InstalledBothWays(cables: seq<Cable>, delay: nat, v: Node, u: Node)
    ensures Installed(cables, delay, v, u).Some? <==> AnyJoins(cables, v, u)
    ensures Installed(cables, delay, u, v).Some? <==> AnyJoins(cables, v, u)
    ensures AnyJoins(cables, v, u) ==> Installed(cables, delay, v, u).value.bw == Installed(cables, delay, u, v).value.bw
    ensures AnyJoins(cables, v, u) ==> exists i :: 0 <= i < |cables| && cables[i].rate == Installed(cables, delay, v, u).value.bw
    ensures AnyJoins(cables, v, u) ==> Installed(cables, delay, v, u).value.up && Installed(cables, delay, v, u).value.delay == delay
  {
    if cables != [] && !Joins(cables[|cables|-1], v, u) {
      var init := cables[..|cables|-1];
      InstalledBothWays(init, delay, v, u);
      assert forall i :: 0 <= i < |init| ==> init[i] == cables[i];
      if AnyJoins(cables, v, u) {
        var i :| 0 <= i < |cables| && Joins(cables[i], v, u);
        assert Joins(init[i], v, u);
      }
    }
  }

  // Ports are given out in turn, so no two links of a node share one.
  lemma {:induction false} InstalledPorts(cables: seq<Cable>, delay: nat, v: Node, u: Node)
    ensures Installed(cables, delay, v, u).Some? ==> 0 < Installed(cables, delay, v, u).value.idx <= Ends(cables, v)
  {
    if cables != [] && !Joins(cables[|cables|-1], v, u) {
      InstalledPorts(cables[..|cables|-1], delay, v, u);
    }
  }

  lemma {:induction false} PortsDiffer(cables: seq<Cable>, delay: nat, v: Node, u: Node, w: Node)
    requires u != w && Installed(cables, delay, v, u).Some? && Installed(cables, delay, v, w).Some?
    ensures Installed(cables, delay, v, u).value.idx != Installed(cables, delay, v, w).value.idx
  {
    var init, last := cables[..|cables|-1], cables[|cables|-1];
    if Joins(last, v, u) {
      InstalledPorts(init, delay, v, w);
    } else if Joins(last, v, w) {
      InstalledPorts(init, delay, v, u);
    } else {
      PortsDiffer(init, delay, v, u, w);
    }
  }

  /** The network read from a topology file is well formed, its ports are distinct, and it links
      exactly the pairs of the file, with one delay everywhere and one rate in both directions of
      each link. */
  lemma ReadNetwork(net: Net, cables: seq<Cable>, delay: nat)
    requires LinksRead(net.nbr2if, cables, delay)
    requires forall c :: c in cables ==> c.rate > 0 && c.src in net.kind && c.dst in net.kind
    ensures WellFormed(net) && PortsDistinct(net)
    ensures forall v: Node, u: Node :: Link(net, v, u) <==> AnyJoins(cables, v, u)
    ensures forall v: Node, u: Node :: Link(net, v, u) ==> net.nbr2if[v][u].delay == delay && net.nbr2if[v][u].bw == net.nbr2if[u][v].bw
  {
    hide Installed;
    forall v: Node, u: Node
      ensures HasEntry(net, v, u) <==> AnyJoins(cables, v, u)
      ensures HasEntry(net, v, u) ==> HasEntry(net, u, v) && v in net.kind && u in net.kind && LinkAsRead(net, delay, v, u)
    {
      EntryRead(net, cables, delay, v, u);
    }
    hide AnyJoins, LinksRead;
    forall v: Node, u: Node, w: Node | HasEntry(net, v, u) && HasEntry(net, v, w) && u != w
      ensures net.nbr2if[v][u].idx != net.nbr2if[v][w].idx
    {
      EntriesDiffer(net, cables, delay, v, u, w);
    }
  }

  predicate LinkAsRead(net: Net, delay: nat, v: Node, u: Node) {
    && HasEntry(net, v, u) && HasEntry(net, u, v)
    && net.nbr2if[v][u].up && net.nbr2if[v][u].delay == delay && net.nbr2if[v][u].idx > 0
    && net.nbr2if[v][u].bw == net.nbr2if[u][v].bw > 0
  }

  lemma EntryRead(net: Net, cables: seq<Cable>, delay: nat, v: Node, u: Node)
    requires LinksRead(net.nbr2if, cables, delay)
    requires forall c :: c in cables ==> c.rate > 0 && c.src in net.kind && c.dst in net.kind
    ensures HasEntry(net, v, u) <==> AnyJoins(cables, v, u)
    ensures HasEntry(net, v, u) ==> v in net.kind && u in net.kind && LinkAsRead(net, delay, v, u)
  {
    hide Installed;
    InstalledBothWays(cables, delay, v, u);
    InstalledPorts(cables, delay, v, u);
    assert Cell(net.nbr2if, v, u) == Installed(cables, delay, v, u);
    assert Cell(net.nbr2if, u, v) == Installed(cables, delay, u, v);
    if AnyJoins(cables, v, u) {
      var i :| 0 <= i < |cables| && Joins(cables[i], v, u);
      var j :| 0 <= j < |cables| && cables[j].rate == Installed(cables, delay, v, u).value.bw;
      assert cables[i] in cables && cables[j] in cables;
    }
  }

  lemma EntriesDiffer(net: Net, cables: seq<Cable>, delay: nat, v: Node, u: Node, w: Node)
    requires LinksRead(net.nbr2if, cables, delay) && HasEntry(net, v, u) && HasEntry(net, v, w) && u != w
    ensures net.nbr2if[v][u].idx != net.nbr2if[v][w].idx
  {
    hide Installed;
    assert Cell(net.nbr2if, v, u) == Installed(cables, delay, v, u) && Cell(net.nbr2if, v, w) == Installed(cables, delay, v, w);
    PortsDiffer(cables, delay, v, u, w);
  }

  predicate HostLine(kind: map<Node, Kind>, c: Cable) {
    c.src in kind && kind[c.src] == Host && c.dst in kind && kind[c.dst] == Switch
  }

  // The switch of the last line that begins with host h.
  function TorFrom(kind: map<Node, Kind>, cables: seq<Cable>, h: Node): Option<Node> {
    if cables == [] then None
    else
      var c := cables[|cables|-1];
      if HostLine(kind, c) && c.src == h then Some(c.dst) else TorFrom(kind, cables[..|cables|-1], h)
  }

  ghost predicate TorsAssigned(kind: map<Node, Kind>, cables: seq<Cable>, torOf: map<Node, Node>) {
    forall h: Node :: TorFrom(kind, cables, h) == if h in torOf then Some(torOf[h]) else None
  }

  /** The switch each host hangs off, from the host-first lines of the file; a later line wins. */
  method AssignToRs(kind: map<Node, Kind>, cables: seq<Cable>) returns (torOf: map<Node, Node>)
    ensures TorsAssigned(kind, cables, torOf)
  {
    torOf := map[];
    for n := 0 to |cables|
      invariant TorsAssigned(kind, cables[..n], torOf)
    {
      var probablyHost, probablySwitch := cables[n].src, cables[n].dst;
      assert cables[..n+1][..n] == cables[..n];
      if probablyHost in kind && kind[probablyHost] == Host && probablySwitch in kind && kind[probablySwitch] == Switch {
        torOf := torOf[probablyHost := probablySwitch];
      }
    }
    assert cables[..|cables|] == cables;
  }

  lemma {:induction false} TorIsLine(kind: map<Node, Kind>, cables: seq<Cable>, h: Node)
    ensures TorFrom(kind, cables, h).Some? <==> exists i :: 0 <= i < |cables| && HostLine(kind, cables[i]) && cables[i].src == h
    ensures TorFrom(kind, cables, h).Some? ==>
              exists i :: 0 <= i < |cables| && HostLine(kind, cables[i]) && cables[i].src == h && cables[i].dst == TorFrom(kind, cables, h).value
  {
    if cables != [] {
      var init, last := cables[..|cables|-1], cables[|cables|-1];
      TorIsLine(kind, init, h);
      assert forall i :: 0 <= i < |init| ==> init[i] == cables[i];
      if HostLine(kind, last) && last.src == h { assert cables[|cables|-1] == last; }
    }
  }

  /** It is that of the last line that begins with the host. */
  lemma {:induction false} TorIsLast(kind: map<Node, Kind>, cables: seq<Cable>, h: Node, i: nat)
    requires i < |cables| && HostLine(kind, cables[i]) && cables[i].src == h
    requires forall j :: i < j < |cables| && HostLine(kind, cables[j]) ==> cables[j].src != h
    ensures TorFrom(kind, cables, h) == Some(cables[i].dst)
  {
    if i + 1 < |cables| { TorIsLast(kind, cables[..|cables|-1], h, i); }
  }
}
