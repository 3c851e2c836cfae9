/** Route computation of scratch/network-load-balance.cc: the breadth-first search from each
    host, the forwarding tables filled from it, and their recomputation when a link fails. */
module Routing {
  import opened Common
  import opened Network

  const BW_MAX: nat := 0xffff_ffff_ffff_ffff

  datatype Figures = Figures(delay: nat, tx: nat, bw: nat)

  // Time in nanoseconds to put one payload on a link.
  function TxTime(payload: nat, bw: nat): nat
    requires bw > 0
  {
    payload * 1_000_000_000 * 8 / bw
  }

  /** Sums of delays and transmit times and the least bandwidth along a path, read in the
      direction from its last node to its first. */
  ghost function PathFigures(net: Net, payload: nat, p: seq<Node>): Figures
    requires WellFormed(net) && IsPath(net, p)
  {
    if |p| == 1 then Figures(0, 0, BW_MAX)
    else
      PathTail(net, p);
      assert Link(net, p[1], p[0]);
      var f := PathFigures(net, payload, p[1..]);
      var i := net.nbr2if[p[1]][p[0]];
      Figures(f.delay + i.delay, f.tx + TxTime(payload, i.bw), if i.bw < f.bw then i.bw else f.bw)
  }

  // Some shortest route from v to host has exactly these figures.
  ghost predicate Attained(net: Net, payload: nat, host: Node, v: Node, d: nat, f: Figures)
    requires WellFormed(net)
  {
    exists p :: Route(net, v, host, p) && |p| == d + 1 && PathFigures(net, payload, p) == f
  }

  ghost predicate AllAttained(net: Net, payload: nat, host: Node, dis: map<Node, nat>,
                              delay: map<Node, nat>, tx: map<Node, nat>, bw: map<Node, nat>)
    requires WellFormed(net)
  {
    && delay.Keys == tx.Keys == bw.Keys == dis.Keys
    && forall v :: v in dis ==> Attained(net, payload, host, v, dis[v], Figures(delay[v], tx[v], bw[v]))
  }

  type Table<T> = map<Node, map<Node, T>>

  function Row<T>(t: Table<T>, v: Node): map<Node, T> {
    if v in t then t[v] else map[]
  }

  function Cell<T>(t: Table<T>, v: Node, h: Node): Option<T> {
    if v in t && h in t[v] then Some(t[v][h]) else None
  }

  // operator[] on a vector-valued table: a missing entry reads as the empty vector.
  function Lookup<T>(t: Table<seq<T>>, v: Node, h: Node): seq<T> {
    match Cell(t, v, h) case Some(s) => s case None => []
  }

  function Put<T>(t: Table<T>, v: Node, h: Node, x: T): (r: Table<T>)
    ensures forall a: Node, b: Node :: Cell(r, a, b) == if (a, b) == (v, h) then Some(x) else Cell(t, a, b)
  {
    t[v := Row(t, v)[h := x]]
  }

  // The search queue: distinct relays in order of distance, holding every relay seen so far.
  ghost predicate Queue(net: Net, host: Node, q: seq<Node>, dis: map<Node, nat>) {
    && |q| >= 1 && q[0] == host && host in dis && dis[host] == 0
    && Distinct(q)
    && (forall j :: 0 <= j < |q| ==> q[j] in dis && Relays(net, host, q[j]))
    && (forall v :: v in dis && Relays(net, host, v) ==> v in q)
    && (forall j, k :: 0 <= j < k < |q| ==> dis[q[j]] <= dis[q[k]])
    && (forall v :: v in dis ==> v == host || dis[v] > 0)
  }

  // Nothing seen so far is more than one hop beyond distance d.
  ghost predicate Within(dis: map<Node, nat>, d: nat) {
    forall v :: v in dis ==> dis[v] <= d + 1
  }

  // The search has looked from u at its neighbour w: the nodes `done` are fully expanded and
  // `now` is expanded except towards `todo`.
  ghost predicate Looked(done: set<Node>, now: Node, todo: set<Node>, u: Node, w: Node) {
    u in done || (u == now && w !in todo)
  }

  // A looked-at neighbour has a distance, at most one hop more than the node it was seen from.
  ghost predicate Settled(net: Net, done: set<Node>, now: Node, todo: set<Node>, dis: map<Node, nat>) {
    forall u, w :: Link(net, u, w) && Looked(done, now, todo, u, w) ==> u in dis && w in dis && dis[w] <= dis[u] + 1
  }

  // u is one hop nearer than its neighbour v and has been looked from.
  ghost predicate Listed(net: Net, done: set<Node>, now: Node, todo: set<Node>, dis: map<Node, nat>, u: Node, v: Node) {
    Link(net, u, v) && Looked(done, now, todo, u, v) && u in dis && v in dis && dis[u] + 1 == dis[v]
  }

  ghost predicate Lists(net: Net, done: set<Node>, now: Node, todo: set<Node>, dis: map<Node, nat>, v: Node, hops: seq<Node>) {
    Distinct(hops) && forall u :: u in hops <==> Listed(net, done, now, todo, dis, u, v)
  }

  /** Everything the search promises for one host, given its distance map. */
  ghost predicate RoutesTo(net: Net, host: Node, dis: map<Node, nat>, nextHop: Table<seq<Node>>) {
    && Distances(net, host, dis)
    && (forall v :: NextHops(net, host, dis, v, Lookup(nextHop, v, host)))
    && (forall v :: Cell(nextHop, v, host).Some? <==> v in dis && v != host)
  }

  // A finished search has settled every relay, so no route is shorter than recorded.
  lemma {:induction false} SearchIsShortest(net: Net, host: Node, q: seq<Node>, dis: map<Node, nat>, v: Node, p: seq<Node>)
    requires WellFormed(net) && Queue(net, host, q, dis)
    requires forall u, w :: u in q && Link(net, u, w) ==> w in dis && u in dis && dis[w] <= dis[u] + 1
    requires Route(net, v, host, p)
    ensures v in dis && dis[v] + 1 <= |p|
    decreases |p|
  {
    if |p| > 1 {
      PathTail(net, p);
      SearchIsShortest(net, host, q, dis, p[1], p[1..]);
      assert p[1] in q && Link(net, p[1], v);
    }
  }

  // One more hop on a shortest route gives the figures of a shortest route.
  lemma Extend(net: Net, payload: nat, host: Node, now: Node, d: nat, f: Figures, next: Node)
    requires WellFormed(net) && Link(net, now, next) && Attained(net, payload, host, now, d, f)
    requires now == host ==> d == 0
    requires Relays(net, host, now)
    ensures var i := net.nbr2if[now][next];
            Attained(net, payload, host, next, d + 1,
                     Figures(f.delay + i.delay, f.tx + TxTime(payload, i.bw), if i.bw < f.bw then i.bw else f.bw))
  {
    hide TxTime;
    var p :| Route(net, now, host, p) && |p| == d + 1 && PathFigures(net, payload, p) == f;
    assert Link(net, next, now);
    hide WellFormed;
    PathCons(net, next, p);
    var q := [next] + p;
    assert q[1..] == p && |q| == d + 2;
    assert Route(net, next, host, q);
  }

  // The search in progress: the first i nodes of the queue q are `done`, and `now` is expanded
  // except towards `todo`.
  datatype Search = Search(q: seq<Node>, i: nat, done: set<Node>, now: Node, todo: set<Node>,
                           dis: map<Node, nat>, delay: map<Node, nat>, tx: map<Node, nat>, bw: map<Node, nat>,
                           nextHop: Table<seq<Node>>)

  // The queue is in order, the nodes before position i are `done`, and nothing seen is more than
  // one hop beyond the rest.
  ghost predicate QueueSound(net: Net, host: Node, q: seq<Node>, i: nat, done: set<Node>, dis: map<Node, nat>) {
    && host in net.kind && i <= |q| && Queue(net, host, q, dis)
    && (forall u :: u in done ==> u in dis && u in net.kind && Relays(net, host, u))
    && (forall j :: 0 <= j < |q| ==> (q[j] in done <==> j < i))
    && (i < |q| ==> Within(dis, dis[q[i]]))
  }

  // The next hops recorded so far are exactly the ones looked at.
  ghost predicate HopsSound(net: Net, host: Node, done: set<Node>, now: Node, todo: set<Node>, dis: map<Node, nat>,
                            nextHop: Table<seq<Node>>)
  {
    && Settled(net, done, now, todo, dis)
    && (forall v :: Lists(net, done, now, todo, dis, v, Lookup(nextHop, v, host)))
    && (forall v :: Cell(nextHop, v, host).Some? <==> v in dis && v != host)
  }

  ghost predicate Searching(net: Net, payload: nat, host: Node, s: Search)
    requires WellFormed(net)
  {
    && QueueSound(net, host, s.q, s.i, s.done, s.dis)
    && HopsSound(net, host, s.done, s.now, s.todo, s.dis, s.nextHop)
    && AllAttained(net, payload, host, s.dis, s.delay, s.tx, s.bw)
  }

  // The search is expanding the node `now` at position i of its queue.
  ghost predicate Expanding(net: Net, payload: nat, host: Node, s: Search)
    requires WellFormed(net)
  {
    Searching(net, payload, host, s) && s.i < |s.q| && s.now == s.q[s.i]
  }

  // The search is between two nodes.
  ghost predicate Waiting(net: Net, payload: nat, host: Node, s: Search)
    requires WellFormed(net)
  {
    Searching(net, payload, host, s) && s.todo == net.kind.Keys
  }

  lemma Start(net: Net, payload: nat, host: Node, nextHop: Table<seq<Node>>)
    requires WellFormed(net) && host in net.kind && forall v :: Cell(nextHop, v, host) == None
    ensures Waiting(net, payload, host, Search([host], 0, {}, host, net.kind.Keys, map[host := 0], map[host := 0],
                                               map[host := 0], map[host := BW_MAX], nextHop))
  {
    assert Route(net, host, host, [host]) && PathFigures(net, payload, [host]) == Figures(0, 0, BW_MAX);
  }

  lemma RowLink(net: Net, u: Node, v: Node)
    requires v in Row(net.nbr2if, u)
    ensures u in net.nbr2if && v in net.nbr2if[u] && (Link(net, u, v) <==> net.nbr2if[u][v].up)
  {
  }

  // Begin expanding the next node of the queue.
  lemma Enter(net: Net, payload: nat, host: Node, s: Search, todo: set<Node>)
    requires WellFormed(net) && Waiting(net, payload, host, s)
    requires s.i < |s.q| && todo == Row(net.nbr2if, s.q[s.i]).Keys
    ensures Expanding(net, payload, host, s.(now := s.q[s.i], todo := todo))
    ensures s.q[s.i] in s.dis && s.q[s.i] in net.kind
  {
    hide QueueSound, HopsSound, AllAttained, WellFormed;
    EnterHops(net, host, s.done, s.now, s.dis, s.nextHop, s.q[s.i], todo);
    QueueNext(net, host, s.q, s.i, s.done, s.dis);
  }

  lemma EnterHops(net: Net, host: Node, done: set<Node>, before: Node, dis: map<Node, nat>, nextHop: Table<seq<Node>>, now: Node, todo: set<Node>)
    requires WellFormed(net) && HopsSound(net, host, done, before, net.kind.Keys, dis, nextHop) && todo == Row(net.nbr2if, now).Keys
    ensures HopsSound(net, host, done, now, todo, dis, nextHop)
  {
    forall v ensures Lists(net, done, now, todo, dis, v, Lookup(nextHop, v, host)) {
      assert Lists(net, done, before, net.kind.Keys, dis, v, Lookup(nextHop, v, host));
    }
  }

  lemma QueueNext(net: Net, host: Node, q: seq<Node>, i: nat, done: set<Node>, dis: map<Node, nat>)
    requires WellFormed(net) && QueueSound(net, host, q, i, done, dis) && i < |q|
    ensures q[i] in dis && q[i] in net.kind
  {
    hide Within;
  }

  lemma QueueGrows(net: Net, host: Node, q: seq<Node>, dis: map<Node, nat>, next: Node, d: nat)
    requires Queue(net, host, q, dis) && next !in dis && d > 0 && forall j :: 0 <= j < |q| ==> dis[q[j]] <= d
    ensures Queue(net, host, if IsSwitch(net, next) then q + [next] else q, dis[next := d])
  {
    assert next !in q;
    var q', dis' := if IsSwitch(net, next) then q + [next] else q, dis[next := d];
    forall v | v in dis' && Relays(net, host, v) ensures v in q' {
      if v == next { assert q'[|q|] == next; }
    }
  }

  // A neighbour seen for the first time joins the queue if it relays, ...
  lemma FirstQueue(net: Net, host: Node, q: seq<Node>, i: nat, done: set<Node>, dis: map<Node, nat>, next: Node)
    requires QueueSound(net, host, q, i, done, dis) && i < |q| && next !in dis
    ensures QueueSound(net, host, if IsSwitch(net, next) then q + [next] else q, i, done, dis[next := dis[q[i]] + 1])
  {
    QueueWithin(net, host, q, i, done, dis);
    QueueGrows(net, host, q, dis, next, dis[q[i]] + 1);
    hide Queue, IsSwitch, Relays;
  }

  lemma QueueWithin(net: Net, host: Node, q: seq<Node>, i: nat, done: set<Node>, dis: map<Node, nat>)
    requires QueueSound(net, host, q, i, done, dis) && i < |q|
    ensures forall j :: 0 <= j < |q| ==> q[j] in dis && dis[q[j]] <= dis[q[i]] + 1
  {
  }

  // ... gets its first next hop, ...
  lemma FirstHops(net: Net, host: Node, done: set<Node>, now: Node, todo: set<Node>, dis: map<Node, nat>,
                  nextHop: Table<seq<Node>>, next: Node)
    requires HopsSound(net, host, done, now, todo, dis, nextHop) && host in dis
    requires next in todo && Link(net, now, next) && next !in dis && now in dis && now !in done
    ensures HopsSound(net, host, done, now, todo - {next}, dis[next := dis[now] + 1],
                      Put(nextHop, next, host, Lookup(nextHop, next, host) + [now]))
  {
    hide Put, Settled;
    var dis' := dis[next := dis[now] + 1];
    var nextHop' := Put(nextHop, next, host, Lookup(nextHop, next, host) + [now]);
    FirstSettled(net, host, done, now, todo, dis, nextHop, next);
    forall v ensures Lists(net, done, now, todo - {next}, dis', v, Lookup(nextHop', v, host)) {
      assert Lists(net, done, now, todo, dis, v, Lookup(nextHop, v, host));
      forall u ensures Listed(net, done, now, todo - {next}, dis', u, v)
                       <==> Listed(net, done, now, todo, dis, u, v) || (u == now && v == next)
      {
        FirstListed(net, done, now, todo, dis, next, u, v);
      }
      FirstListed(net, done, now, todo, dis, next, now, v);
      hide Listed;
    }
  }

  lemma FirstSettled(net: Net, host: Node, done: set<Node>, now: Node, todo: set<Node>, dis: map<Node, nat>,
                     nextHop: Table<seq<Node>>, next: Node)
    requires Settled(net, done, now, todo, dis) && next !in dis && now in dis && now !in done
    ensures Settled(net, done, now, todo - {next}, dis[next := dis[now] + 1])
  {
  }

  // The only change: now is one hop nearer than next, and has been looked from.
  lemma FirstListed(net: Net, done: set<Node>, now: Node, todo: set<Node>, dis: map<Node, nat>, next: Node, u: Node, v: Node)
    requires Settled(net, done, now, todo, dis) && next in todo && Link(net, now, next) && next !in dis && now in dis && now !in done
    ensures Listed(net, done, now, todo - {next}, dis[next := dis[now] + 1], u, v)
            <==> Listed(net, done, now, todo, dis, u, v) || (u == now && v == next)
    ensures !Listed(net, done, now, todo, dis, u, next)
  {
    assert Link(net, u, v) && Looked(done, now, todo, u, v) ==> u in dis && v in dis;
    hide Settled, Link;
  }

  lemma ExpandingFacts(net: Net, payload: nat, host: Node, s: Search)
    requires WellFormed(net) && Expanding(net, payload, host, s)
    ensures s.now in s.dis && s.now !in s.done && host in s.dis && Relays(net, host, s.now) && (s.now == host ==> s.dis[s.now] == 0)
  {
  }

  // ... and the figures of a shortest route.
  lemma First(net: Net, payload: nat, host: Node, s: Search, next: Node)
    requires WellFormed(net) && Expanding(net, payload, host, s)
    requires next in s.todo && Link(net, s.now, next) && next !in s.dis
    ensures s.now in s.dis && s.dis.Keys == s.delay.Keys == s.tx.Keys == s.bw.Keys
    ensures next in net.kind && net.nbr2if[s.now][next].bw > 0
    ensures var link := net.nbr2if[s.now][next];
            Expanding(net, payload, host, s.(q := if IsSwitch(net, next) then s.q + [next] else s.q, todo := s.todo - {next},
                                             dis := s.dis[next := s.dis[s.now] + 1],
                                             delay := s.delay[next := s.delay[s.now] + link.delay],
                                             tx := s.tx[next := s.tx[s.now] + TxTime(payload, link.bw)],
                                             bw := s.bw[next := if link.bw < s.bw[s.now] then link.bw else s.bw[s.now]],
                                             nextHop := Put(s.nextHop, next, host, Lookup(s.nextHop, next, host) + [s.now])))
  {
    hide HopsSound, QueueSound, Attained, TxTime, Put, Lookup;
    ExpandingFacts(net, payload, host, s);
    FirstQueue(net, host, s.q, s.i, s.done, s.dis, next);
    FirstHops(net, host, s.done, s.now, s.todo, s.dis, s.nextHop, next);
    ExtendAll(net, payload, host, s.dis, s.delay, s.tx, s.bw, s.now, next, net.nbr2if[s.now][next]);
  }

  lemma ExtendAll(net: Net, payload: nat, host: Node, dis: map<Node, nat>, delay: map<Node, nat>, tx: map<Node, nat>,
                  bw: map<Node, nat>, now: Node, next: Node, link: Iface)
    requires WellFormed(net) && AllAttained(net, payload, host, dis, delay, tx, bw)
    requires now in dis && next !in dis && Link(net, now, next) && Relays(net, host, now) && (now == host ==> dis[now] == 0)
    requires link == net.nbr2if[now][next]
    ensures AllAttained(net, payload, host, dis[next := dis[now] + 1], delay[next := delay[now] + link.delay],
                        tx[next := tx[now] + TxTime(payload, link.bw)], bw[next := if link.bw < bw[now] then link.bw else bw[now]])
  {
    hide Attained, TxTime;
    Extend(net, payload, host, now, dis[now], Figures(delay[now], tx[now], bw[now]), next);
  }

  // A neighbour seen before at the right distance: one more equal-cost next hop.
  lemma AgainHops(net: Net, host: Node, done: set<Node>, now: Node, todo: set<Node>, dis: map<Node, nat>,
                  nextHop: Table<seq<Node>>, next: Node)
    requires HopsSound(net, host, done, now, todo, dis, nextHop) && next != host
    requires next in todo && Link(net, now, next) && next in dis && now in dis && now !in done && dis[next] == dis[now] + 1
    ensures HopsSound(net, host, done, now, todo - {next}, dis,
                      Put(nextHop, next, host, Lookup(nextHop, next, host) + [now]))
  {
    var nextHop' := Put(nextHop, next, host, Lookup(nextHop, next, host) + [now]);
    forall v ensures Lists(net, done, now, todo - {next}, dis, v, Lookup(nextHop', v, host)) {
      assert Lists(net, done, now, todo, dis, v, Lookup(nextHop, v, host));
      assert !Listed(net, done, now, todo, dis, now, next);
    }
  }

  lemma Again(net: Net, payload: nat, host: Node, s: Search, next: Node)
    requires WellFormed(net) && Expanding(net, payload, host, s)
    requires next in s.todo && Link(net, s.now, next) && next in s.dis && s.now in s.dis && s.dis[next] == s.dis[s.now] + 1
    ensures Expanding(net, payload, host, s.(todo := s.todo - {next},
                                             nextHop := Put(s.nextHop, next, host, Lookup(s.nextHop, next, host) + [s.now])))
  {
    hide HopsSound, AllAttained;
    AgainHops(net, host, s.done, s.now, s.todo, s.dis, s.nextHop, next);
  }

  // A link that is down, or leads to a node no farther from the host.
  lemma SkipHops(net: Net, host: Node, done: set<Node>, now: Node, todo: set<Node>, dis: map<Node, nat>,
                 nextHop: Table<seq<Node>>, next: Node)
    requires HopsSound(net, host, done, now, todo, dis, nextHop) && now in dis
    requires Link(net, now, next) ==> next in dis && dis[next] <= dis[now]
    ensures HopsSound(net, host, done, now, todo - {next}, dis, nextHop)
  {
    forall v ensures Lists(net, done, now, todo - {next}, dis, v, Lookup(nextHop, v, host)) {
      assert Lists(net, done, now, todo, dis, v, Lookup(nextHop, v, host));
    }
  }

  lemma Skip(net: Net, payload: nat, host: Node, s: Search, next: Node)
    requires WellFormed(net) && Expanding(net, payload, host, s) && s.now in s.dis
    requires Link(net, s.now, next) ==> next in s.dis && s.dis[next] != s.dis[s.now] + 1
    ensures Expanding(net, payload, host, s.(todo := s.todo - {next}))
  {
    hide HopsSound, AllAttained, Queue;
    assert Link(net, s.now, next) ==> s.dis[next] <= s.dis[s.now] + 1;
    SkipHops(net, host, s.done, s.now, s.todo, s.dis, s.nextHop, next);
  }

  // All neighbours looked at: on to the next queue position.
  lemma AdvanceHops(net: Net, host: Node, done: set<Node>, now: Node, dis: map<Node, nat>, nextHop: Table<seq<Node>>)
    requires WellFormed(net) && HopsSound(net, host, done, now, {}, dis, nextHop)
    ensures HopsSound(net, host, done + {now}, host, net.kind.Keys, dis, nextHop)
  {
    forall v ensures Lists(net, done + {now}, host, net.kind.Keys, dis, v, Lookup(nextHop, v, host)) {
      assert Lists(net, done, now, {}, dis, v, Lookup(nextHop, v, host));
    }
  }

  lemma Advance(net: Net, payload: nat, host: Node, s: Search)
    requires WellFormed(net) && Expanding(net, payload, host, s) && s.todo == {} && s.now in net.kind
    ensures Waiting(net, payload, host, s.(i := s.i + 1, done := s.done + {s.now}, now := host, todo := net.kind.Keys))
    ensures net.kind.Keys - (s.done + {s.now}) < net.kind.Keys - s.done
  {
    hide HopsSound, AllAttained;
    AdvanceHops(net, host, s.done, s.now, s.dis, s.nextHop);
    assert s.now in net.kind.Keys - s.done;
  }

  // An exhausted queue has found every route.
  lemma Finish(net: Net, payload: nat, host: Node, s: Search)
    requires WellFormed(net) && Waiting(net, payload, host, s) && s.i == |s.q|
    ensures RoutesTo(net, host, s.dis, s.nextHop)
    ensures AllAttained(net, payload, host, s.dis, s.delay, s.tx, s.bw)
  {
    FinishDistances(net, payload, host, s);
    hide Distances, HopsSound, NextHops, AllAttained, QueueSound, WellFormed;
    forall v
      ensures NextHops(net, host, s.dis, v, Lookup(s.nextHop, v, host))
      ensures Cell(s.nextHop, v, host).Some? <==> v in s.dis && v != host
    {
      FinishHops(net, payload, host, s, v);
    }
  }

  lemma FinishDistances(net: Net, payload: nat, host: Node, s: Search)
    requires WellFormed(net) && Waiting(net, payload, host, s) && s.i == |s.q|
    ensures Distances(net, host, s.dis)
  {
    hide AllAttained, QueueSound, HopsSound, WellFormed;
    AllExpanded(net, host, s.q, s.done, s.now, s.todo, s.dis, s.nextHop);
    forall v | v in s.dis ensures exists p :: Route(net, v, host, p) && |p| == s.dis[v] + 1 {
      AttainedRoute(net, payload, host, s.dis, s.delay, s.tx, s.bw, v);
    }
    hide Queue;
    forall v, p | Route(net, v, host, p) ensures v in s.dis && s.dis[v] + 1 <= |p| {
      SearchIsShortest(net, host, s.q, s.dis, v, p);
    }
  }

  // At the end every relay has been looked from.
  lemma AllExpanded(net: Net, host: Node, q: seq<Node>, done: set<Node>, now: Node, todo: set<Node>, dis: map<Node, nat>,
                    nextHop: Table<seq<Node>>)
    requires QueueSound(net, host, q, |q|, done, dis) && HopsSound(net, host, done, now, todo, dis, nextHop)
    ensures Queue(net, host, q, dis)
    ensures forall u, w :: u in q && Link(net, u, w) ==> w in dis && u in dis && dis[w] <= dis[u] + 1
  {
    hide Lists, Within;
    forall u, w | u in q && Link(net, u, w) ensures w in dis && u in dis && dis[w] <= dis[u] + 1 {
      assert Looked(done, now, todo, u, w);
    }
  }

  lemma AttainedRoute(net: Net, payload: nat, host: Node, dis: map<Node, nat>, delay: map<Node, nat>, tx: map<Node, nat>,
                      bw: map<Node, nat>, v: Node)
    requires WellFormed(net) && AllAttained(net, payload, host, dis, delay, tx, bw) && v in dis
    ensures exists p :: Route(net, v, host, p) && |p| == dis[v] + 1
  {
    assert Attained(net, payload, host, v, dis[v], Figures(delay[v], tx[v], bw[v]));
  }

  lemma FinishHops(net: Net, payload: nat, host: Node, s: Search, v: Node)
    requires WellFormed(net) && Waiting(net, payload, host, s) && s.i == |s.q|
    ensures NextHops(net, host, s.dis, v, Lookup(s.nextHop, v, host))
    ensures Cell(s.nextHop, v, host).Some? <==> v in s.dis && v != host
  {
    hide AllAttained, PathFigures;
    assert Lists(net, s.done, s.now, s.todo, s.dis, v, Lookup(s.nextHop, v, host));
  }

  method SetColumn<T>(t: Table<T>, host: Node, vals: map<Node, T>) returns (r: Table<T>)
    ensures forall v, w :: Cell(r, v, w) == if w == host && v in vals then Some(vals[v]) else Cell(t, v, w)
  {
    r := t;
    var todo := vals.Keys;
    while todo != {}
      invariant todo <= vals.Keys
      invariant forall v, w :: Cell(r, v, w) == if w == host && v in vals && v !in todo then Some(vals[v]) else Cell(t, v, w)
    {
      var v :| v in todo;
      r := Put(r, v, host, vals[v]);
      todo := todo - {v};
    }
  }

  // No entry for another destination has changed.
  ghost predicate SameElsewhere<T>(host: Node, t: Table<T>, r: Table<T>) {
    forall v, h :: h != host ==> Cell(r, v, h) == Cell(t, v, h)
  }

  lemma SameRefl<T>(host: Node, t: Table<T>)
    ensures SameElsewhere(host, t, t)
  {
  }

  lemma PutElsewhere<T>(host: Node, t: Table<T>, r: Table<T>, v: Node, x: T)
    requires SameElsewhere(host, t, r)
    ensures SameElsewhere(host, t, Put(r, v, host, x))
  {
  }

  /** The pair tables hold, for every node with a route to host, the figures of one shortest route. */
  ghost predicate FiguresTo(net: Net, payload: nat, host: Node, dis: map<Node, nat>, pairDelay: Table<nat>,
                            pairTxDelay: Table<nat>, pairBw: Table<nat>)
    requires WellFormed(net)
  {
    forall v :: v in dis ==>
      && Cell(pairDelay, v, host).Some? && Cell(pairTxDelay, v, host).Some? && Cell(pairBw, v, host).Some?
      && Attained(net, payload, host, v, dis[v], 
                  Figures(Cell(pairDelay, v, host).value, Cell(pairTxDelay, v, host).value, Cell(pairBw, v, host).value))
  }

  /** Every host has its routes, and nothing else is a destination. */
  ghost predicate AllRoutes(net: Net, dists: map<Node, map<Node, nat>>, nextHop: Table<seq<Node>>) {
    && (forall h :: IsHost(net, h) <==> h in dists)
    && (forall h :: h in dists ==> RoutesTo(net, h, dists[h], nextHop))
    && (forall v, h :: Cell(nextHop, v, h).Some? ==> h in dists)
  }

  ghost predicate AllFigures(net: Net, payload: nat, dists: map<Node, map<Node, nat>>, pairDelay: Table<nat>,
                             pairTxDelay: Table<nat>, pairBw: Table<nat>)
    requires WellFormed(net)
  {
    forall h :: h in dists ==> FiguresTo(net, payload, h, dists[h], pairDelay, pairTxDelay, pairBw)
  }

  lemma RoutesKept(net: Net, host: Node, h: Node, dis: map<Node, nat>, t: Table<seq<Node>>, r: Table<seq<Node>>)
    requires RoutesTo(net, h, dis, t) && SameElsewhere(host, t, r) && h != host
    ensures RoutesTo(net, h, dis, r)
  {
    forall v ensures Lookup(r, v, h) == Lookup(t, v, h) && Cell(r, v, h) == Cell(t, v, h) {
    }
  }

  lemma NoFigures(net: Net, payload: nat, delay: Table<nat>, tx: Table<nat>, bw: Table<nat>)
    requires WellFormed(net)
    ensures AllFigures(net, payload, map[], delay, tx, bw)
  {
  }

  lemma FiguresKept(net: Net, payload: nat, host: Node, dists: map<Node, map<Node, nat>>, dis: map<Node, nat>,
                    delay: Table<nat>, tx: Table<nat>, bw: Table<nat>, delay': Table<nat>, tx': Table<nat>, bw': Table<nat>)
    requires WellFormed(net) && AllFigures(net, payload, dists, delay, tx, bw) && host !in dists
    requires FiguresTo(net, payload, host, dis, delay', tx', bw')
    requires SameElsewhere(host, delay, delay') && SameElsewhere(host, tx, tx') && SameElsewhere(host, bw, bw')
    ensures AllFigures(net, payload, dists[host := dis], delay', tx', bw')
  {
    hide WellFormed, Attained;
  }

  // nbr2if[v][u].idx, where operator[] reads a missing link as one with port 0.
  function PortOf(net: Net, v: Node, u: Node): nat {
    if HasEntry(net, v, u) then net.nbr2if[v][u].idx else 0
  }

  // The ports by which a node reaches its next hops.
  ghost function Ports(net: Net, v: Node, hops: seq<Node>): (ports: seq<nat>)
    ensures |ports| == |hops| && forall i :: 0 <= i < |hops| ==> ports[i] == PortOf(net, v, hops[i])
  {
    if hops == [] then [] else [PortOf(net, v, hops[0])] + Ports(net, v, hops[1..])
  }

  /** The forwarding tables are the next-hop tables seen through ports. */
  ghost predicate TablesMatch(net: Net, nextHop: Table<seq<Node>>, tables: Table<seq<nat>>) {
    forall v, h :: Lookup(tables, v, h) == Ports(net, v, Lookup(nextHop, v, h))
  }

  /** The network with both directions of one link down. */
  function LinkDown(net: Net, a: Node, b: Node): Net
    requires HasEntry(net, a, b) && HasEntry(net, b, a)
  {
    var one := Put(net.nbr2if, a, b, net.nbr2if[a][b].(up := false));
    net.(nbr2if := Put(one, b, a, one[b][a].(up := false)))
  }

  lemma LinkDownLinks(net: Net, a: Node, b: Node)
    requires WellFormed(net) && HasEntry(net, a, b) && HasEntry(net, b, a)
    ensures var r := LinkDown(net, a, b);
            && WellFormed(r) && r.kind == net.kind
            && (forall u: Node, v: Node :: Link(r, u, v) <==> Link(net, u, v) && (u, v) != (a, b) && (u, v) != (b, a))
            && forall u: Node, v: Node :: HasEntry(net, u, v) ==> HasEntry(r, u, v) && r.nbr2if[u][v] == net.nbr2if[u][v].(up := Link(r, u, v))
  {
    var r := LinkDown(net, a, b);
    forall u, v ensures HasEntry(r, u, v) <==> HasEntry(net, u, v)
    ensures HasEntry(r, u, v) ==> r.nbr2if[u][v] == net.nbr2if[u][v].(up := Link(r, u, v))
    {
      assert HasEntry(r, u, v) <==> Cell(r.nbr2if, u, v).Some?;
    }
    forall u: Node, v: Node ensures Link(r, u, v) <==> Link(net, u, v) && (u, v) != (a, b) && (u, v) != (b, a) {
      assert Link(r, u, v) <==> Cell(r.nbr2if, u, v).Some? && Cell(r.nbr2if, u, v).value.up;
    }
  }

  class Router {
    const nodes: seq<Node>
    const kind: map<Node, Kind>
    const payload: nat
    var nbr2if: map<Node, map<Node, Iface>>
    var nextHop: Table<seq<Node>>
    var pairDelay: Table<nat>
    var pairTxDelay: Table<nat>
    var pairBw: Table<nat>
    var tables: Table<seq<nat>>

    // A network before any route is computed.
    constructor (nodes: seq<Node>, net: Net, payload: nat)
      requires WellFormed(net) && Distinct(nodes) && forall v :: v in nodes <==> v in net.kind
      ensures Valid() && Graph() == net && this.payload == payload && nextHop == map[] && tables == map[]
    {
      this.nodes, this.kind, this.payload, this.nbr2if := nodes, net.kind, payload, net.nbr2if;
      nextHop, pairDelay, pairTxDelay, pairBw, tables := map[], map[], map[], map[], map[];
    }

    function Graph(): Net
      reads this
    {
      Net(kind, nbr2if)
    }

    ghost predicate Valid()
      reads this
    {
      WellFormed(Graph()) && Distinct(nodes) && forall v :: v in nodes <==> v in kind
    }

    // The search itself; `dist`, `delay`, `tx` and `bw` are local to CalculateRoute in the program.
    method Explore(host: Node)
      returns (dist: map<Node, nat>, delay: map<Node, nat>, tx: map<Node, nat>, bw: map<Node, nat>)
      requires Valid() && host in kind
      requires forall v :: Cell(nextHop, v, host) == None
      modifies this`nextHop
      ensures RoutesTo(Graph(), host, dist, nextHop)
      ensures SameElsewhere(host, old(nextHop), nextHop)
      ensures AllAttained(Graph(), payload, host, dist, delay, tx, bw)
    {
      hide Searching, RoutesTo, AllAttained, TxTime, WellFormed, SameElsewhere, Put, Lookup, Waiting, Expanding, Link, Row;
      var q: seq<Node> := [host];
      dist, delay, tx, bw := map[host := 0], map[host := 0], map[host := 0], map[host := BW_MAX];
      ghost var net, before, done := Graph(), nextHop, {};
      assert WellFormed(net);
      assert SameElsewhere(host, before, nextHop) by { SameRefl(host, nextHop); }
      Start(net, payload, host, nextHop);
      var i := 0;
      while i < |q|
        invariant i <= |q|
        invariant Waiting(net, payload, host, Search(q, i, done, host, kind.Keys, dist, delay, tx, bw, nextHop))
        invariant SameElsewhere(host, before, nextHop)
        decreases kind.Keys - done
      {
        var now := q[i];
        var todo := Row(nbr2if, now).Keys;
        Enter(net, payload, host, Search(q, i, done, host, kind.Keys, dist, delay, tx, bw, nextHop), todo);
        var d := dist[now];
        while todo != {}
          invariant i < |q| && now in dist && now in kind && dist[now] == d
          invariant todo <= Row(nbr2if, now).Keys
          invariant Expanding(net, payload, host, Search(q, i, done, now, todo, dist, delay, tx, bw, nextHop))
          invariant SameElsewhere(host, before, nextHop)
        {
          var next :| next in todo;
          RowLink(net, now, next);
          var link := nbr2if[now][next];
          ghost var s := Search(q, i, done, now, todo, dist, delay, tx, bw, nextHop);
          if link.up {
            if next !in dist {
              First(net, payload, host, s, next);
              dist := dist[next := d + 1];
              delay := delay[next := delay[now] + link.delay];
              tx := tx[next := tx[now] + TxTime(payload, link.bw)];
              bw := bw[next := if link.bw < bw[now] then link.bw else bw[now]];
              if kind[next] == Switch {
                q := q + [next];
              }
            } else if d + 1 == dist[next] {
              Again(net, payload, host, s, next);
            } else {
              Skip(net, payload, host, s, next);
            }
            ghost var appended := Put(nextHop, next, host, Lookup(nextHop, next, host) + [now]);
            assert Expanding(net, payload, host, Search(q, i, done, now, todo - {next}, dist, delay, tx, bw,
                                                        if d + 1 == dist[next] then appended else nextHop));
            if d + 1 == dist[next] {
              PutElsewhere(host, before, nextHop, next, Lookup(nextHop, next, host) + [now]);
              nextHop := Put(nextHop, next, host, Lookup(nextHop, next, host) + [now]);
            }
          } else {
            Skip(net, payload, host, s, next);
          }
          todo := todo - {next};
        }
        Advance(net, payload, host, Search(q, i, done, now, todo, dist, delay, tx, bw, nextHop));
        i, done := i + 1, done + {now};
      }
      Finish(net, payload, host, Search(q, i, done, host, kind.Keys, dist, delay, tx, bw, nextHop));
    }

    method CalculateRoute(host: Node) returns (ghost dis: map<Node, nat>)
      requires Valid() && host in kind
      requires forall v :: Cell(nextHop, v, host) == None
      modifies this`nextHop, this`pairDelay, this`pairTxDelay, this`pairBw
      ensures RoutesTo(Graph(), host, dis, nextHop)
      ensures FiguresTo(Graph(), payload, host, dis, pairDelay, pairTxDelay, pairBw)
      ensures SameElsewhere(host, old(nextHop), nextHop)
      ensures SameElsewhere(host, old(pairDelay), pairDelay)
      ensures SameElsewhere(host, old(pairTxDelay), pairTxDelay)
      ensures SameElsewhere(host, old(pairBw), pairBw)
    {
      hide RoutesTo, Attained, WellFormed;
      var dist, delay, tx, bw := Explore(host);
      pairDelay := SetColumn(pairDelay, host, delay);
      pairTxDelay := SetColumn(pairTxDelay, host, tx);
      pairBw := SetColumn(pairBw, host, bw);
      dis := dist;
    }

    method CalculateRoutes() returns (ghost dists: map<Node, map<Node, nat>>)
      requires Valid() && nextHop == map[]
      modifies this`nextHop, this`pairDelay, this`pairTxDelay, this`pairBw
      ensures AllRoutes(Graph(), dists, nextHop)
      ensures AllFigures(Graph(), payload, dists, pairDelay, pairTxDelay, pairBw)
    {
      hide AllFigures, FiguresTo, RoutesTo, Attained;
      dists := map[];
      NoFigures(Graph(), payload, pairDelay, pairTxDelay, pairBw);
      for i := 0 to |nodes|
        invariant forall h :: h in dists <==> h in nodes[..i] && IsHost(Graph(), h)
        invariant forall h :: h in dists ==> RoutesTo(Graph(), h, dists[h], nextHop)
        invariant forall v, h :: Cell(nextHop, v, h).Some? ==> h in dists
        invariant AllFigures(Graph(), payload, dists, pairDelay, pairTxDelay, pairBw)
      {
        var node := nodes[i];
        if kind[node] == Host {
          ghost var before, delay, tx, bw := nextHop, pairDelay, pairTxDelay, pairBw;
          ghost var dis := CalculateRoute(node);
          forall h | h in dists ensures RoutesTo(Graph(), h, dists[h], nextHop) {
            RoutesKept(Graph(), node, h, dists[h], before, nextHop);
          }
          FiguresKept(Graph(), payload, node, dists, dis, delay, tx, bw, pairDelay, pairTxDelay, pairBw);
          dists := dists[node := dis];
        }
      }
    }

    // AddTableEntry, once for each next hop of `node` towards `dst`.
    method AddEntries(node: Node, dst: Node, nexts: seq<Node>)
      requires Lookup(tables, node, dst) == []
      modifies this`tables
      ensures forall v: Node, h: Node :: Lookup(tables, v, h) == if (v, h) == (node, dst) then Ports(Graph(), node, nexts) else old(Lookup(tables, v, h))
    {
      hide Put, Ports, PortOf;
      for k := 0 to |nexts|
        invariant forall v: Node, h: Node :: Lookup(tables, v, h) ==
                                 if (v, h) == (node, dst) then Ports(Graph(), node, nexts)[..k] else old(Lookup(tables, v, h))
      {
        var interface := PortOf(Graph(), node, nexts[k]);
        tables := Put(tables, node, dst, Lookup(tables, node, dst) + [interface]);
      }
    }

    method SetRoutingEntries()
      requires tables == map[]
      modifies this`tables
      ensures TablesMatch(Graph(), nextHop, tables)
    {
      hide Put, Ports;
      var rows := nextHop.Keys;
      while rows != {}
        invariant rows <= nextHop.Keys
        invariant forall v, h :: Lookup(tables, v, h) == if v in rows then [] else Ports(Graph(), v, Lookup(nextHop, v, h))
      {
        var node :| node in rows;
        var dsts := nextHop[node].Keys;
        while dsts != {}
          invariant dsts <= nextHop[node].Keys
          invariant forall v, h :: Lookup(tables, v, h) ==
                                   if v in rows && (v != node || h in dsts) then []
                                   else Ports(Graph(), v, Lookup(nextHop, v, h))
        {
          var dst :| dst in dsts;
          AddEntries(node, dst, nextHop[node][dst]);
          dsts := dsts - {dst};
        }
        rows := rows - {node};
      }
    }

    // Routes and forwarding tables from nothing: the set-up of a run, and the second half of TakeDownLink.
    method Reroute() returns (ghost dists: map<Node, map<Node, nat>>)
      requires Valid()
      modifies this`nextHop, this`pairDelay, this`pairTxDelay, this`pairBw, this`tables
      ensures AllRoutes(Graph(), dists, nextHop)
      ensures AllFigures(Graph(), payload, dists, pairDelay, pairTxDelay, pairBw)
      ensures TablesMatch(Graph(), nextHop, tables)
    {
      hide AllRoutes, AllFigures, TablesMatch;
      nextHop := map[];
      dists := CalculateRoutes();
      tables := map[];
      SetRoutingEntries();
    }

    // The event scheduled for the configured link failure.
    method TakeDownLink(a: Node, b: Node) returns (ghost dists: map<Node, map<Node, nat>>)
      requires Valid()
      modifies this
      ensures Valid()
      ensures !old(Link(Graph(), a, b)) ==>
                && Graph() == old(Graph()) && nextHop == old(nextHop) && tables == old(tables)
                && pairDelay == old(pairDelay) && pairTxDelay == old(pairTxDelay) && pairBw == old(pairBw)
      ensures old(Link(Graph(), a, b)) ==>
                && old(HasEntry(Graph(), b, a)) && Graph() == old(LinkDown(Graph(), a, b))
                && AllRoutes(Graph(), dists, nextHop)
                && AllFigures(Graph(), payload, dists, pairDelay, pairTxDelay, pairBw)
                && TablesMatch(Graph(), nextHop, tables)
    {
      hide AllRoutes, AllFigures, TablesMatch, LinkDown;
      dists := map[];
      if Link(Graph(), a, b) {
        LinkDownLinks(Graph(), a, b);
        nbr2if := LinkDown(Graph(), a, b).nbr2if;
        assert Graph() == old(LinkDown(Graph(), a, b));
        dists := Reroute();
      }
    }
  }
}
