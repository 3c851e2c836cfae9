/** The fat-tree generator config/fat_topology_gen.py: the links it writes, read back as a
    network by the topology reader of the simulator. */
module FatTree {
  // k = 2 * half pods; `perTor` and `perPod` are the two server counts.
  datatype Params = Params(half: nat, perTor: nat, perPod: nat)
  {
    ghost predicate Valid() { perPod >= half * perTor }

    function K(): nat { 2 * half }

    // ToR switches, and as many aggregation switches.
    function Tors(): nat { half * K() }

    // First ids of the ToR, aggregation and core switches, and the number of nodes.
    function ITor(): nat { perPod * K() }
    function IAgg(): nat { ITor() + Tors() }
    function ICore(): nat { IAgg() + Tors() }
    function Nodes(): nat { ICore() + half * half }
  }

  // Where a node stands in the tree.
  datatype Place = Server(pod: nat, j: nat, i: nat) | Tor(pod: nat, j: nat) | Agg(pod: nat, l: nat) | Core(j: nat, l: nat)

  ghost predicate InTree(g: Params, x: Place) {
    match x
    case Server(pod, j, i) => pod < g.K() && j < g.half && i < g.perTor
    case Tor(pod, j) => pod < g.K() && j < g.half
    case Agg(pod, l) => pod < g.K() && l < g.half
    case Core(j, l) => j < g.half && l < g.half
  }

  // Row a of a block with n columns, column b.
  function RowMajor(a: nat, n: nat, b: nat): nat { a * n + b }

  lemma RowMajorUnique(n: nat, a: nat, b: nat, c: nat, d: nat)
    requires b < n && d < n && RowMajor(a, n, b) == RowMajor(c, n, d)
    ensures a == c && b == d
  {
    RowsApart(n, a, c);
    RowsApart(n, c, a);
  }

  lemma RowsApart(n: nat, a: nat, c: nat)
    ensures a < c ==> a * n + n <= c * n
  {
    if a < c { assert (a + 1) * n <= c * n; }
  }

  lemma RowMajorBound(n: nat, a: nat, b: nat, m: nat)
    requires b < n && a < m
    ensures RowMajor(a, n, b) < m * n
  {
    RowsApart(n, a, m);
  }

  // The number of the ToR or aggregation switch, counted through all pods.
  function Index(g: Params, pod: nat, j: nat): nat { RowMajor(pod, g.half, j) }

  function Id(g: Params, x: Place): nat {
    match x
    case Server(pod, j, i) => RowMajor(Index(g, pod, j), g.perTor, i)
    case Tor(pod, j) => g.ITor() + Index(g, pod, j)
    case Agg(pod, l) => g.IAgg() + Index(g, pod, l)
    case Core(j, l) => g.ICore() + RowMajor(j, g.half, l)
  }

  lemma IndexBound(g: Params, pod: nat, j: nat)
    requires pod < g.K() && j < g.half
    ensures Index(g, pod, j) < g.Tors()
  {
    RowMajorBound(g.half, pod, j, g.K());
  }

  lemma ServersBound(g: Params, p: nat, i: nat)
    requires g.Valid() && p < g.Tors() && i < g.perTor
    ensures RowMajor(p, g.perTor, i) < g.ITor()
  {
    RowMajorBound(g.perTor, p, i, g.Tors());
    assert (g.Tors()) * g.perTor == (g.half * g.perTor) * g.K();
    assert (g.half * g.perTor) * g.K() <= g.perPod * g.K();
  }

  // The ids of the four kinds of node lie in four disjoint ranges.
  lemma IdRange(g: Params, x: Place)
    requires g.Valid() && InTree(g, x)
    ensures match x
            case Server(_, _, _) => Id(g, x) < g.ITor()
            case Tor(_, _) => g.ITor() <= Id(g, x) < g.IAgg()
            case Agg(_, _) => g.IAgg() <= Id(g, x) < g.ICore()
            case Core(_, _) => g.ICore() <= Id(g, x) < g.Nodes()
  {
    hide RowMajor, Index;
    match x
    case Server(pod, j, i) => IndexBound(g, pod, j); ServersBound(g, Index(g, pod, j), i);
    case Tor(pod, j) => IndexBound(g, pod, j);
    case Agg(pod, l) => IndexBound(g, pod, l);
    case Core(j, l) => RowMajorBound(g.half, j, l, g.half);
  }

  lemma IdKinds(g: Params, x: Place, y: Place)
    requires g.Valid() && InTree(g, x) && InTree(g, y) && Id(g, x) == Id(g, y)
    ensures (x.Server? <==> y.Server?) && (x.Tor? <==> y.Tor?) && (x.Agg? <==> y.Agg?) && (x.Core? <==> y.Core?)
  {
    hide Id;
    IdRange(g, x);
    IdRange(g, y);
  }

  /** Different places have different ids. */
  lemma IdInjective(g: Params, x: Place, y: Place)
    requires g.Valid() && InTree(g, x) && InTree(g, y) && Id(g, x) == Id(g, y)
    ensures x == y
  {
    hide RowMajor;
    IdKinds(g, x, y);
    match x
    case Server(pod, j, i) =>
      RowMajorUnique(g.perTor, Index(g, pod, j), i, Index(g, y.pod, y.j), y.i);
      RowMajorUnique(g.half, pod, j, y.pod, y.j);
    case Tor(pod, j) => RowMajorUnique(g.half, pod, j, y.pod, y.j);
    case Agg(pod, l) => RowMajorUnique(g.half, pod, l, y.pod, y.l);
    case Core(j, l) => RowMajorUnique(g.half, j, l, y.j, y.l);
  }

  // The links of the tree, listed from the lower node to the upper.
  ghost predicate Below(x: Place, y: Place) {
    || (x.Server? && y.Tor? && x.pod == y.pod && x.j == y.j)
    || (x.Tor? && y.Agg? && x.pod == y.pod)
    || (x.Agg? && y.Core? && x.l == y.j)
  }

  ghost predicate Written(g: Params, x: Place, y: Place, line: (nat, nat)) {
    InTree(g, x) && InTree(g, y) && Below(x, y) && line == (Id(g, x), Id(g, y))
  }

  ghost predicate Joined(g: Params, u: nat, v: nat) {
    exists x, y :: Written(g, x, y, (u, v))
  }

  // The lines of a file are the links of the tree.
  ghost predicate LinesOfTree(g: Params, lines: seq<(nat, nat)>) {
    forall u: nat, v: nat :: (u, v) in lines <==> Joined(g, u, v)
  }

  // x without its fraction
  predicate WholePart(n: nat, x: real) { n as real <= x < n as real + 1.0 }

  /** The server counts of a ToR and of a pod are the whole parts of k/2 and of (k/2)^2 times the
      oversubscription, each cut by itself. */
  function ParamsOf(k: nat, oversubscript: real): (g: Params)
    requires k % 2 == 0 && oversubscript >= 0.0
    ensures g.Valid() && 2 * g.half == k
    ensures WholePart(g.perTor, k as real / 2.0 * oversubscript)
    ensures WholePart(g.perPod, k as real / 2.0 * (k as real / 2.0) * oversubscript)
  {
    var half := k / 2;
    ServerCounts(half, oversubscript);
    assert half as real == k as real / 2.0 && (half * half) as real == half as real * (half as real);
    Params(half, (half as real * oversubscript).Floor, ((half * half) as real * oversubscript).Floor)
  }

  lemma ServerCounts(half: nat, s: real)
    requires s >= 0.0
    ensures 0 <= (half as real * s).Floor && 0 <= ((half * half) as real * s).Floor
    ensures ((half * half) as real * s).Floor >= half * (half as real * s).Floor
  {
    var x := half as real * s;
    assert (half * half) as real * s == half as real * x;
    assert half as real * (x.Floor as real) <= half as real * x;
    assert half as real * (x.Floor as real) == (half * x.Floor) as real;
  }

  // The line written by the first loop nest for server i of ToR p.
  function ServerLine(g: Params, p: nat, i: nat): (nat, nat) {
    (RowMajor(p, g.perTor, i), g.ITor() + p)
  }

  // The line written by the second loop nest (ToR j to aggregation switch l of pod i) or, with
  // `upper`, by the third (aggregation switch j of pod i to core l of row j).
  function SwitchLine(g: Params, upper: bool, i: nat, j: nat, l: nat): (nat, nat) {
    if upper then (g.IAgg() + Index(g, i, j), g.ICore() + RowMajor(j, g.half, l))
    else (g.ITor() + Index(g, i, j), g.IAgg() + Index(g, i, l))
  }

  // (a, b, c) comes before (i, j, l) in the order of the loops.
  predicate Earlier(a: nat, b: nat, c: nat, i: nat, j: nat, l: nat) {
    a < i || (a == i && (b < j || (b == j && c < l)))
  }

  ghost predicate ServerLineBefore(g: Params, p: nat, i: nat, line: (nat, nat)) {
    exists a: nat, b: nat :: b < g.perTor && Earlier(a, b, 0, p, i, 0) && line == ServerLine(g, a, b)
  }

  ghost predicate SwitchLineBefore(g: Params, upper: bool, i: nat, j: nat, l: nat, line: (nat, nat)) {
    exists a: nat, b: nat, c: nat :: b < g.half && c < g.half && Earlier(a, b, c, i, j, l) && line == SwitchLine(g, upper, a, b, c)
  }

  // What the first loop nest has written when it stands at server i of ToR p.
  function ServerSeq(g: Params, p: nat, i: nat): seq<(nat, nat)>
    decreases p, i
  {
    if i > 0 then ServerSeq(g, p, i - 1) + [ServerLine(g, p, i - 1)]
    else if p > 0 then ServerSeq(g, p - 1, g.perTor)
    else []
  }

  // What the second or third has written when it stands at (i, j, l).
  function SwitchSeq(g: Params, upper: bool, i: nat, j: nat, l: nat): seq<(nat, nat)>
    decreases i, j, l
  {
    if l > 0 then SwitchSeq(g, upper, i, j, l - 1) + [SwitchLine(g, upper, i, j, l - 1)]
    else if j > 0 then SwitchSeq(g, upper, i, j - 1, g.half)
    else if i > 0 then SwitchSeq(g, upper, i - 1, g.half, 0)
    else []
  }

  // The whole file.
  function TreeLines(g: Params): seq<(nat, nat)> {
    ServerSeq(g, g.Tors(), 0) + SwitchSeq(g, false, g.K(), 0, 0) + SwitchSeq(g, true, g.K(), 0, 0)
  }

  ghost predicate HostLines(g: Params, p: nat, i: nat, lines: seq<(nat, nat)>) {
    forall line :: line in lines <==> ServerLineBefore(g, p, i, line)
  }

  lemma NoHosts(g: Params)
    ensures HostLines(g, 0, 0, [])
  {
  }

  lemma NextHost(g: Params, p: nat, i: nat, lines: seq<(nat, nat)>)
    requires i < g.perTor && HostLines(g, p, i, lines)
    ensures HostLines(g, p, i + 1, lines + [ServerLine(g, p, i)])
  {
    hide ServerLine;
  }

  lemma NextTor(g: Params, p: nat, lines: seq<(nat, nat)>)
    requires HostLines(g, p, g.perTor, lines)
    ensures HostLines(g, p + 1, 0, lines)
  {
    hide ServerLine;
  }

  method ServerLines(g: Params) returns (lines: seq<(nat, nat)>)
    ensures lines == ServerSeq(g, g.Tors(), 0)
    ensures forall line :: line in lines <==> ServerLineBefore(g, g.Tors(), 0, line)
    ensures |lines| == g.Tors() * g.perTor
  {
    hide ServerLineBefore, ServerLine;
    lines := [];
    NoHosts(g);
    for p := 0 to g.Tors()
      invariant lines == ServerSeq(g, p, 0) && HostLines(g, p, 0, lines)
      invariant |lines| == p * g.perTor
    {
      for i := 0 to g.perTor
        invariant lines == ServerSeq(g, p, i) && HostLines(g, p, i, lines)
        invariant |lines| == p * g.perTor + i
      {
        NextHost(g, p, i, lines);
        lines := lines + [ServerLine(g, p, i)];
      }
      NextTor(g, p, lines);
    }
  }

  ghost predicate LinesBefore(g: Params, upper: bool, i: nat, j: nat, l: nat, lines: seq<(nat, nat)>) {
    forall line :: line in lines <==> SwitchLineBefore(g, upper, i, j, l, line)
  }

  lemma NoLines(g: Params, upper: bool)
    ensures LinesBefore(g, upper, 0, 0, 0, [])
  {
  }

  lemma LinesNext(g: Params, upper: bool, i: nat, j: nat, l: nat, lines: seq<(nat, nat)>)
    requires j < g.half && l < g.half && LinesBefore(g, upper, i, j, l, lines)
    ensures LinesBefore(g, upper, i, j, l + 1, lines + [SwitchLine(g, upper, i, j, l)])
  {
    hide SwitchLine;
    var last := SwitchLine(g, upper, i, j, l);
    assert Earlier(i, j, l, i, j, l + 1);
    forall line ensures line in lines + [last] <==> SwitchLineBefore(g, upper, i, j, l + 1, line) {
      if SwitchLineBefore(g, upper, i, j, l + 1, line) && line != last {
        var a: nat, b: nat, c: nat :| b < g.half && c < g.half && Earlier(a, b, c, i, j, l + 1) && line == SwitchLine(g, upper, a, b, c);
        assert Earlier(a, b, c, i, j, l);
      }
      if line in lines {
        var a: nat, b: nat, c: nat :| b < g.half && c < g.half && Earlier(a, b, c, i, j, l) && line == SwitchLine(g, upper, a, b, c);
        assert Earlier(a, b, c, i, j, l + 1);
      }
    }
  }

  // A loop that has ended stands where the next turn of the one around it begins.
  lemma LinesWrap(g: Params, upper: bool, i: nat, j: nat, lines: seq<(nat, nat)>)
    ensures LinesBefore(g, upper, i, j, g.half, lines) <==> LinesBefore(g, upper, i, j + 1, 0, lines)
    ensures LinesBefore(g, upper, i, g.half, 0, lines) <==> LinesBefore(g, upper, i + 1, 0, 0, lines)
  {
    forall line ensures SwitchLineBefore(g, upper, i, j, g.half, line) <==> SwitchLineBefore(g, upper, i, j + 1, 0, line) {
      SameLine(g, upper, i, j, g.half, i, j + 1, 0, line);
    }
    forall line ensures SwitchLineBefore(g, upper, i, g.half, 0, line) <==> SwitchLineBefore(g, upper, i + 1, 0, 0, line) {
      SameLine(g, upper, i, g.half, 0, i + 1, 0, 0, line);
    }
    hide SwitchLineBefore;
  }

  lemma SameLine(g: Params, upper: bool, i: nat, j: nat, l: nat, i': nat, j': nat, l': nat, line: (nat, nat))
    requires forall a: nat, b: nat, c: nat :: b < g.half && c < g.half ==> (Earlier(a, b, c, i, j, l) <==> Earlier(a, b, c, i', j', l'))
    ensures SwitchLineBefore(g, upper, i, j, l, line) <==> SwitchLineBefore(g, upper, i', j', l', line)
  {
    hide SwitchLine, Earlier;
  }

  method SwitchLines(g: Params, upper: bool) returns (lines: seq<(nat, nat)>)
    ensures lines == SwitchSeq(g, upper, g.K(), 0, 0)
    ensures forall line :: line in lines <==> SwitchLineBefore(g, upper, g.K(), 0, 0, line)
    ensures |lines| == g.K() * (g.half * g.half)
  {
    hide SwitchLineBefore, SwitchLine;
    lines := [];
    NoLines(g, upper);
    for i := 0 to g.K()
      invariant lines == SwitchSeq(g, upper, i, 0, 0) && LinesBefore(g, upper, i, 0, 0, lines)
      invariant |lines| == i * (g.half * g.half)
    {
      for j := 0 to g.half
        invariant lines == SwitchSeq(g, upper, i, j, 0) && LinesBefore(g, upper, i, j, 0, lines)
        invariant |lines| == i * (g.half * g.half) + j * g.half
      {
        for l := 0 to g.half
          invariant lines == SwitchSeq(g, upper, i, j, l) && LinesBefore(g, upper, i, j, l, lines)
          invariant |lines| == i * (g.half * g.half) + j * g.half + l
        {
          LinesNext(g, upper, i, j, l, lines);
          lines := lines + [SwitchLine(g, upper, i, j, l)];
        }
        LinesWrap(g, upper, i, j, lines);
      }
      LinesWrap(g, upper, i, 0, lines);
    }
  }

  // Lines whose second entry is v.
  function EndsAt(lines: seq<(nat, nat)>, v: nat): nat {
    if lines == [] then 0 else EndsAt(lines[..|lines|-1], v) + if lines[|lines|-1].1 == v then 1 else 0
  }

  lemma EndsAtSnoc(lines: seq<(nat, nat)>, line: (nat, nat), v: nat)
    ensures EndsAt(lines + [line], v) == EndsAt(lines, v) + if line.1 == v then 1 else 0
  {
    assert (lines + [line])[..|lines|] == lines;
  }

  lemma {:induction false} EndsAtJoin(a: seq<(nat, nat)>, b: seq<(nat, nat)>, v: nat)
    ensures EndsAt(a + b, v) == EndsAt(a, v) + EndsAt(b, v)
  {
    if b == [] {
      assert a + b == a;
    } else {
      EndsAtJoin(a, b[..|b|-1], v);
      EndsAtSnoc(a + b[..|b|-1], b[|b|-1], v);
      assert a + b[..|b|-1] + [b[|b|-1]] == a + b;
    }
  }

  // The first loop nest has come past all servers of ToR t, or to server i, or not to it.
  lemma {:induction false} ServersAtTor(g: Params, p: nat, i: nat, t: nat)
    requires i <= g.perTor
    ensures EndsAt(ServerSeq(g, p, i), g.ITor() + t) == if t < p then g.perTor else if t == p then i else 0
    decreases p, i
  {
    hide EndsAt;
    if i > 0 {
      ServersAtTor(g, p, i - 1, t);
      EndsAtSnoc(ServerSeq(g, p, i - 1), ServerLine(g, p, i - 1), g.ITor() + t);
    } else if p > 0 {
      ServersAtTor(g, p - 1, g.perTor, t);
    } else {
      NoEnds(g.ITor() + t);
    }
  }

  lemma NoEnds(v: nat)
    ensures EndsAt([], v) == 0
  {
  }

  // The other loop nests write no line that ends at a ToR.
  lemma {:induction false} SwitchesAtTor(g: Params, upper: bool, i: nat, j: nat, l: nat, t: nat)
    requires t < g.Tors()
    ensures EndsAt(SwitchSeq(g, upper, i, j, l), g.ITor() + t) == 0
    decreases i, j, l
  {
    hide EndsAt;
    if l > 0 {
      SwitchesAtTor(g, upper, i, j, l - 1, t);
      EndsAtSnoc(SwitchSeq(g, upper, i, j, l - 1), SwitchLine(g, upper, i, j, l - 1), g.ITor() + t);
    } else if j > 0 {
      SwitchesAtTor(g, upper, i, j - 1, g.half, t);
    } else if i > 0 {
      SwitchesAtTor(g, upper, i - 1, g.half, 0, t);
    } else {
      NoEnds(g.ITor() + t);
    }
  }

  lemma HostsOfTor(g: Params, v: nat)
    requires g.ITor() <= v < g.IAgg()
    ensures EndsAt(TreeLines(g), v) == g.perTor
  {
    var t := v - g.ITor();
    ServersAtTor(g, g.Tors(), 0, t);
    SwitchesAtTor(g, false, g.K(), 0, 0, t);
    SwitchesAtTor(g, true, g.K(), 0, 0, t);
    var servers, lower, upper := ServerSeq(g, g.Tors(), 0), SwitchSeq(g, false, g.K(), 0, 0), SwitchSeq(g, true, g.K(), 0, 0);
    EndsAtJoin(servers + lower, upper, v);
    EndsAtJoin(servers, lower, v);
  }

  // Where the switches begin, where the ToRs among them end, and where all nodes do.
  lemma SwitchRange(g: Params)
    ensures g.ITor() == g.K() * g.perPod
    ensures g.IAgg() == g.K() * g.perPod + 2 * (g.half * g.half)
    ensures g.Nodes() == g.K() * g.perPod + 5 * (g.half * g.half)
  {
    assert g.Tors() == 2 * (g.half * g.half);
  }

  // To each ToR lead as many host lines as the oversubscription says.
  ghost predicate HostsPerTor(g: Params, lines: seq<(nat, nat)>, count: real) {
    forall v: nat :: 2 * g.half * g.perPod <= v < 2 * g.half * g.perPod + 2 * (g.half * g.half) ==> WholePart(EndsAt(lines, v), count)
  }

  lemma HostsOfTors(g: Params, count: real)
    requires WholePart(g.perTor, count)
    ensures HostsPerTor(g, TreeLines(g), count)
  {
    hide EndsAt, TreeLines;
    SwitchRange(g);
    forall v: nat | 2 * g.half * g.perPod <= v < 2 * g.half * g.perPod + 2 * (g.half * g.half)
      ensures WholePart(EndsAt(TreeLines(g), v), count)
    {
      HostsOfTor(g, v);
    }
  }

  lemma LinksOfFile(g: Params, lines: seq<(nat, nat)>)
    requires forall line :: line in lines <==> ServerLineBefore(g, g.Tors(), 0, line)
                                               || SwitchLineBefore(g, false, g.K(), 0, 0, line) || SwitchLineBefore(g, true, g.K(), 0, 0, line)
    ensures LinesOfTree(g, lines)
  {
    hide ServerLineBefore, SwitchLineBefore;
    forall u: nat, v: nat ensures (u, v) in lines <==> Joined(g, u, v) {
      LinesAreLinks(g, (u, v));
    }
  }

  /** The file's link lines are exactly the links of the tree, and the header counts them. The
      switches are numbered after the servers of all pods, ToRs first; the servers of a pod and the
      host lines of each ToR are k/2 squared and k/2 times the oversubscription, without fraction. */
  method Generate(k: nat, oversubscript: real) returns (g: Params, switchIds: seq<nat>, lines: seq<(nat, nat)>, numLink: nat)
    requires k % 2 == 0 && oversubscript >= 0.0
    ensures g == ParamsOf(k, oversubscript) && k == 2 * g.half
    ensures lines == TreeLines(g) && LinesOfTree(g, lines)
    ensures WholePart(g.perPod, k as real / 2.0 * (k as real / 2.0) * oversubscript)
    ensures HostsPerTor(g, lines, k as real / 2.0 * oversubscript)
    ensures forall v :: v in switchIds <==> k * g.perPod <= v < k * g.perPod + 5 * (g.half * g.half)
    ensures numLink == |lines| == g.half * k * g.perTor + 2 * (k * (g.half * g.half))
  {
    hide LinesOfTree, HostsPerTor, WholePart, ParamsOf, ServerSeq, SwitchSeq, ServerLineBefore, SwitchLineBefore;
    g := ParamsOf(k, oversubscript);
    var servers := ServerLines(g);
    var torLinks := SwitchLines(g, false);
    var coreLinks := SwitchLines(g, true);
    lines := servers + torLinks + coreLinks;
    numLink := |lines|;
    LinksOfFile(g, lines);
    HostsOfTors(g, k as real / 2.0 * oversubscript);
    switchIds := SwitchIds(g);
  }

  method SwitchIds(g: Params) returns (switchIds: seq<nat>)
    ensures forall v :: v in switchIds <==> g.K() * g.perPod <= v < g.K() * g.perPod + 5 * (g.half * g.half)
  {
    switchIds := [];
    for i := 0 to g.Nodes() - g.ITor()
      invariant forall v :: v in switchIds <==> g.ITor() <= v < g.ITor() + i
    {
      switchIds := switchIds + [i + g.ITor()];
    }
    SwitchRange(g);
  }

  lemma LinesAreLinks(g: Params, line: (nat, nat))
    ensures (ServerLineBefore(g, g.Tors(), 0, line) || SwitchLineBefore(g, false, g.K(), 0, 0, line)
             || SwitchLineBefore(g, true, g.K(), 0, 0, line))
            <==> exists x, y :: Written(g, x, y, line)
  {
    hide ServerLineBefore, SwitchLineBefore, Written;
    ServerLineIsLink(g, line);
    SwitchLineIsLink(g, false, line);
    SwitchLineIsLink(g, true, line);
    if x: Place, y: Place :| Written(g, x, y, line) {
      LinkIsLine(g, x, y, line);
    }
  }

  lemma ServerLineIsLink(g: Params, line: (nat, nat))
    ensures ServerLineBefore(g, g.Tors(), 0, line) ==> exists x, y :: Written(g, x, y, line)
  {
    if ServerLineBefore(g, g.Tors(), 0, line) {
      var p: nat, i: nat :| i < g.perTor && Earlier(p, i, 0, g.Tors(), 0, 0) && line == ServerLine(g, p, i);
      hide RowMajor, Index;
      var pod, j := SplitIndex(g, p);
      assert Written(g, Server(pod, j, i), Tor(pod, j), line);
    }
  }

  lemma SwitchLineIsLink(g: Params, upper: bool, line: (nat, nat))
    ensures SwitchLineBefore(g, upper, g.K(), 0, 0, line) ==> exists x, y :: Written(g, x, y, line)
  {
    hide RowMajor, Index;
    if SwitchLineBefore(g, upper, g.K(), 0, 0, line) {
      var i: nat, j: nat, l: nat :| j < g.half && l < g.half && Earlier(i, j, l, g.K(), 0, 0) && line == SwitchLine(g, upper, i, j, l);
      assert Written(g, if upper then Agg(i, j) else Tor(i, j), if upper then Core(j, l) else Agg(i, l), line);
    }
  }

  lemma LinkIsLine(g: Params, x: Place, y: Place, line: (nat, nat))
    requires Written(g, x, y, line)
    ensures || ServerLineBefore(g, g.Tors(), 0, line)
            || SwitchLineBefore(g, false, g.K(), 0, 0, line) || SwitchLineBefore(g, true, g.K(), 0, 0, line)
  {
    hide RowMajor, Index;
    match x
    case Server(pod, j, i) =>
      IndexBound(g, pod, j);
      var p := Index(g, pod, j);
      assert Earlier(p, i, 0, g.Tors(), 0, 0) && line == ServerLine(g, p, i);
    case Tor(pod, j) => assert Earlier(pod, j, y.l, g.K(), 0, 0) && line == SwitchLine(g, false, pod, j, y.l);
    case Agg(pod, l) => assert Earlier(pod, l, y.l, g.K(), 0, 0) && line == SwitchLine(g, true, pod, l, y.l);
    case Core(_, _) =>
  }

  lemma SplitIndex(g: Params, p: nat) returns (pod: nat, j: nat)
    requires p < g.Tors()
    ensures g.half > 0 && pod == p / g.half && j == p % g.half
    ensures pod < g.K() && j < g.half && Index(g, pod, j) == p
  {
    pod, j := p / g.half, p % g.half;
    if pod >= g.K() { RowsApart(g.half, g.K() - 1, pod); }
  }
}
