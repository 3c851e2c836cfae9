/** The ports of the fat tree: which device of a node the reader gives to which link, from the
    order in which the generator writes its lines. */
module FatTreePorts {
  import opened Common
  import opened Network
  import opened Routing
  import opened Topology
  import opened FatTree

  // The lines with the link rate the generator writes on all of them.
  function Rated(lines: seq<(nat, nat)>, rate: nat): seq<Cable> {
    seq(|lines|, i requires 0 <= i < |lines| => Cable(lines[i].0, lines[i].1, rate))
  }

  /** The port of x towards its neighbour y. */
  function Port(g: Params, x: Place, y: Place): nat {
    match x
    case Server(_, _, _) => 1
    case Tor(_, _) => if y.Server? then 1 + y.i else if y.Agg? then g.perTor + 1 + y.l else 0
    case Agg(_, _) => if y.Tor? then 1 + y.j else if y.Core? then g.half + 1 + y.l else 0
    case Core(_, _) => if y.Agg? then 1 + y.pod else 0
  }

  // Where the generator stands: in loop nest 0, 1 or 2. In nest 0, i counts the ToRs and l its servers.
  datatype Pos = Pos(nest: nat, i: nat, j: nat, l: nat)

  predicate ValidPos(g: Params, at: Pos) {
    && at.nest <= 2
    && (if at.nest == 0 then at.i <= g.Tors() && at.j == 0 && at.l <= g.perTor && (at.l > 0 ==> at.i < g.Tors())
        else at.i <= g.K() && at.j <= g.half && at.l <= g.half && (at.j > 0 || at.l > 0 ==> at.i < g.K()) && (at.l > 0 ==> at.j < g.half))
  }

  // What it has written by then.
  function Lines(g: Params, at: Pos): seq<(nat, nat)> {
    if at.nest == 0 then ServerSeq(g, at.i, at.l)
    else if at.nest == 1 then ServerSeq(g, g.Tors(), 0) + SwitchSeq(g, false, at.i, at.j, at.l)
    else ServerSeq(g, g.Tors(), 0) + SwitchSeq(g, false, g.K(), 0, 0) + SwitchSeq(g, true, at.i, at.j, at.l)
  }

  // The position before: one line less, or the same lines with a loop ended.
  function Before(g: Params, at: Pos): Pos
    requires at != Pos(0, 0, 0, 0)
  {
    if at.l > 0 then at.(l := at.l - 1)
    else if at.j > 0 then at.(j := at.j - 1, l := g.half)
    else if at.i > 0 then if at.nest == 0 then at.(i := at.i - 1, l := g.perTor) else at.(i := at.i - 1, j := g.half)
    else Pos(at.nest - 1, if at.nest == 1 then g.Tors() else g.K(), 0, 0)
  }

  lemma BeforeIsValid(g: Params, at: Pos)
    requires ValidPos(g, at) && at != Pos(0, 0, 0, 0)
    ensures ValidPos(g, Before(g, at))
    ensures at.l > 0 ==> Lines(g, at) == Lines(g, Before(g, at)) + [LineAt(g, Before(g, at))]
    ensures at.l == 0 ==> Lines(g, at) == Lines(g, Before(g, at))
  {
    hide ServerLine, SwitchLine;
    if at.nest == 1 {
      assert ServerSeq(g, g.Tors(), 0) + [] == ServerSeq(g, g.Tors(), 0);
    } else if at.nest == 2 {
      var first := ServerSeq(g, g.Tors(), 0) + SwitchSeq(g, false, g.K(), 0, 0);
      assert first + [] == first;
    }
  }

  function LineAt(g: Params, at: Pos): (nat, nat) {
    if at.nest == 0 then ServerLine(g, at.i, at.l) else SwitchLine(g, at.nest == 2, at.i, at.j, at.l)
  }

  // A line is to be written here.
  predicate Writes(g: Params, at: Pos) {
    ValidPos(g, at) && if at.nest == 0 then at.i < g.Tors() && at.l < g.perTor else at.i < g.K() && at.j < g.half && at.l < g.half
  }

  // The ends of that line, the lower and the upper.
  function Low(g: Params, at: Pos): Place
    requires Writes(g, at)
  {
    if at.nest == 0 then HalfPositive(g); Server(at.i / g.half, at.i % g.half, at.l)
    else if at.nest == 1 then Tor(at.i, at.j) else Agg(at.i, at.j)
  }

  function High(g: Params, at: Pos): Place
    requires Writes(g, at)
  {
    if at.nest == 0 then HalfPositive(g); Tor(at.i / g.half, at.i % g.half)
    else if at.nest == 1 then Agg(at.i, at.l) else Core(at.j, at.l)
  }

  lemma HalfPositive(g: Params)
    ensures g.Tors() > 0 ==> g.half > 0
  {
  }

  lemma LineEnds(g: Params, at: Pos)
    requires Writes(g, at)
    ensures Written(g, Low(g, at), High(g, at), LineAt(g, at))
  {
    hide RowMajor;
    if at.nest == 0 {
      var pod, j := SplitIndex(g, at.i);
    }
  }

  lemma SplitHigh(g: Params, at: Pos)
    requires Writes(g, at) && at.nest == 0
    ensures var x := High(g, at); x.j < g.half && Index(g, x.pod, x.j) == at.i
  {
    hide RowMajor;
    var pod, j := SplitIndex(g, at.i);
  }

  /* How many lines end at a node. */

  // (a, b) comes before, at or after (i, j): n, l or none of the lines of a.
  function Part(a: nat, b: nat, i: nat, j: nat, n: nat, l: nat): nat {
    if a < i || (a == i && b < j) then n else if a == i && b == j then l else 0
  }

  function Degree(g: Params, at: Pos, x: Place): nat {
    match x
    case Server(pod, j, i) => if at.nest > 0 || Earlier(Index(g, pod, j), 0, i, at.i, 0, at.l) then 1 else 0
    case Tor(pod, j) =>
      if at.nest == 0 then Part(Index(g, pod, j), 0, at.i, 0, g.perTor, at.l)
      else g.perTor + if at.nest == 1 then Part(pod, j, at.i, at.j, g.half, at.l) else g.half
    case Agg(pod, l) =>
      if at.nest == 0 then 0
      else if at.nest == 1 then
        if pod < at.i then g.half else if pod == at.i then at.j + (if l < at.l then 1 else 0) else 0
      else g.half + Part(pod, l, at.i, at.j, g.half, at.l)
    case Core(j, l) => if at.nest < 2 then 0 else at.i + if Earlier(j, l, 0, at.j, at.l, 0) then 1 else 0
  }

  ghost predicate DegreeSteps(g: Params, at: Pos, x: Place)
    requires ValidPos(g, at) && at != Pos(0, 0, 0, 0)
  {
    var b := Before(g, at);
    if at.l > 0 then Writes(g, b) && Degree(g, at, x) == Degree(g, b, x) + if x == Low(g, b) || x == High(g, b) then 1 else 0
    else Degree(g, at, x) == Degree(g, b, x)
  }

  // A line adds one to the degree of its ends; ending a loop changes no degree.
  lemma DegreeStep(g: Params, at: Pos, x: Place)
    requires ValidPos(g, at) && at != Pos(0, 0, 0, 0) && InTree(g, x)
    ensures DegreeSteps(g, at, x)
  {
    hide Index;
    if at.nest == 0 {
      ServerDegreeStep(g, at, x);
    } else if x.Server? || x.Tor? {
      IndexBound(g, x.pod, x.j);
    }
  }

  lemma ServerDegreeStep(g: Params, at: Pos, x: Place)
    requires ValidPos(g, at) && at != Pos(0, 0, 0, 0) && at.nest == 0 && InTree(g, x)
    ensures DegreeSteps(g, at, x)
  {
    hide Index;
    var b := Before(g, at);
    if at.l > 0 {
      SplitHigh(g, b);
      if x.Server? || x.Tor? { SameIndex(g, x.pod, x.j, High(g, b).pod, High(g, b).j); }
    }
  }

  lemma SameIndex(g: Params, a: nat, b: nat, c: nat, d: nat)
    requires b < g.half && d < g.half
    ensures Index(g, a, b) == Index(g, c, d) <==> a == c && b == d
  {
    if Index(g, a, b) == Index(g, c, d) { RowMajorUnique(g.half, a, b, c, d); }
  }

  lemma NoneAtStart(g: Params, x: Place)
    ensures Degree(g, Pos(0, 0, 0, 0), x) == 0 && Lines(g, Pos(0, 0, 0, 0)) == []
  {
  }

  lemma RatedSnoc(lines: seq<(nat, nat)>, line: (nat, nat), rate: nat)
    ensures Rated(lines + [line], rate) == Rated(lines, rate) + [Cable(line.0, line.1, rate)]
  {
  }

  lemma IdsSame(g: Params, x: Place, y: Place)
    requires g.Valid() && InTree(g, x) && InTree(g, y)
    ensures Id(g, x) == Id(g, y) <==> x == y
  {
    hide Id;
    if Id(g, x) == Id(g, y) { IdInjective(g, x, y); }
  }

  lemma {:induction false} DegreeAt(g: Params, at: Pos, rate: nat, x: Place)
    requires g.Valid() && ValidPos(g, at) && InTree(g, x)
    ensures Ends(Rated(Lines(g, at), rate), Id(g, x)) == Degree(g, at, x)
    decreases at.nest, at.i, at.j, at.l
  {
    hide Id, Lines, Degree, LineAt, Rated, Low, High, Ends;
    if at == Pos(0, 0, 0, 0) {
      NoneAtStart(g, x);
      NothingRated(rate, Id(g, x));
    } else {
      var b := Before(g, at);
      BeforeIsValid(g, at);
      DegreeStep(g, at, x);
      DegreeAt(g, b, rate, x);
      if at.l > 0 {
        LineEnds(g, b);
        IdsSame(g, x, Low(g, b));
        IdsSame(g, x, High(g, b));
        RatedSnoc(Lines(g, b), LineAt(g, b), rate);
        InstalledNext(Rated(Lines(g, b), rate), 0, Cable(LineAt(g, b).0, LineAt(g, b).1, rate));
        LowIsNotHigh(g, b);
      }
    }
  }

  lemma NothingRated(rate: nat, v: Node)
    ensures Ends(Rated([], rate), v) == 0
  {
  }

  lemma LowIsNotHigh(g: Params, at: Pos)
    requires Writes(g, at)
    ensures Low(g, at) != High(g, at) && Below(Low(g, at), High(g, at))
  {
    LineEnds(g, at);
  }

  /* Which port a line gets. */

  // The line between x and its upper neighbour y has been written.
  predicate Laid(g: Params, at: Pos, x: Place, y: Place) {
    match x
    case Server(pod, j, i) => at.nest > 0 || Earlier(Index(g, pod, j), 0, i, at.i, 0, at.l)
    case Tor(pod, j) => at.nest > 1 || (at.nest == 1 && y.Agg? && Earlier(pod, j, y.l, at.i, at.j, at.l))
    case Agg(pod, l) => at.nest == 2 && y.Core? && Earlier(pod, l, y.l, at.i, at.j, at.l)
    case Core(_, _) => false
  }

  lemma LaidStep(g: Params, at: Pos, x: Place, y: Place)
    requires ValidPos(g, at) && at != Pos(0, 0, 0, 0) && InTree(g, x) && InTree(g, y) && Below(x, y)
    ensures var b := Before(g, at);
      if at.l > 0 then Writes(g, b) && (Laid(g, at, x, y) <==> Laid(g, b, x, y) || (x == Low(g, b) && y == High(g, b)))
      else Laid(g, at, x, y) <==> Laid(g, b, x, y)
  {
    hide RowMajor;
    var b := Before(g, at);
    if at.nest == 0 && at.l > 0 {
      SplitHigh(g, b);
      if x.Server? { SameIndex(g, x.pod, x.j, High(g, b).pod, High(g, b).j); }
    }
    if x.Server? || x.Tor? { IndexBound(g, x.pod, x.j); }
  }

  lemma NoneLaid(g: Params, x: Place, y: Place)
    ensures !Laid(g, Pos(0, 0, 0, 0), x, y)
  {
  }

  // The degrees that the ends of a line have reached with it are their ports on it.
  lemma PortIsDegree(g: Params, at: Pos)
    requires ValidPos(g, at) && at.l > 0
    ensures var b := Before(g, at);
      && Writes(g, b) && Degree(g, at, Low(g, b)) == Port(g, Low(g, b), High(g, b))
      && Degree(g, at, High(g, b)) == Port(g, High(g, b), Low(g, b))
  {
    hide Index;
    var b := Before(g, at);
    if at.nest == 0 { SplitHigh(g, b); }
  }

  predicate HasPort(o: Option<Iface>, port: nat) { o.Some? && o.value.idx == port }

  lemma {:induction false} PortAt(g: Params, at: Pos, rate: nat, delay: nat, x: Place, y: Place)
    requires g.Valid() && ValidPos(g, at) && InTree(g, x) && InTree(g, y) && Below(x, y) && Laid(g, at, x, y)
    ensures HasPort(Installed(Rated(Lines(g, at), rate), delay, Id(g, x), Id(g, y)), Port(g, x, y))
    ensures HasPort(Installed(Rated(Lines(g, at), rate), delay, Id(g, y), Id(g, x)), Port(g, y, x))
    decreases at.nest, at.i, at.j, at.l
  {
    hide Id, Lines, Degree, LineAt, Rated, Low, High, Ends, Laid, Port, Installed;
    NoneLaid(g, x, y);
    var b := Before(g, at);
    BeforeIsValid(g, at);
    LaidStep(g, at, x, y);
    if at.l > 0 {
      var low, high, line := Low(g, b), High(g, b), LineAt(g, b);
      LineEnds(g, b);
      LowIsNotHigh(g, b);
      RatedSnoc(Lines(g, b), line, rate);
      InstalledNext(Rated(Lines(g, b), rate), delay, Cable(line.0, line.1, rate));
      if x == low && y == high {
        PortIsDegree(g, at);
        DegreeAt(g, at, rate, x);
        DegreeAt(g, at, rate, y);
      } else {
        PortAt(g, b, rate, delay, x, y);
        OtherLine(g, b, x, y);
      }
    } else {
      PortAt(g, b, rate, delay, x, y);
    }
  }

  lemma OtherLine(g: Params, at: Pos, x: Place, y: Place)
    requires g.Valid() && Writes(g, at) && InTree(g, x) && InTree(g, y) && Below(x, y) && !(x == Low(g, at) && y == High(g, at))
    ensures !Joins(Cable(LineAt(g, at).0, LineAt(g, at).1, 0), Id(g, x), Id(g, y))
  {
    hide Id, LineAt, Low, High;
    LineEnds(g, at);
    LowIsNotHigh(g, at);
    var low, high := Low(g, at), High(g, at);
    IdsSame(g, x, low);
    IdsSame(g, y, high);
    IdsSame(g, x, high);
    IdsSame(g, y, low);
  }

  ghost predicate Adjacent(x: Place, y: Place) { Below(x, y) || Below(y, x) }

  /** Every port of the network read is the one the place in the tree determines. */
  ghost predicate TreePorts(g: Params, net: Net) {
    forall x, y :: InTree(g, x) && InTree(g, y) && Adjacent(x, y) ==> PortOf(net, Id(g, x), Id(g, y)) == Port(g, x, y)
  }

  lemma PortsOfTree(g: Params, net: Net, rate: nat, delay: nat)
    requires g.Valid() && LinksRead(net.nbr2if, Rated(TreeLines(g), rate), delay)
    ensures TreePorts(g, net)
  {
    hide Id, Port, InTree, TreeLines, Rated, Installed, Below;
    forall x, y | InTree(g, x) && InTree(g, y) && Adjacent(x, y) ensures PortOf(net, Id(g, x), Id(g, y)) == Port(g, x, y) {
      if Below(x, y) { PortRead(g, net, rate, delay, x, y); } else { PortRead(g, net, rate, delay, y, x); }
    }
  }

  lemma PortRead(g: Params, net: Net, rate: nat, delay: nat, x: Place, y: Place)
    requires g.Valid() && LinksRead(net.nbr2if, Rated(TreeLines(g), rate), delay)
    requires InTree(g, x) && InTree(g, y) && Below(x, y)
    ensures PortOf(net, Id(g, x), Id(g, y)) == Port(g, x, y) && PortOf(net, Id(g, y), Id(g, x)) == Port(g, y, x)
  {
    var end := Pos(2, g.K(), 0, 0);
    assert Laid(g, end, x, y);
    hide Id, Port, InTree, Rated, Installed, Below, Laid;
    PortAt(g, end, rate, delay, x, y);
    assert Cell(net.nbr2if, Id(g, x), Id(g, y)) == Installed(Rated(TreeLines(g), rate), delay, Id(g, x), Id(g, y));
    assert Cell(net.nbr2if, Id(g, y), Id(g, x)) == Installed(Rated(TreeLines(g), rate), delay, Id(g, y), Id(g, x));
  }
}
