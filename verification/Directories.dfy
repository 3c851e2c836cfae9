/** Which directory a chain of cd leads to: paths as the names between their slashes, and what
    os.path.join does to these. */
module Directories {
  import opened Common
  import opened Shell
  import opened ShellRun

  predicate Absolute(p: string) { p != "" && p[0] == '/' }

  // The pieces between slashes, the empty ones too.
  function Pieces(p: string): (ps: seq<string>)
    ensures ps != []
  {
    if p == "" then [""]
    else
      var rest := Pieces(p[1..]);
      if p[0] == '/' then [""] + rest else [[p[0]] + rest[0]] + rest[1..]
  }

  function NonEmpty(ps: seq<string>): seq<string> {
    if ps == [] then [] else (if ps[0] == "" then [] else [ps[0]]) + NonEmpty(ps[1..])
  }

  /** The names a path leads through; slashes that follow one another count as one. */
  function Names(p: string): seq<string> { NonEmpty(Pieces(p)) }

  lemma FirstPiece(ps: seq<string>, qs: seq<string>, c: string)
    requires ps != []
    ensures [c] + (ps + qs) == ([c] + ps) + qs
    ensures [c + (ps + qs)[0]] + (ps + qs)[1..] == ([c + ps[0]] + ps[1..]) + qs
  {
  }

  lemma {:induction false} PiecesJoin(a: string, b: string)
    ensures Pieces(a + "/" + b) == Pieces(a) + Pieces(b)
  {
    if a == "" {
      assert (a + "/" + b)[1..] == b;
    } else {
      PiecesJoin(a[1..], b);
      assert (a + "/" + b)[1..] == a[1..] + "/" + b && (a + "/" + b)[0] == a[0];
      FirstPiece(Pieces(a[1..]), Pieces(b), [a[0]]);
      FirstPiece(Pieces(a[1..]), Pieces(b), "");
    }
  }

  lemma Grouped(a: seq<string>, b: seq<string>, c: seq<string>)
    ensures a + (b + c) == (a + b) + c
  {
  }

  lemma {:induction false} NonEmptyJoin(a: seq<string>, b: seq<string>)
    ensures NonEmpty(a + b) == NonEmpty(a) + NonEmpty(b)
  {
    if a == [] {
      assert a + b == b;
    } else {
      NonEmptyJoin(a[1..], b);
      assert (a + b)[1..] == a[1..] + b && (a + b)[0] == a[0];
      Grouped(if a[0] == "" then [] else [a[0]], NonEmpty(a[1..]), NonEmpty(b));
    }
  }

  /** A relative directory is looked up from where one is, an absolute one from the root. */
  lemma JoinLeads(a: string, b: string)
    ensures Names(Join(a, b)) == if Absolute(b) then Names(b) else Names(a) + Names(b)
    ensures Absolute(Join(a, b)) <==> Absolute(a) || Absolute(b)
  {
    if Absolute(b) {
    } else if a == "" {
      assert Names(a) == [] && a + b == b;
    } else if a[|a|-1] == '/' {
      var front := a[..|a|-1];
      assert a == front + "/" + "" && a + b == front + "/" + b;
      NamesAround(front, "");
      NamesAround(front, b);
      assert Names("") == [];
    } else {
      NamesAround(a, b);
    }
  }

  lemma NamesAround(a: string, b: string)
    ensures Names(a + "/" + b) == Names(a) + Names(b)
  {
    PiecesJoin(a, b);
    NonEmptyJoin(Pieces(a), Pieces(b));
  }

  // The names that all cd before place k lead through, from where the program was started.
  function Led(nodes: seq<Node>, k: nat): seq<string>
    requires k <= |nodes|
  {
    if k == 0 then ["."]
    else if nodes[k - 1].Chdir? && nodes[k - 1].dir.Some? then
      var dir := nodes[k - 1].dir.value;
      (if Absolute(dir) then [] else Led(nodes, k - 1)) + Names(dir)
    else Led(nodes, k - 1)
  }

  lemma {:induction false} CwdLeads(nodes: seq<Node>, k: nat)
    requires k <= |nodes|
    ensures Names(Cwd(nodes, k)) == Led(nodes, k)
  {
    hide Names, Join;
    if k == 0 {
      DotIsItself();
    } else {
      CwdLeads(nodes, k - 1);
      if nodes[k - 1].Chdir? && nodes[k - 1].dir.Some? {
        var dir := nodes[k - 1].dir.value;
        JoinLeads(Cwd(nodes, k - 1), dir);
        assert [] + Names(dir) == Names(dir);
      }
    }
  }

  lemma DotIsItself()
    ensures Names(".") == ["."]
  {
    var dot := ".";
    assert dot[1..] == "" && [dot[0]] + "" == dot;
    assert Pieces(dot) == [dot];
    assert NonEmpty([dot]) == [dot];
  }

  /** Every command of a line is planned in the directory to which the cd before it lead, beginning
      again at the last one with an absolute path. */
  lemma CommandsLed(nodes: seq<Node>, i: nat)
    requires WellFormed(nodes) && CdsComplete(nodes) && i < |Planned(PlanOf(nodes))|
    ensures var launch := Planned(PlanOf(nodes))[i];
      launch.node < |nodes| && Names(launch.cwd) == Led(nodes, launch.node)
  {
    hide WellFormed, Names, Led, Cwd, Planned, PlanOf;
    PlanIsTheLine(nodes);
    CwdLeads(nodes, Planned(PlanOf(nodes))[i].node);
  }
}
