/** The language of command lines: which tokens waf-tools/shellcmd.py accepts, and what they mean,
    said without the parser. */
module ShellGrammar {
  import opened Common
  import opened Shell

  // What may stand behind the name of a command: an argument or a redirection.
  datatype Item = Word(w: string) | OutTo(file: string) | ErrTo(file: string) | ErrAsOut | InFrom(file: string)

  // A command with its assignments, as written, or a cd.
  datatype Clause = Simple(vars: seq<string>, name: string, items: seq<Item>) | Cd(dir: Option<string>)

  // How a line ends: with assignments only, a clause, or a clause and a redirection without a file.
  datatype Ending = Vars(vars: seq<string>) | Whole(clause: Clause) | Cut(clause: Clause, redirect: string)

  // Clauses with the operators behind them, and what follows the last operator.
  datatype Line = Line(clauses: seq<(Clause, Node)>, ending: Ending)

  /* How a line is written. */

  function ItemTokens(i: Item): seq<string> {
    match i
    case Word(w) => [w]
    case OutTo(file) => [">", file]
    case ErrTo(file) => ["2>", file]
    case ErrAsOut => ["2>&1"]
    case InFrom(file) => ["<", file]
  }

  function ItemsTokens(items: seq<Item>): seq<string> {
    if items == [] then [] else ItemsTokens(items[..|items|-1]) + ItemTokens(items[|items|-1])
  }

  function ClauseTokens(c: Clause): seq<string> {
    match c
    case Simple(vars, name, items) => vars + [name] + ItemsTokens(items)
    case Cd(dir) => ["cd"] + if dir.Some? then [dir.value] else []
  }

  function ClausesTokens(clauses: seq<(Clause, Node)>): seq<string> {
    if clauses == [] then []
    else
      var last := clauses[|clauses|-1];
      ClausesTokens(clauses[..|clauses|-1]) + ClauseTokens(last.0) + [Written(last.1)]
  }

  function Written(op: Node): string {
    match op case Pipe => "|" case And => "&&" case _ => "||"
  }

  function EndingTokens(e: Ending): seq<string> {
    match e
    case Vars(vars) => vars
    case Whole(clause) => ClauseTokens(clause)
    case Cut(clause, redirect) => ClauseTokens(clause) + [redirect]
  }

  function Tokens(line: Line): seq<string> { ClausesTokens(line.clauses) + EndingTokens(line.ending) }

  /* What it means. */

  function Words(items: seq<Item>): seq<string> {
    if items == [] then []
    else Words(items[..|items|-1]) + if items[|items|-1].Word? then [items[|items|-1].w] else []
  }

  // Assignments: all of them are, and a later one of the same name wins.
  predicate AllVars(vars: seq<string>) {
    forall k :: 0 <= k < |vars| ==> EnvMatch(vars[k]).Some?
  }

  function EnvOf(vars: seq<string>): map<string, string>
    requires AllVars(vars)
  {
    if vars == [] then map[]
    else
      var m := EnvMatch(vars[|vars|-1]).value;
      EnvOf(vars[..|vars|-1])[m.0 := m.1]
  }

  datatype Target = Nothing | Input | Output | Error

  function TargetOf(i: Item): Target {
    match i case Word(_) => Nothing case OutTo(_) => Output case InFrom(_) => Input case _ => Error
  }

  const SPECIAL := [">", "2>", "2>&1", "<", "|", "&&", "||"]

  // Arguments are no operators, and no two items redirect the same stream.
  predicate ItemsFit(items: seq<Item>) {
    && (forall k :: 0 <= k < |items| && items[k].Word? ==> items[k].w !in SPECIAL)
    && forall j, k :: 0 <= j < k < |items| && TargetOf(items[j]) == TargetOf(items[k]) ==> items[k].Word?
  }

  ghost predicate InputMeans(c: Command, items: seq<Item>) {
    forall file :: c.stdin == Some(file) <==> InFrom(file) in items
  }

  // The output cannot go to a file and into a pipe.
  ghost predicate OutputMeans(c: Command, items: seq<Item>, piped: bool) {
    && (forall file :: c.stdout == File(file) <==> OutTo(file) in items)
    && (c.stdout.ToPipe? <==> piped) && !c.stdout.ToStdout?
  }

  ghost predicate ErrorsMean(c: Command, items: seq<Item>) {
    && (forall file :: c.stderr == File(file) <==> ErrTo(file) in items)
    && (c.stderr.ToStdout? <==> ErrAsOut in items) && !c.stderr.ToPipe?
  }

  /** The command that assignments, a name and items make. */
  ghost predicate Means(c: Command, vars: seq<string>, name: string, items: seq<Item>, piped: bool) {
    && AllVars(vars) && c.env == EnvOf(vars)
    && name != "cd" && EnvMatch(name) == None && ItemsFit(items) && c.argv == [name] + Words(items)
    && InputMeans(c, items) && OutputMeans(c, items, piped) && ErrorsMean(c, items)
  }

  // The node a clause makes, with the operator behind it; only && can follow a cd.
  ghost predicate NodeMeans(n: Node, clause: Clause, op: Option<Node>) {
    match clause
    case Simple(vars, name, items) => n.Cmd? && Means(n.c, vars, name, items, op == Some(Pipe))
    case Cd(dir) => n == Chdir(dir) && dir != Some("&&") && (op.Some? ==> op.value == And)
  }

  ghost predicate ClausesMean(nodes: seq<Node>, clauses: seq<(Clause, Node)>) {
    && |nodes| == 2 * |clauses|
    && forall k :: 0 <= k < |clauses| ==> ClauseMeans(nodes, clauses, k)
  }

  ghost predicate ClauseMeans(nodes: seq<Node>, clauses: seq<(Clause, Node)>, k: nat)
    requires |nodes| == 2 * |clauses| && k < |clauses|
  {
    IsOp(clauses[k].1) && nodes[2 * k + 1] == clauses[k].1 && NodeMeans(nodes[2 * k], clauses[k].0, Some(clauses[k].1))
  }

  // The line ends with a clause, perhaps followed by a redirection whose file is missing, which is ignored.
  ghost predicate LineMeans(nodes: seq<Node>, line: Line) {
    && |nodes| == 2 * |line.clauses| + 1 && ClausesMean(nodes[..|nodes|-1], line.clauses)
    && match line.ending
       case Vars(_) => false
       case Whole(clause) => NodeMeans(nodes[|nodes|-1], clause, None)
       case Cut(clause, redirect) => clause.Simple? && redirect in [">", "2>", "<"] && NodeMeans(nodes[|nodes|-1], clause, None)
  }

  /* The parser's states. */

  function ModeOf(redirect: string): Mode {
    if redirect == ">" then InStdout else if redirect == "2>" then InStderr else InStdin
  }

  // The state after reading the line.
  ghost predicate StateMeans(p: Parser, line: Line) {
    && ClausesMean(p.pipeline, line.clauses)
    && match line.ending
       case Vars(vars) => p.mode == Begin && p.current == None && AllVars(vars) && p.env == EnvOf(vars)
       case Whole(clause) =>
         && p.mode == (if clause.Simple? then InCommand else InChdir) && p.env == map[]
         && p.current.Some? && NodeMeans(p.current.value, clause, None)
       case Cut(clause, redirect) =>
         && clause.Simple? && redirect in [">", "2>", "<"] && p.mode == ModeOf(redirect) && p.env == map[]
         && p.current.Some? && NodeMeans(p.current.value, clause, None)
  }

  // The command after one more item, if its stream is free.
  function WithItem(c: Command, i: Item): Command {
    match i
    case Word(w) => c.(argv := c.argv + [w])
    case OutTo(file) => c.(stdout := File(file))
    case ErrTo(file) => c.(stderr := File(file))
    case ErrAsOut => c.(stderr := ToStdout)
    case InFrom(file) => c.(stdin := Some(file))
  }

  predicate Free(c: Command, i: Item) {
    match i
    case Word(w) => w !in SPECIAL
    case OutTo(_) => c.stdout == Inherit
    case InFrom(_) => c.stdin == None
    case _ => c.stderr == Inherit
  }

  lemma WordsMore(items: seq<Item>, i: Item)
    ensures Words(items + [i]) == Words(items) + if i.Word? then [i.w] else []
    ensures forall x :: x in items + [i] <==> x in items || x == i
  {
    assert (items + [i])[..|items|] == items;
  }

  // The items fit with one more if its stream is not redirected yet.
  lemma FitsMore(items: seq<Item>, i: Item)
    ensures ItemsFit(items + [i]) <==>
              && ItemsFit(items) && (i.Word? ==> i.w !in SPECIAL)
              && forall x :: x in items && TargetOf(x) == TargetOf(i) ==> i.Word?
  {
    var all := items + [i];
    assert forall j :: 0 <= j < |items| ==> all[j] == items[j] && items[j] in items;
    assert all[|items|] == i;
  }

  lemma ItemAdded(c: Command, vars: seq<string>, name: string, items: seq<Item>, i: Item)
    requires Means(c, vars, name, items, false) && Free(c, i)
    ensures Means(WithItem(c, i), vars, name, items + [i], false)
  {
    hide EnvMatch, EnvOf, AllVars, Words, ItemsFit;
    WordsMore(items, i);
    FitsMore(items, i);
  }

  lemma ItemRemoved(c: Command, vars: seq<string>, name: string, items: seq<Item>, i: Item) returns (b: Command)
    requires Means(c, vars, name, items + [i], false)
    ensures Means(b, vars, name, items, false) && Free(b, i) && c == WithItem(b, i)
  {
    hide EnvMatch, EnvOf, AllVars, Words, ItemsFit;
    WordsMore(items, i);
    FitsMore(items, i);
    b := match i
      case Word(_) => c.(argv := [name] + Words(items))
      case OutTo(_) => c.(stdout := Inherit)
      case InFrom(_) => c.(stdin := None)
      case _ => c.(stderr := Inherit);
  }

  lemma KindsAre(token: string)
    ensures KindOf(token).Plain? <==> token !in SPECIAL
    ensures KindOf(token) == Out <==> token == ">"
    ensures KindOf(token) == Err <==> token == "2>"
    ensures KindOf(token) == ErrToOut <==> token == "2>&1"
    ensures KindOf(token) == In <==> token == "<"
    ensures KindOf(token) == Bar <==> token == "|"
    ensures KindOf(token) == AndAnd <==> token == "&&"
    ensures KindOf(token) == OrOr <==> token == "||"
  {
    assert SPECIAL[0] == ">" && SPECIAL[1] == "2>" && SPECIAL[2] == "2>&1" && SPECIAL[3] == "<";
    assert SPECIAL[4] == "|" && SPECIAL[5] == "&&" && SPECIAL[6] == "||";
  }

  lemma ClauseAdded(nodes: seq<Node>, clauses: seq<(Clause, Node)>, n: Node, clause: Clause, op: Node)
    requires ClausesMean(nodes, clauses) && NodeMeans(n, clause, Some(op)) && IsOp(op)
    ensures ClausesMean(nodes + [n, op], clauses + [(clause, op)])
  {
    hide NodeMeans, IsOp;
    var more, all := clauses + [(clause, op)], nodes + [n, op];
    forall k | 0 <= k < |more| ensures ClauseMeans(all, more, k) {
      if k < |clauses| { assert ClauseMeans(nodes, clauses, k); }
    }
  }

  lemma ClauseRemoved(nodes: seq<Node>, clauses: seq<(Clause, Node)>)
    requires ClausesMean(nodes, clauses) && clauses != []
    ensures var n, last := |nodes| - 2, clauses[|clauses|-1];
      && n >= 0 && ClausesMean(nodes[..n], clauses[..|clauses|-1])
      && NodeMeans(nodes[n], last.0, Some(last.1)) && IsOp(last.1) && nodes[n + 1] == last.1
  {
    hide NodeMeans, IsOp;
    var front, rest := clauses[..|clauses|-1], nodes[..|nodes|-2];
    assert ClauseMeans(nodes, clauses, |clauses| - 1);
    forall k | 0 <= k < |front| ensures ClauseMeans(rest, front, k) {
      assert ClauseMeans(nodes, clauses, k);
    }
  }

  // The tokens of a line, one clause, item or assignment more.
  lemma TokensMore(line: Line, clause: Clause, op: Node)
    requires line.ending == Whole(clause)
    ensures Tokens(Line(line.clauses + [(clause, op)], Vars([]))) == Tokens(line) + [Written(op)]
  {
    assert (line.clauses + [(clause, op)])[..|line.clauses|] == line.clauses;
  }

  lemma ItemsMore(vars: seq<string>, name: string, items: seq<Item>, i: Item)
    ensures ClauseTokens(Simple(vars, name, items + [i])) == ClauseTokens(Simple(vars, name, items)) + ItemTokens(i)
  {
    assert (items + [i])[..|items|] == items;
  }

  lemma EnvMore(vars: seq<string>, token: string)
    requires AllVars(vars) && EnvMatch(token).Some?
    ensures AllVars(vars + [token])
    ensures EnvOf(vars + [token]) == EnvOf(vars)[EnvMatch(token).value.0 := EnvMatch(token).value.1]
  {
    hide EnvMatch;
    assert (vars + [token])[..|vars|] == vars;
  }

  lemma EndMore(line: Line, e: Ending, token: string)
    requires EndingTokens(e) == EndingTokens(line.ending) + [token]
    ensures Tokens(Line(line.clauses, e)) == Tokens(line) + [token]
  {
    hide EndingTokens, ClausesTokens;
  }

  lemma SomeEnv(vars: seq<string>)
    requires AllVars(vars) && vars != []
    ensures EnvOf(vars) != map[]
  {
    hide EnvMatch;
    assert EnvMatch(vars[|vars|-1]).value.0 in EnvOf(vars);
  }

  lemma NamedClause(vars: seq<string>, name: string)
    ensures ClauseTokens(Simple(vars, name, [])) == vars + [name]
  {
  }

  /* From a state and a token to the next. */

  lemma PushBegin(p: Parser, line: Line, token: string) returns (more: Line)
    requires StateMeans(p, line) && line.ending.Vars? && Shaped(p) && Step(p, token).mode != Stopped
    ensures StateMeans(Step(p, token), more) && Tokens(more) == Tokens(line) + [token]
  {
    hide EnvMatch, ClausesMean, Tokens;
    var vars := line.ending.vars;
    if EnvMatch(token).Some? {
      EnvMore(vars, token);
      more := Line(line.clauses, Vars(vars + [token]));
    } else if token == "cd" {
      assert vars == [] by { if vars != [] { SomeEnv(vars); } }
      more := Line(line.clauses, Whole(Cd(None)));
    } else {
      NamedClause(vars, token);
      more := Line(line.clauses, Whole(Simple(vars, token, [])));
    }
    EndMore(line, more.ending, token);
  }

  lemma PushOp(p: Parser, line: Line, n: Node, op: Node) returns (more: Line)
    requires ClausesMean(p.pipeline, line.clauses) && line.ending.Whole? && p.env == map[]
    requires NodeMeans(n, line.ending.clause, Some(op)) && IsOp(op)
    ensures StateMeans(Commit(p.(current := Some(n)), op), more) && Tokens(more) == Tokens(line) + [Written(op)]
  {
    hide ClausesMean, NodeMeans, Tokens;
    ClauseAdded(p.pipeline, line.clauses, n, line.ending.clause, op);
    more := Line(line.clauses + [(line.ending.clause, op)], Vars([]));
    TokensMore(line, line.ending.clause, op);
  }

  lemma Piped(c: Command, vars: seq<string>, name: string, items: seq<Item>)
    requires Means(c, vars, name, items, false) && c.stdout == Inherit
    ensures Means(c.(stdout := ToPipe), vars, name, items, true)
  {
    hide EnvMatch;
  }

  lemma PushItem(p: Parser, line: Line, i: Item) returns (more: Line)
    requires StateMeans(p, line) && line.ending.Whole? && line.ending.clause.Simple? && Free(p.current.value.c, i)
    ensures StateMeans(p.(current := Some(Cmd(WithItem(p.current.value.c, i)))), more)
    ensures more.clauses == line.clauses && EndingTokens(more.ending) == EndingTokens(line.ending) + ItemTokens(i)
  {
    hide EnvMatch, ClausesMean, Means, WithItem, Free;
    var clause := line.ending.clause;
    ItemAdded(p.current.value.c, clause.vars, clause.name, clause.items, i);
    ItemsMore(clause.vars, clause.name, clause.items, i);
    more := Line(line.clauses, Whole(Simple(clause.vars, clause.name, clause.items + [i])));
  }

  lemma PushOperator(p: Parser, line: Line, token: string) returns (more: Line)
    requires StateMeans(p, line) && p.mode == InCommand && Shaped(p) && Step(p, token).mode != Stopped
    requires token in ["|", "&&", "||"]
    ensures StateMeans(Step(p, token), more) && Tokens(more) == Tokens(line) + [token]
  {
    hide EnvMatch, ClausesMean, Means, Tokens, KindOf;
    KindsAre(token);
    var clause, c := line.ending.clause, p.current.value.c;
    if token == "|" {
      Piped(c, clause.vars, clause.name, clause.items);
      more := PushOp(p, line, Cmd(c.(stdout := ToPipe)), Pipe);
    } else {
      more := PushOp(p, line, Cmd(c), if token == "&&" then And else Or);
    }
  }

  lemma PushCommand(p: Parser, line: Line, token: string) returns (more: Line)
    requires StateMeans(p, line) && p.mode == InCommand && Shaped(p) && Step(p, token).mode != Stopped
    ensures StateMeans(Step(p, token), more) && Tokens(more) == Tokens(line) + [token]
  {
    hide EnvMatch, ClausesMean, Means, Tokens, KindOf;
    KindsAre(token);
    if token in ["|", "&&", "||"] {
      more := PushOperator(p, line, token);
    } else if KindOf(token).Plain? || KindOf(token).ErrToOut? {
      more := PushItem(p, line, if token == "2>&1" then ErrAsOut else Word(token));
      EndMore(line, more.ending, token);
    } else {
      more := Line(line.clauses, Cut(line.ending.clause, token));
      EndMore(line, more.ending, token);
    }
  }

  lemma PushChdir(p: Parser, line: Line, token: string) returns (more: Line)
    requires StateMeans(p, line) && p.mode == InChdir && Shaped(p) && Step(p, token).mode != Stopped
    ensures StateMeans(Step(p, token), more) && Tokens(more) == Tokens(line) + [token]
  {
    hide ClausesMean, Tokens;
    if token == "&&" {
      more := PushOp(p, line, p.current.value, And);
    } else {
      more := Line(line.clauses, Whole(Cd(Some(token))));
      EndMore(line, more.ending, token);
    }
  }

  // The item that a redirection and a file make.
  function Redirected(redirect: string, file: string): Item {
    if redirect == ">" then OutTo(file) else if redirect == "2>" then ErrTo(file) else InFrom(file)
  }

  lemma PushFile(p: Parser, line: Line, token: string) returns (more: Line)
    requires StateMeans(p, line) && line.ending.Cut? && Shaped(p) && Step(p, token).mode != Stopped
    ensures StateMeans(Step(p, token), more) && Tokens(more) == Tokens(line) + [token]
  {
    hide EnvMatch, ClausesMean, Means, Tokens;
    var clause, redirect := line.ending.clause, line.ending.redirect;
    var q := p.(mode := InCommand);
    more := PushItem(q, Line(line.clauses, Whole(clause)), Redirected(redirect, token));
    FileTokens(clause, redirect, token);
    EndMore(line, more.ending, token);
  }

  lemma FileTokens(clause: Clause, redirect: string, file: string)
    requires redirect in [">", "2>", "<"]
    ensures ItemTokens(Redirected(redirect, file)) == [redirect, file]
    ensures ClauseTokens(clause) + [redirect, file] == ClauseTokens(clause) + [redirect] + [file]
  {
  }

  lemma Push(p: Parser, line: Line, token: string) returns (more: Line)
    requires StateMeans(p, line) && Shaped(p) && Step(p, token).mode != Stopped
    ensures StateMeans(Step(p, token), more) && Tokens(more) == Tokens(line) + [token]
  {
    hide EnvMatch, ClausesMean, Means, Tokens, Step;
    match line.ending
    case Vars(_) => more := PushBegin(p, line, token);
    case Whole(clause) => if clause.Simple? { more := PushCommand(p, line, token); } else { more := PushChdir(p, line, token); }
    case Cut(_, _) => more := PushFile(p, line, token);
  }

  lemma {:induction false} ReadMeans(tokens: seq<string>) returns (line: Line)
    requires Feed(FRESH, tokens).mode != Stopped
    ensures StateMeans(Feed(FRESH, tokens), line) && Tokens(line) == tokens
  {
    if tokens == [] {
      line := Line([], Vars([]));
    } else {
      var init, last := tokens[..|tokens|-1], tokens[|tokens|-1];
      assert tokens == init + [last];
      FeedMore(FRESH, init, [last]);
      FeedOne(Feed(FRESH, init), last);
      hide StateMeans, Tokens;
      var before := ReadMeans(init);
      line := Push(Feed(FRESH, init), before, last);
    }
  }

  /* From a state back to the one before, and its last token. */

  lemma Unpiped(c: Command, vars: seq<string>, name: string, items: seq<Item>)
    requires Means(c, vars, name, items, true)
    ensures Means(c.(stdout := Inherit), vars, name, items, false) && c == c.(stdout := Inherit).(stdout := ToPipe)
  {
    hide EnvMatch;
  }

  lemma PopOp(p: Parser, line: Line) returns (q: Parser, less: Line, token: string)
    requires StateMeans(p, line) && line.ending == Vars([]) && line.clauses != []
    ensures StateMeans(q, less) && Shaped(q) && Step(q, token) == p && Tokens(line) == Tokens(less) + [token]
  {
    hide EnvMatch, ClausesMean, Means, Tokens, KindOf;
    ClauseRemoved(p.pipeline, line.clauses);
    var last, at := line.clauses[|line.clauses|-1], |p.pipeline| - 2;
    var n, op := p.pipeline[at], last.1;
    assert p.pipeline == p.pipeline[..at] + [n, op];
    assert line.clauses == line.clauses[..|line.clauses|-1] + [last];
    less, token := Line(line.clauses[..|line.clauses|-1], Whole(last.0)), Written(op);
    TokensMore(less, last.0, op);
    KindsAre(token);
    if last.0.Simple? {
      var c := if op == Pipe then n.c.(stdout := Inherit) else n.c;
      if op == Pipe { Unpiped(n.c, last.0.vars, last.0.name, last.0.items); }
      q := Parser(InCommand, Some(Cmd(c)), map[], p.pipeline[..at]);
    } else {
      q := Parser(InChdir, Some(n), map[], p.pipeline[..at]);
    }
  }

  lemma PopVar(p: Parser, line: Line) returns (q: Parser, less: Line, token: string)
    requires StateMeans(p, line) && line.ending.Vars? && line.ending.vars != []
    ensures StateMeans(q, less) && Shaped(q) && Step(q, token) == p && Tokens(line) == Tokens(less) + [token]
  {
    hide EnvMatch, ClausesMean, Tokens;
    var vars := line.ending.vars;
    var front := vars[..|vars|-1];
    token := vars[|vars|-1];
    assert vars == front + [token] && AllVars(front);
    EnvMore(front, token);
    less, q := Line(line.clauses, Vars(front)), p.(env := EnvOf(front));
    EndMore(less, line.ending, token);
  }

  lemma Bare(c: Command, vars: seq<string>, name: string)
    requires Means(c, vars, name, [], false)
    ensures c == Command([name], None, Inherit, Inherit, EnvOf(vars))
  {
    hide EnvMatch;
  }

  lemma PopName(p: Parser, line: Line) returns (q: Parser, less: Line, token: string)
    requires StateMeans(p, line) && line.ending.Whole? && line.ending.clause.Simple? && line.ending.clause.items == []
    ensures StateMeans(q, less) && Shaped(q) && Step(q, token) == p && Tokens(line) == Tokens(less) + [token]
  {
    hide EnvMatch, ClausesMean, Tokens;
    var clause := line.ending.clause;
    token := clause.name;
    less, q := Line(line.clauses, Vars(clause.vars)), Parser(Begin, None, EnvOf(clause.vars), p.pipeline);
    Bare(p.current.value.c, clause.vars, token);
    NamedClause(clause.vars, token);
    EndMore(less, line.ending, token);
  }

  // An item of one token.
  lemma PopWord(p: Parser, line: Line, b: Command, items: seq<Item>, i: Item) returns (q: Parser, less: Line, token: string)
    requires StateMeans(p, line) && line.ending.Whole? && line.ending.clause.Simple? && line.ending.clause.items == items + [i]
    requires Means(b, line.ending.clause.vars, line.ending.clause.name, items, false)
    requires Free(b, i) && p.current.value.c == WithItem(b, i) && (i.Word? || i.ErrAsOut?)
    ensures StateMeans(q, less) && Shaped(q) && Step(q, token) == p && Tokens(line) == Tokens(less) + [token]
  {
    hide EnvMatch, ClausesMean, Means, Tokens, KindOf;
    var clause := line.ending.clause;
    ItemsMore(clause.vars, clause.name, items, i);
    token := if i.Word? then i.w else "2>&1";
    less, q := Line(line.clauses, Whole(Simple(clause.vars, clause.name, items))), p.(current := Some(Cmd(b)));
    KindsAre(token);
    EndMore(less, line.ending, token);
  }

  // An item of two.
  lemma PopFile(p: Parser, line: Line, b: Command, items: seq<Item>, i: Item) returns (q: Parser, less: Line, token: string)
    requires StateMeans(p, line) && line.ending.Whole? && line.ending.clause.Simple? && line.ending.clause.items == items + [i]
    requires Means(b, line.ending.clause.vars, line.ending.clause.name, items, false)
    requires Free(b, i) && p.current.value.c == WithItem(b, i) && (i.OutTo? || i.ErrTo? || i.InFrom?)
    ensures StateMeans(q, less) && Shaped(q) && Step(q, token) == p && Tokens(line) == Tokens(less) + [token]
  {
    hide EnvMatch, ClausesMean, Means, Tokens, KindOf;
    var clause := line.ending.clause;
    ItemsMore(clause.vars, clause.name, items, i);
    var before, redirect := Simple(clause.vars, clause.name, items), if i.OutTo? then ">" else if i.ErrTo? then "2>" else "<";
    token := i.file;
    less, q := Line(line.clauses, Cut(before, redirect)), p.(current := Some(Cmd(b)), mode := ModeOf(redirect));
    FileTokens(before, redirect, token);
    EndMore(less, line.ending, token);
  }

  lemma PopItem(p: Parser, line: Line) returns (q: Parser, less: Line, token: string)
    requires StateMeans(p, line) && line.ending.Whole? && line.ending.clause.Simple? && line.ending.clause.items != []
    ensures StateMeans(q, less) && Shaped(q) && Step(q, token) == p && Tokens(line) == Tokens(less) + [token]
  {
    hide EnvMatch, ClausesMean, Means, Tokens, Step, WithItem, Free;
    var clause := line.ending.clause;
    var items, i := clause.items[..|clause.items|-1], clause.items[|clause.items|-1];
    assert clause.items == items + [i];
    var b := ItemRemoved(p.current.value.c, clause.vars, clause.name, items, i);
    if i.Word? || i.ErrAsOut? { q, less, token := PopWord(p, line, b, items, i); } else { q, less, token := PopFile(p, line, b, items, i); }
  }

  lemma CdIsNoVar()
    ensures EnvMatch("cd") == None
  {
    var cd := "cd";
    assert cd[0] != '=' && cd[1] != '=';
  }

  lemma PopChdir(p: Parser, line: Line) returns (q: Parser, less: Line, token: string)
    requires StateMeans(p, line) && line.ending.Whole? && line.ending.clause.Cd?
    ensures StateMeans(q, less) && Shaped(q) && Step(q, token) == p && Tokens(line) == Tokens(less) + [token]
  {
    CdIsNoVar();
    hide EnvMatch, ClausesMean, Tokens;
    var dir := line.ending.clause.dir;
    if dir == None {
      token, less, q := "cd", Line(line.clauses, Vars([])), Parser(Begin, None, map[], p.pipeline);
    } else {
      token, less, q := dir.value, Line(line.clauses, Whole(Cd(None))), p.(current := Some(Chdir(None)));
    }
    EndMore(less, line.ending, token);
  }

  lemma PopRedirect(p: Parser, line: Line) returns (q: Parser, less: Line, token: string)
    requires StateMeans(p, line) && line.ending.Cut?
    ensures StateMeans(q, less) && Shaped(q) && Step(q, token) == p && Tokens(line) == Tokens(less) + [token]
  {
    hide EnvMatch, ClausesMean, Means, Tokens, KindOf;
    token := line.ending.redirect;
    KindsAre(token);
    less, q := Line(line.clauses, Whole(line.ending.clause)), p.(mode := InCommand);
    EndMore(less, line.ending, token);
  }

  lemma Pop(p: Parser, line: Line) returns (q: Parser, less: Line, token: string)
    requires StateMeans(p, line) && line != Line([], Vars([]))
    ensures StateMeans(q, less) && Shaped(q) && Step(q, token) == p && Tokens(line) == Tokens(less) + [token]
  {
    hide EnvMatch, ClausesMean, Means, Tokens, Step;
    match line.ending
    case Vars(vars) => if vars == [] { q, less, token := PopOp(p, line); } else { q, less, token := PopVar(p, line); }
    case Whole(clause) =>
      if clause.Cd? { q, less, token := PopChdir(p, line); }
      else if clause.items == [] { q, less, token := PopName(p, line); }
      else { q, less, token := PopItem(p, line); }
    case Cut(_, _) => q, less, token := PopRedirect(p, line);
  }

  // The parser comes to every state that means the line it has read.
  lemma {:induction false} MeantIsRead(p: Parser, line: Line)
    requires StateMeans(p, line)
    ensures Feed(FRESH, Tokens(line)) == p
    decreases |Tokens(line)|
  {
    if line == Line([], Vars([])) {
      assert p == FRESH && Tokens(line) == [];
    } else {
      hide StateMeans, Tokens, Step;
      var q, less, token := Pop(p, line);
      MeantIsRead(q, less);
      FeedMore(FRESH, Tokens(less), [token]);
      FeedOne(q, token);
    }
  }

  /** The tokens that are accepted are exactly those of a line, and what they are parsed to is what
      the line means: assignments, a name, and arguments and redirections in any order, each stream
      redirected at most once; or a cd, with at most one directory and only && behind it. */
  lemma ParsesIffLine(tokens: seq<string>, nodes: seq<Node>)
    ensures Parse(tokens) == Some(nodes) <==> exists line :: Tokens(line) == tokens && LineMeans(nodes, line)
  {
    hide EnvMatch, ClausesMean, NodeMeans, Tokens, Step;
    var p := Feed(FRESH, tokens);
    if Parse(tokens) == Some(nodes) {
      var line := ReadMeans(tokens);
      assert nodes == p.pipeline + [p.current.value] && nodes[..|nodes|-1] == p.pipeline;
      assert |p.pipeline| == 2 * |line.clauses| by { PipelineLength(p.pipeline, line.clauses); }
      assert LineMeans(nodes, line);
    }
    if line :| Tokens(line) == tokens && LineMeans(nodes, line) {
      var n := |nodes| - 1;
      var clause := line.ending.clause;
      var mode := if line.ending.Cut? then ModeOf(line.ending.redirect) else if clause.Simple? then InCommand else InChdir;
      MeantIsRead(Parser(mode, Some(nodes[n]), map[], nodes[..n]), line);
      assert nodes == nodes[..n] + [nodes[n]];
    }
  }

  lemma PipelineLength(nodes: seq<Node>, clauses: seq<(Clause, Node)>)
    requires ClausesMean(nodes, clauses)
    ensures |nodes| == 2 * |clauses|
  {
  }
}
