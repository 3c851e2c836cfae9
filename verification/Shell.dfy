/** The command lines of waf-tools/shellcmd.py: the tokens of a line are parsed into commands
    joined by |, && and ||, and written back. */
module Shell {
  import opened Common

  // Where an output stream goes: nowhere special, into the next command, to standard output, to a file.
  datatype Stream = Inherit | ToPipe | ToStdout | File(name: string)

  // argv[0] is the name of the command.
  datatype Command = Command(argv: seq<string>, stdin: Option<string>, stdout: Stream, stderr: Stream, env: map<string, string>)

  datatype Node = Cmd(c: Command) | Chdir(dir: Option<string>) | Pipe | And | Or

  predicate IsOp(n: Node) { n.Pipe? || n.And? || n.Or? }

  /* Tokens. */

  datatype Kind = Out | Err | ErrToOut | In | Bar | AndAnd | OrOr | Plain

  function KindOf(token: string): Kind {
    if token == ">" then Out
    else if token == "2>" then Err
    else if token == "2>&1" then ErrToOut
    else if token == "<" then In
    else if token == "|" then Bar
    else if token == "&&" then AndAnd
    else if token == "||" then OrOr
    else Plain
  }

  predicate NameChar(c: char) { 'a' <= c <= 'z' || 'A' <= c <= 'Z' || '0' <= c <= '9' || c == '_' }

  predicate Space(c: char) { c == ' ' || c == '\t' || c == '\n' || c == '\r' || c == 11 as char || c == 12 as char }

  predicate EnvName(s: string) { s != "" && forall i :: 0 <= i < |s| ==> NameChar(s[i]) }

  predicate EnvValue(s: string) { s != "" && forall i :: 0 <= i < |s| ==> !Space(s[i]) }

  // Index of the first c, or the length.
  function Find(s: string, c: char): (k: nat)
    ensures k <= |s| && (k < |s| ==> s[k] == c) && forall i :: 0 <= i < k ==> s[i] != c
  {
    if s == "" || s[0] == c then 0
    else
      var k := Find(s[1..], c);
      assert forall i :: 1 <= i <= k ==> s[i] == s[1..][i - 1];
      k + 1
  }

  // An assignment NAME=VALUE; the pattern's $ also matches before a final newline.
  function EnvMatch(token: string): Option<(string, string)> {
    var k := Find(token, '=');
    if k == |token| || !EnvName(token[..k]) then None
    else
      var rest := token[k + 1..];
      var value := if rest != "" && rest[|rest|-1] == '\n' then rest[..|rest|-1] else rest;
      if EnvValue(value) then Some((token[..k], value)) else None
  }

  function Assignment(name: string, value: string): string { name + "=" + value }

  // The ASCII codes of letters, digits and the underscore, and of white space.
  predicate NameCode(n: int) { 65 <= n < 65 + 26 || 97 <= n < 97 + 26 || 48 <= n < 48 + 10 || n == 95 }

  predicate SpaceCode(n: int) { n == 32 || 9 <= n <= 13 }

  // name=value, with nothing behind it but perhaps a newline.
  ghost predicate IsVariable(token: string, name: string, value: string) {
    && name != "" && (forall c :: c in name ==> NameCode(c as int))
    && value != "" && (forall c :: c in value ==> !SpaceCode(c as int))
    && (token == name + "=" + value || token == name + "=" + value + "\n")
  }

  lemma CodeOf(c: char)
    ensures NameChar(c) <==> NameCode(c as int)
    ensures Space(c) <==> SpaceCode(c as int)
  {
  }

  lemma PartsAre(name: string, value: string)
    ensures EnvName(name) <==> name != "" && forall c :: c in name ==> NameCode(c as int)
    ensures EnvValue(value) <==> value != "" && forall c :: c in value ==> !SpaceCode(c as int)
  {
    hide NameChar, Space, NameCode, SpaceCode;
    forall i | 0 <= i < |name| ensures NameChar(name[i]) <==> NameCode(name[i] as int) { CodeOf(name[i]); }
    forall i | 0 <= i < |value| ensures Space(value[i]) <==> SpaceCode(value[i] as int) { CodeOf(value[i]); }
    assert forall i :: 0 <= i < |name| ==> name[i] in name;
    assert forall i :: 0 <= i < |value| ==> value[i] in value;
  }

  lemma NoEquals(name: string)
    requires EnvName(name)
    ensures forall i :: 0 <= i < |name| ==> name[i] != '='
  {
  }

  lemma FindAt(name: string, rest: string)
    requires forall i :: 0 <= i < |name| ==> name[i] != '='
    ensures var token := name + "=" + rest;
      Find(token, '=') == |name| && token[..|name|] == name && token[|name| + 1..] == rest
  {
    var token := name + "=" + rest;
    assert token[|name|] == '=' && forall i :: 0 <= i < |name| ==> token[i] == name[i];
  }

  lemma VariableMatches(token: string, name: string, value: string)
    requires EnvName(name) && EnvValue(value) && (token == name + "=" + value || token == name + "=" + value + "\n")
    ensures EnvMatch(token) == Some((name, value))
  {
    NoEquals(name);
    var rest := if token == name + "=" + value then value else value + "\n";
    assert token == name + "=" + rest;
    FindAt(name, rest);
    assert value[|value|-1] != '\n' by { assert !Space(value[|value|-1]); }
    hide EnvName, EnvValue, Find;
    assert rest == value + "\n" ==> rest[..|rest|-1] == value;
  }

  lemma MatchIsVariable(token: string)
    requires EnvMatch(token).Some?
    ensures var (name, value) := EnvMatch(token).value;
      && EnvName(name) && EnvValue(value) && (token == name + "=" + value || token == name + "=" + value + "\n")
  {
    hide EnvName, EnvValue;
    var k := Find(token, '=');
    var rest, value := token[k + 1..], EnvMatch(token).value.1;
    assert token == token[..k] + "=" + rest;
    assert rest != value ==> rest == value + "\n";
  }

  /** The pattern matches exactly the tokens NAME=VALUE, and gives back both parts. */
  lemma EnvMatchIs(token: string, name: string, value: string)
    ensures EnvMatch(token) == Some((name, value)) <==> IsVariable(token, name, value)
  {
    PartsAre(name, value);
    hide EnvName, EnvValue, EnvMatch;
    if IsVariable(token, name, value) { VariableMatches(token, name, value); }
    if EnvMatch(token) == Some((name, value)) { MatchIsVariable(token); }
  }

  /* The parser, one token at a time. */

  // Stopped: an assertion has failed.
  datatype Mode = Begin | InCommand | InChdir | InStderr | InStdout | InStdin | Stopped

  datatype Parser = Parser(mode: Mode, current: Option<Node>, env: map<string, string>, pipeline: seq<Node>)

  const FRESH := Parser(Begin, None, map[], [])

  // The command under way fits the mode.
  predicate Shaped(p: Parser) {
    match p.mode
    case Begin => p.current == None
    case InChdir => p.current.Some? && p.current.value.Chdir? && p.env == map[]
    case Stopped => true
    case _ => p.current.Some? && p.current.value.Cmd? && p.env == map[]
  }

  function Stop(p: Parser): Parser { p.(mode := Stopped) }

  function Commit(p: Parser, op: Node): Parser
    requires p.current.Some?
  {
    p.(pipeline := p.pipeline + [p.current.value, op], current := None, mode := Begin)
  }

  function InBegin(p: Parser, token: string): Parser {
    var m := EnvMatch(token);
    if m.Some? then p.(env := p.env[m.value.0 := m.value.1])
    else if token == "cd" then
      var q := p.(current := Some(Chdir(None)));
      if p.env == map[] then q.(mode := InChdir) else Stop(q)
    else Parser(InCommand, Some(Cmd(Command([token], None, Inherit, Inherit, p.env))), map[], p.pipeline)
  }

  function AfterCommand(p: Parser, c: Command, token: string): Parser
    requires p.current.Some?
  {
    match KindOf(token)
    case Out => p.(mode := InStdout)
    case Err => p.(mode := InStderr)
    case ErrToOut => if c.stderr == Inherit then p.(current := Some(Cmd(c.(stderr := ToStdout)))) else Stop(p)
    case In => p.(mode := InStdin)
    case Bar => if c.stdout == Inherit then Commit(p.(current := Some(Cmd(c.(stdout := ToPipe)))), Pipe) else Stop(p)
    case AndAnd => Commit(p, And)
    case OrOr => Commit(p, Or)
    case Plain => p.(current := Some(Cmd(c.(argv := c.argv + [token]))))
  }

  function Step(p: Parser, token: string): (q: Parser)
    requires Shaped(p)
    ensures Shaped(q)
  {
    match p.mode
    case Begin => InBegin(p, token)
    case InCommand => AfterCommand(p, p.current.value.c, token)
    case InChdir =>
      if token == "&&" then Commit(p, And)
      else if p.current.value.dir == None then p.(current := Some(Chdir(Some(token))))
      else Stop(p)
    case InStdout =>
      var c := p.current.value.c;
      if c.stdout == Inherit then p.(current := Some(Cmd(c.(stdout := File(token)))), mode := InCommand) else Stop(p)
    case InStderr =>
      var c := p.current.value.c;
      if c.stderr == Inherit then p.(current := Some(Cmd(c.(stderr := File(token)))), mode := InCommand) else Stop(p)
    case InStdin =>
      var c := p.current.value.c;
      if c.stdin == None then p.(current := Some(Cmd(c.(stdin := Some(token)))), mode := InCommand) else Stop(p)
    case Stopped => p
  }

  function Feed(p: Parser, tokens: seq<string>): (q: Parser)
    requires Shaped(p)
    ensures Shaped(q)
    decreases |tokens|
  {
    if tokens == [] then p else Feed(Step(p, tokens[0]), tokens[1..])
  }

  // The last command is committed at the end; there has to be one.
  function Close(p: Parser): Option<seq<Node>> {
    if p.mode == Stopped || p.current == None then None else Some(p.pipeline + [p.current.value])
  }

  // None where the source raises AssertionError.
  function Parse(tokens: seq<string>): Option<seq<Node>> {
    Close(Feed(FRESH, tokens))
  }

  /* Well-formed pipelines. */

  // Words and file names: a word in the place of an argument must not be read as an operator.
  predicate WellFormedCommand(c: Command) {
    && |c.argv| >= 1 && c.argv[0] != "cd" && EnvMatch(c.argv[0]) == None
    && (forall i :: 1 <= i < |c.argv| ==> KindOf(c.argv[i]).Plain?)
    && !c.stderr.ToPipe? && !c.stdout.ToStdout?
    && (forall name :: name in c.env ==> EnvName(name) && EnvValue(c.env[name]))
  }

  // Node n, followed by the operator next: a pipe exactly after an output into it; only && after cd.
  predicate Placed(n: Node, next: Option<Node>) {
    match n
    case Cmd(c) => WellFormedCommand(c) && (c.stdout.ToPipe? <==> next == Some(Pipe))
    case Chdir(dir) => dir != Some("&&") && (next.Some? ==> next.value == And)
    case _ => false
  }

  predicate NodeAt(nodes: seq<Node>, k: nat)
    requires k < |nodes|
  {
    if k % 2 == 0 then Placed(nodes[k], if k + 1 < |nodes| then Some(nodes[k + 1]) else None) else IsOp(nodes[k])
  }

  // Commands at the even places, operators at the odd ones.
  predicate Alternating(nodes: seq<Node>) {
    forall k: nat :: k < |nodes| ==> NodeAt(nodes, k)
  }

  predicate WellFormed(nodes: seq<Node>) { |nodes| % 2 == 1 && Alternating(nodes) }

  lemma AlternatingExtend(nodes: seq<Node>, n: Node, op: Node)
    requires Alternating(nodes) && |nodes| % 2 == 0 && Placed(n, Some(op)) && IsOp(op)
    ensures Alternating(nodes + [n, op])
  {
    var all := nodes + [n, op];
    forall k: nat | k < |all| ensures NodeAt(all, k) {
      assert k < |nodes| ==> NodeAt(nodes, k);
    }
  }

  lemma AlternatingLast(nodes: seq<Node>, n: Node)
    requires Alternating(nodes) && |nodes| % 2 == 0 && Placed(n, None)
    ensures WellFormed(nodes + [n])
  {
    var all := nodes + [n];
    forall k: nat | k < |all| ensures NodeAt(all, k) {
      assert k < |nodes| ==> NodeAt(nodes, k);
    }
  }

  lemma AlternatingTail(nodes: seq<Node>)
    requires WellFormed(nodes) && |nodes| > 1
    ensures WellFormed(nodes[2..]) && Placed(nodes[0], Some(nodes[1])) && IsOp(nodes[1])
  {
    assert NodeAt(nodes, 0) && NodeAt(nodes, 1);
    forall k: nat | k < |nodes[2..]| ensures NodeAt(nodes[2..], k) {
      assert NodeAt(nodes, k + 2);
    }
  }

  /* What the parser returns is well formed. */

  // The node under way, apart from an output into a pipe, which only the pipe itself brings.
  predicate CurrentOk(n: Node) {
    match n
    case Cmd(c) => WellFormedCommand(c) && !c.stdout.ToPipe?
    case Chdir(dir) => dir != Some("&&")
    case _ => false
  }

  predicate Sound(p: Parser) {
    && Shaped(p) && Alternating(p.pipeline) && |p.pipeline| % 2 == 0
    && (p.mode != Stopped && p.current.Some? ==> CurrentOk(p.current.value))
    && (forall name :: name in p.env ==> EnvName(name) && EnvValue(p.env[name]))
  }

  lemma CommitSound(p: Parser, n: Node, op: Node)
    requires Sound(p) && IsOp(op) && Placed(n, Some(op))
    ensures Sound(Commit(p.(current := Some(n)), op).(env := map[]))
  {
    AlternatingExtend(p.pipeline, n, op);
  }

  lemma AfterCommandSound(p: Parser, token: string)
    requires Sound(p) && p.mode == InCommand
    ensures Sound(Step(p, token))
  {
    hide EnvMatch, Alternating, KindOf;
    var c := p.current.value.c;
    match KindOf(token)
    case Bar => if c.stdout == Inherit { CommitSound(p, Cmd(c.(stdout := ToPipe)), Pipe); }
    case AndAnd => CommitSound(p, Cmd(c), And);
    case OrOr => CommitSound(p, Cmd(c), Or);
    case _ =>
  }

  lemma StepSound(p: Parser, token: string)
    requires Sound(p)
    ensures Sound(Step(p, token))
  {
    hide EnvMatch, Alternating, KindOf, EnvName, EnvValue;
    match p.mode
    case Begin => if EnvMatch(token).Some? { MatchIsVariable(token); }
    case InCommand => AfterCommandSound(p, token);
    case InChdir => if token == "&&" { CommitSound(p, p.current.value, And); }
    case _ =>
  }

  lemma {:induction false} FeedSound(p: Parser, tokens: seq<string>)
    requires Sound(p)
    ensures Sound(Feed(p, tokens))
    decreases |tokens|
  {
    hide Sound;
    if tokens != [] {
      assert Shaped(p) by { SoundShaped(p); }
      StepSound(p, tokens[0]);
      FeedSound(Step(p, tokens[0]), tokens[1..]);
    }
  }

  lemma SoundShaped(p: Parser)
    requires Sound(p)
    ensures Shaped(p)
  {
  }

  /** Whatever the tokens, a parse that succeeds returns commands and operators in turn, a command
      first and last, an output into a pipe exactly before a pipe, and only && after cd. */
  lemma ParseWellFormed(tokens: seq<string>)
    requires Parse(tokens).Some?
    ensures WellFormed(Parse(tokens).value)
  {
    hide Alternating;
    assert Sound(FRESH) by { EmptySound(); }
    FeedSound(FRESH, tokens);
    var p := Feed(FRESH, tokens);
    AlternatingLast(p.pipeline, p.current.value);
  }

  lemma EmptySound()
    ensures Sound(FRESH)
  {
  }

  /* Writing a pipeline back as tokens. */

  // An order in which to write the variables.
  ghost predicate IsOrder(names: seq<string>, env: map<string, string>) {
    && (forall i :: 0 <= i < |names| ==> names[i] in env)
    && (forall name :: name in env ==> name in names)
  }

  function EnvTokens(names: seq<string>, env: map<string, string>): seq<string>
    requires forall i :: 0 <= i < |names| ==> names[i] in env
  {
    if names == [] then [] else [Assignment(names[0], env[names[0]])] + EnvTokens(names[1..], env)
  }

  function InTokens(stdin: Option<string>): seq<string> { if stdin.Some? then ["<", stdin.value] else [] }

  function OutTokens(stdout: Stream): seq<string> { if stdout.File? then [">", stdout.name] else [] }

  function ErrTokens(stderr: Stream): seq<string> {
    if stderr.File? then ["2>", stderr.name] else if stderr.ToStdout? then ["2>&1"] else []
  }

  function NodeTokens(n: Node, names: seq<string>): seq<string>
    requires n.Cmd? ==> forall i :: 0 <= i < |names| ==> names[i] in n.c.env
  {
    match n
    case Cmd(c) => EnvTokens(names, c.env) + c.argv + InTokens(c.stdin) + OutTokens(c.stdout) + ErrTokens(c.stderr)
    case Chdir(dir) => ["cd"] + if dir.Some? then [dir.value] else []
    case _ => []
  }

  function OpToken(op: Node): string {
    if op.Pipe? then "|" else if op.And? then "&&" else "||"
  }

  // names[k] is the order of the variables of node k.
  ghost predicate Orders(names: seq<seq<string>>, nodes: seq<Node>) {
    |names| == |nodes| && forall k :: 0 <= k < |nodes| && nodes[k].Cmd? ==> IsOrder(names[k], nodes[k].c.env)
  }

  ghost function Unparse(nodes: seq<Node>, names: seq<seq<string>>): seq<string>
    requires Orders(names, nodes)
  {
    if nodes == [] then []
    else if |nodes| == 1 then NodeTokens(nodes[0], names[0])
    else NodeTokens(nodes[0], names[0]) + [OpToken(nodes[1])] + Unparse(nodes[2..], names[2..])
  }

  lemma {:induction false} FeedMore(p: Parser, a: seq<string>, b: seq<string>)
    requires Shaped(p)
    ensures Feed(p, a + b) == Feed(Feed(p, a), b)
    decreases |a|
  {
    if a == [] {
      assert a + b == b;
    } else {
      assert (a + b)[1..] == a[1..] + b;
      FeedMore(Step(p, a[0]), a[1..], b);
    }
  }

  lemma FeedOne(p: Parser, token: string)
    requires Shaped(p)
    ensures Feed(p, [token]) == Step(p, token)
  {
  }

  lemma FeedTwo(p: Parser, a: string, b: string)
    requires Shaped(p)
    ensures Feed(p, [a, b]) == Step(Step(p, a), b)
  {
    assert [a, b][1..] == [b];
    FeedOne(Step(p, a), b);
  }

  lemma StepAssignment(p: Parser, name: string, value: string)
    requires Shaped(p) && p.mode == Begin && EnvName(name) && EnvValue(value)
    ensures Step(p, Assignment(name, value)) == p.(env := p.env[name := value])
  {
    hide EnvMatch;
    VariableMatches(Assignment(name, value), name, value);
  }

  // What the variables named add to others.
  ghost function Added(env: map<string, string>, names: seq<string>, all: map<string, string>): map<string, string>
    requires forall i :: 0 <= i < |names| ==> names[i] in all
    decreases |names|
  {
    if names == [] then env else Added(env[names[0] := all[names[0]]], names[1..], all)
  }

  lemma {:induction false} AddedAll(env: map<string, string>, names: seq<string>, all: map<string, string>)
    requires forall i :: 0 <= i < |names| ==> names[i] in all
    requires forall name :: name in all && name !in names ==> name in env && env[name] == all[name]
    requires forall name :: name in env ==> name in all
    ensures Added(env, names, all) == all
    decreases |names|
  {
    if names != [] {
      AddedAll(env[names[0] := all[names[0]]], names[1..], all);
    }
  }

  lemma {:induction false} FeedEnv(p: Parser, names: seq<string>, env: map<string, string>)
    requires Shaped(p) && p.mode == Begin
    requires forall i :: 0 <= i < |names| ==> names[i] in env
    requires forall name :: name in env ==> EnvName(name) && EnvValue(env[name])
    ensures Feed(p, EnvTokens(names, env)) == p.(env := Added(p.env, names, env))
    decreases |names|
  {
    hide EnvMatch, EnvName, EnvValue, Step;
    if names != [] {
      StepAssignment(p, names[0], env[names[0]]);
      FeedEnv(p.(env := p.env[names[0] := env[names[0]]]), names[1..], env);
    }
  }

  lemma {:induction false} FeedArgs(p: Parser, c: Command, args: seq<string>)
    requires p.mode == InCommand && p.current == Some(Cmd(c)) && Shaped(p)
    requires forall i :: 0 <= i < |args| ==> KindOf(args[i]).Plain?
    ensures Feed(p, args) == p.(current := Some(Cmd(c.(argv := c.argv + args))))
    decreases |args|
  {
    hide KindOf;
    if args == [] {
      assert c.argv + [] == c.argv;
    } else {
      var d := c.(argv := c.argv + [args[0]]);
      FeedArgs(p.(current := Some(Cmd(d))), d, args[1..]);
      assert c.argv + [args[0]] + args[1..] == c.argv + args;
    }
  }

  lemma Kinds()
    ensures KindOf(">") == Out && KindOf("2>") == Err && KindOf("2>&1") == ErrToOut && KindOf("<") == In
    ensures KindOf("|") == Bar && KindOf("&&") == AndAnd && KindOf("||") == OrOr
  {
  }

  predicate Holds(p: Parser, c: Command) { p.mode == InCommand && p.current == Some(Cmd(c)) && Shaped(p) }

  lemma FeedIn(p: Parser, c: Command, stdin: Option<string>)
    requires Holds(p, c) && c.stdin == None
    ensures Feed(p, InTokens(stdin)) == p.(current := Some(Cmd(c.(stdin := stdin))))
  {
    hide KindOf;
    Kinds();
    if stdin.Some? { FeedTwo(p, "<", stdin.value); }
  }

  lemma FeedOut(p: Parser, c: Command, stdout: Stream)
    requires Holds(p, c) && c.stdout == Inherit
    ensures Feed(p, OutTokens(stdout)) == p.(current := Some(Cmd(c.(stdout := if stdout.File? then stdout else Inherit))))
  {
    hide KindOf;
    Kinds();
    if stdout.File? { FeedTwo(p, ">", stdout.name); }
  }

  lemma FeedErr(p: Parser, c: Command, stderr: Stream)
    requires Holds(p, c) && c.stderr == Inherit && !stderr.ToPipe?
    ensures Feed(p, ErrTokens(stderr)) == p.(current := Some(Cmd(c.(stderr := stderr))))
  {
    hide KindOf;
    Kinds();
    if stderr.File? {
      FeedTwo(p, "2>", stderr.name);
    } else if stderr.ToStdout? {
      FeedOne(p, "2>&1");
    }
  }

  // A command as it stands before its operator has been read.
  function Unpiped(n: Node): Node {
    if n.Cmd? && n.c.stdout.ToPipe? then Cmd(n.c.(stdout := Inherit)) else n
  }

  function Ready(pipeline: seq<Node>): Parser { Parser(Begin, None, map[], pipeline) }

  function Under(n: Node, pipeline: seq<Node>): Parser {
    Parser(if n.Chdir? then InChdir else InCommand, Some(Unpiped(n)), map[], pipeline)
  }

  // The variables and the name of a command.
  lemma FeedName(c: Command, names: seq<string>, pipeline: seq<Node>)
    requires WellFormedCommand(c) && IsOrder(names, c.env)
    ensures Feed(Ready(pipeline), EnvTokens(names, c.env) + c.argv)
         == Parser(InCommand, Some(Cmd(Command(c.argv, None, Inherit, Inherit, c.env))), map[], pipeline)
  {
    hide EnvMatch, EnvName, EnvValue, KindOf;
    var tokens := EnvTokens(names, c.env);
    FeedEnv(Ready(pipeline), names, c.env);
    AddedAll(map[], names, c.env);
    FeedMore(Ready(pipeline), tokens, c.argv);
    var p := Ready(pipeline).(env := c.env);
    var d := Command([c.argv[0]], None, Inherit, Inherit, c.env);
    var q := Parser(InCommand, Some(Cmd(d)), map[], pipeline);
    assert Step(p, c.argv[0]) == q;
    FeedArgs(q, d, c.argv[1..]);
    assert [c.argv[0]] + c.argv[1..] == c.argv;
  }

  lemma FeedCommand(c: Command, names: seq<string>, pipeline: seq<Node>)
    requires WellFormedCommand(c) && IsOrder(names, c.env)
    ensures Feed(Ready(pipeline), NodeTokens(Cmd(c), names)) == Under(Cmd(c), pipeline)
  {
    hide EnvTokens, InTokens, OutTokens, ErrTokens, Step, IsOrder;
    NamesKnown(names, c.env);
    var p := Ready(pipeline);
    var name := EnvTokens(names, c.env) + c.argv;
    FeedName(c, names, pipeline);
    var c1 := Command(c.argv, None, Inherit, Inherit, c.env);
    FeedMore(p, name, InTokens(c.stdin));
    FeedIn(Feed(p, name), c1, c.stdin);
    var c2 := c1.(stdin := c.stdin);
    var p2 := Parser(InCommand, Some(Cmd(c2)), map[], pipeline);
    FeedMore(p, name + InTokens(c.stdin), OutTokens(c.stdout));
    FeedOut(p2, c2, c.stdout);
    var c3 := c2.(stdout := if c.stdout.File? then c.stdout else Inherit);
    var p3 := Parser(InCommand, Some(Cmd(c3)), map[], pipeline);
    FeedMore(p, name + InTokens(c.stdin) + OutTokens(c.stdout), ErrTokens(c.stderr));
    FeedErr(p3, c3, c.stderr);
  }

  lemma NamesKnown(names: seq<string>, env: map<string, string>)
    requires IsOrder(names, env)
    ensures forall i :: 0 <= i < |names| ==> names[i] in env
  {
  }

  lemma FeedChdir(dir: Option<string>, names: seq<string>, pipeline: seq<Node>)
    requires dir != Some("&&")
    ensures Feed(Ready(pipeline), NodeTokens(Chdir(dir), names)) == Under(Chdir(dir), pipeline)
  {
    CdIsNoVariable();
    hide EnvMatch;
    if dir.Some? {
      assert ["cd"] + [dir.value] == ["cd", dir.value];
      FeedTwo(Ready(pipeline), "cd", dir.value);
    } else {
      assert ["cd"] + [] == ["cd"];
      FeedOne(Ready(pipeline), "cd");
    }
  }

  lemma CdIsNoVariable()
    ensures EnvMatch("cd") == None
  {
  }

  lemma StepOp(n: Node, op: Node, pipeline: seq<Node>)
    requires Placed(n, Some(op)) && IsOp(op)
    ensures Step(Under(n, pipeline), OpToken(op)) == Ready(pipeline + [n, op])
  {
    hide WellFormedCommand, KindOf;
    Kinds();
  }

  lemma {:induction false} FeedAll(nodes: seq<Node>, names: seq<seq<string>>, pipeline: seq<Node>)
    requires WellFormed(nodes) && Orders(names, nodes)
    ensures Close(Feed(Ready(pipeline), Unparse(nodes, names))) == Some(pipeline + nodes)
    decreases |nodes|
  {
    hide Feed, Step, WellFormedCommand, NodeTokens, Alternating;
    var p := Ready(pipeline);
    FirstFed(nodes, names, pipeline);
    if |nodes| == 1 {
      assert pipeline + nodes == pipeline + [nodes[0]];
    } else {
      AlternatingTail(nodes);
      var first, op := NodeTokens(nodes[0], names[0]), OpToken(nodes[1]);
      FeedMore(p, first + [op], Unparse(nodes[2..], names[2..]));
      FeedMore(p, first, [op]);
      FeedOne(Under(nodes[0], pipeline), op);
      StepOp(nodes[0], nodes[1], pipeline);
      FeedAll(nodes[2..], names[2..], pipeline + [nodes[0], nodes[1]]);
      assert pipeline + [nodes[0], nodes[1]] + nodes[2..] == pipeline + nodes;
    }
  }

  lemma FirstFed(nodes: seq<Node>, names: seq<seq<string>>, pipeline: seq<Node>)
    requires WellFormed(nodes) && Orders(names, nodes)
    ensures Feed(Ready(pipeline), NodeTokens(nodes[0], names[0])) == Under(nodes[0], pipeline)
    ensures |nodes| == 1 ==> Unpiped(nodes[0]) == nodes[0]
  {
    assert NodeAt(nodes, 0);
    hide Alternating, Feed, NodeTokens, WellFormedCommand;
    match nodes[0]
    case Cmd(c) => FeedCommand(c, names[0], pipeline);
    case Chdir(dir) => FeedChdir(dir, names[0], pipeline);
  }

  /** Round trip: a well-formed pipeline written as tokens, with the variables of each command in
      any order, is parsed back to itself. */
  lemma ParseUnparse(nodes: seq<Node>, names: seq<seq<string>>)
    requires WellFormed(nodes) && Orders(names, nodes)
    ensures Parse(Unparse(nodes, names)) == Some(nodes)
  {
    FeedAll(nodes, names, []);
    assert [] + nodes == nodes;
  }

  ghost predicate Parsed(nodes: seq<Node>) {
    exists tokens :: Parse(tokens) == Some(nodes)
  }

  /** The pipelines some command line is parsed to are exactly the well-formed ones. */
  lemma ParsedIffWellFormed(nodes: seq<Node>)
    ensures Parsed(nodes) <==> WellFormed(nodes)
  {
    if Parsed(nodes) {
      var tokens :| Parse(tokens) == Some(nodes);
      ParseWellFormed(tokens);
    }
    if WellFormed(nodes) {
      var names := AnOrder(nodes);
      ParseUnparse(nodes, names);
    }
  }

  ghost function SomeOrder(env: map<string, string>): (names: seq<string>)
    ensures IsOrder(names, env)
  {
    if env == map[] then []
    else
      var name :| name in env;
      assert env == (env - {name})[name := env[name]];
      [name] + SomeOrder(env - {name})
  }

  ghost function AnOrder(nodes: seq<Node>): (names: seq<seq<string>>)
    ensures Orders(names, nodes)
  {
    seq(|nodes|, k requires 0 <= k < |nodes| => if nodes[k].Cmd? then SomeOrder(nodes[k].c.env) else [])
  }
}
