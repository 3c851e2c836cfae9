/** Parsing and running in place: the Pipeline class of waf-tools/shellcmd.py. Processes are not
    modelled; an exit code for every command is given from outside. */
module ShellRun {
  import opened Common
  import opened Shell

  // A started process: the command at this place in the pipeline, its directory, and whether it
  // reads the output of the process started before it.
  datatype Launch = Launch(node: nat, cwd: string, fromPipe: bool)

  datatype Outcome = Exited(code: int) | NoStatus | Raised

  function Join(a: string, b: string): string {
    if b != "" && b[0] == '/' then b
    else if a == "" || a[|a|-1] == '/' then a + b
    else a + "/" + b
  }

  /* What a pipeline means: stages of piped commands, joined by && and || to the right. */

  datatype Plan = End(stage: seq<Launch>, ending: Ending) | Then(stage: seq<Launch>, and: bool, rest: Plan)

  // The last stage is awaited, or a cd raises an exception, or no command follows an operator.
  datatype Ending = Awaited | BadCd | RanOut

  function Read(nodes: seq<Node>, k: nat, cwd: string, stage: seq<Launch>): Plan
    decreases |nodes| - k
  {
    if k >= |nodes| then End(stage, RanOut)
    else match nodes[k]
      case Chdir(dir) =>
        if k + 1 == |nodes| || dir == None then End(stage, BadCd)
        else Read(nodes, k + 2, Join(cwd, dir.value), stage)
      case Cmd(_) =>
        var more := stage + [Launch(k, cwd, stage != [])];
        if k + 1 == |nodes| then End(more, Awaited)
        else if nodes[k + 1].Pipe? then Read(nodes, k + 2, cwd, more)
        else Then(more, nodes[k + 1].And?, Read(nodes, k + 2, cwd, []))
      case _ => End(stage, BadCd)
  }

  function PlanOf(nodes: seq<Node>): Plan { Read(nodes, 0, ".", []) }

  // The status of a pipe is that of its last command.
  function Status(stage: seq<Launch>, codes: nat -> int): int {
    if stage == [] then 0 else codes(stage[|stage|-1].node)
  }

  predicate Proceeds(stage: seq<Launch>, and: bool, codes: nat -> int) {
    and <==> Status(stage, codes) == 0
  }

  // Right-nested short-circuit evaluation.
  function Value(plan: Plan, codes: nat -> int): Outcome {
    match plan
    case End(stage, Awaited) => Exited(Status(stage, codes))
    case End(_, BadCd) => Raised
    case End(_, RanOut) => NoStatus
    case Then(stage, and, rest) =>
      if Proceeds(stage, and, codes) then Value(rest, codes) else Exited(Status(stage, codes))
  }

  function Started(plan: Plan, codes: nat -> int): seq<Launch> {
    match plan
    case End(stage, _) => stage
    case Then(stage, and, rest) => stage + if Proceeds(stage, and, codes) then Started(rest, codes) else []
  }

  class Pipeline {
    var currentCommand: Option<Node>
    var pipeline: seq<Node>

    // After any parse, also one that failed, what has been committed is in order.
    ghost predicate Valid()
      reads this
    {
      Alternating(pipeline)
    }

    constructor ()
      ensures Valid() && currentCommand == None && pipeline == []
    {
      currentCommand, pipeline := None, [];
    }

    /** The command under way joins the pipeline; an assertion fails if there is none. */
    method CommitCommand() returns (ok: bool)
      modifies this
      ensures ok <==> old(currentCommand).Some?
      ensures ok ==> pipeline == old(pipeline) + [old(currentCommand).value] && currentCommand == None
      ensures !ok ==> pipeline == old(pipeline) && currentCommand == None
    {
      if currentCommand == None {
        return false;
      }
      pipeline := pipeline + [currentCommand.value];
      currentCommand := None;
      return true;
    }

    /** A line of tokens becomes the pipeline; ok is false where an assertion fails, which leaves
        what had been committed by then. */
    method Parse(tokens: seq<string>) returns (ok: bool)
      modifies this
      ensures Valid()
      ensures ok <==> Shell.Parse(tokens).Some?
      ensures ok ==> Shell.Parse(tokens) == Some(pipeline) && currentCommand == None
      ensures !ok ==> pipeline == Feed(FRESH, tokens).pipeline && currentCommand == Feed(FRESH, tokens).current
    {
      hide EnvMatch, KindOf, Sound, Feed;
      currentCommand, pipeline := None, [];
      var state, env, rest := Begin, map[], tokens;
      ghost var p := FRESH;
      assert Sound(FRESH) by { EmptySound(); }
      FeedSound(FRESH, tokens);
      SoundOrder(Feed(FRESH, tokens));
      Kinds();
      while rest != []
        invariant p == Parser(state, currentCommand, env, pipeline) && state != Stopped && Shaped(p)
        invariant Feed(FRESH, tokens) == Feed(p, rest)
        decreases |rest|
      {
        var token := rest[0];
        assert rest == [token] + rest[1..];
        rest := rest[1..];
        FeedFirst(p, token, rest);
        assert Feed(FRESH, tokens) == Feed(Step(p, token), rest);
        p := Step(p, token);
        FeedStopped(p, rest);
        match state
        case Begin =>
          var assignment := EnvMatch(token);
          if assignment.Some? {
            env := env[assignment.value.0 := assignment.value.1];
          } else if token == "cd" {
            currentCommand := Some(Chdir(None));
            if env != map[] { return false; }
            state := InChdir;
          } else {
            currentCommand := Some(Cmd(Command([token], None, Inherit, Inherit, env)));
            env, state := map[], InCommand;
          }
        case InCommand =>
          var c := currentCommand.value.c;
          match KindOf(token) {
            case Out => state := InStdout;
            case Err => state := InStderr;
            case ErrToOut =>
              if c.stderr != Inherit { return false; }
              currentCommand := Some(Cmd(c.(stderr := ToStdout)));
            case In => state := InStdin;
            case Bar =>
              if c.stdout != Inherit { return false; }
              currentCommand := Some(Cmd(c.(stdout := ToPipe)));
              var _ := CommitCommand();
              pipeline, state := pipeline + [Pipe], Begin;
            case AndAnd =>
              var _ := CommitCommand();
              pipeline, state := pipeline + [And], Begin;
            case OrOr =>
              var _ := CommitCommand();
              pipeline, state := pipeline + [Or], Begin;
            case Plain => currentCommand := Some(Cmd(c.(argv := c.argv + [token])));
          }
        case InChdir =>
          if token == "&&" {
            var _ := CommitCommand();
            pipeline, state := pipeline + [And], Begin;
          } else {
            if currentCommand.value.dir != None { return false; }
            currentCommand := Some(Chdir(Some(token)));
          }
        case InStdout =>
          var c := currentCommand.value.c;
          if c.stdout != Inherit { return false; }
          currentCommand, state := Some(Cmd(c.(stdout := File(token)))), InCommand;
        case InStderr =>
          var c := currentCommand.value.c;
          if c.stderr != Inherit { return false; }
          currentCommand, state := Some(Cmd(c.(stderr := File(token)))), InCommand;
        case InStdin =>
          var c := currentCommand.value.c;
          if c.stdin != None { return false; }
          currentCommand, state := Some(Cmd(c.(stdin := Some(token)))), InCommand;
      }
      FeedNothing(p);
      ok := CommitCommand();
    }

    /** The pipeline is run: commands start in turn, those of a stage are awaited before its
        operator is looked at, and the first operator not satisfied ends the run. */
    method Run(codes: nat -> int) returns (outcome: Outcome, started: seq<Launch>)
      requires Valid()
      ensures outcome == Value(PlanOf(pipeline), codes) && started == Started(PlanOf(pipeline), codes)
    {
      hide Alternating, Status, Join, WellFormedCommand, Read, Value, Started;
      var k, cwd, stage := 0, ".", [];
      started := [];
      ghost var awaited: seq<Launch> := [];
      while k < |pipeline|
        invariant k % 2 == 0 && started == awaited + stage
        invariant Value(PlanOf(pipeline), codes) == Value(Read(pipeline, k, cwd, stage), codes)
        invariant Started(PlanOf(pipeline), codes) == awaited + Started(Read(pipeline, k, cwd, stage), codes)
      {
        NodesAt(pipeline, k);
        ReadNode(pipeline, k, cwd, stage, codes);
        var node := pipeline[k];
        if node.Chdir? {
          if k + 1 == |pipeline| || node.dir == None {
            return Raised, started;
          }
          cwd, k := Join(cwd, node.dir.value), k + 2;
          continue;
        }
        var process := Launch(k, cwd, stage != []);
        stage, started := stage + [process], started + [process];
        assert started == awaited + stage;
        if k + 1 == |pipeline| {
          var code := ExecPipedCommands(stage, codes);
          return Exited(code), started;
        }
        if !pipeline[k + 1].Pipe? {
          var code := ExecPipedCommands(stage, codes);
          if (pipeline[k + 1].Or? && code == 0) || (pipeline[k + 1].And? && code != 0) {
            return Exited(code), started;
          }
          awaited, stage := awaited + stage, [];
          assert started == awaited + stage;
        }
        k := k + 2;
      }
      ReadNothing(pipeline, k, cwd, stage, codes);
      outcome := NoStatus;
    }
  }

  /** The commands of a stage are awaited; some failure makes the status that of the last one. */
  method ExecPipedCommands(commands: seq<Launch>, codes: nat -> int) returns (status: int)
    ensures status == Status(commands, codes)
    ensures commands != [] ==> status == codes(commands[|commands|-1].node)
  {
    var retvals: seq<int> := [];
    for i := 0 to |commands|
      invariant |retvals| == i && forall j :: 0 <= j < i ==> retvals[j] == codes(commands[j].node)
    {
      retvals := retvals + [codes(commands[i].node)];
    }
    for i := 0 to |retvals|
      invariant forall j :: 0 <= j < i ==> retvals[j] == 0
    {
      if retvals[i] != 0 {
        return retvals[|retvals|-1];
      }
    }
    return 0;
  }

  lemma ReadNothing(nodes: seq<Node>, k: nat, cwd: string, stage: seq<Launch>, codes: nat -> int)
    requires k >= |nodes|
    ensures Value(Read(nodes, k, cwd, stage), codes) == NoStatus && Started(Read(nodes, k, cwd, stage), codes) == stage
  {
  }

  // What the plan says about a command or a cd and its operator.
  lemma ReadNode(nodes: seq<Node>, k: nat, cwd: string, stage: seq<Launch>, codes: nat -> int)
    requires k < |nodes| && !IsOp(nodes[k]) && (k + 1 < |nodes| ==> IsOp(nodes[k + 1]))
    ensures var plan, more := Read(nodes, k, cwd, stage), stage + [Launch(k, cwd, stage != [])];
      if nodes[k].Chdir? then
        if k + 1 == |nodes| || nodes[k].dir == None then Value(plan, codes) == Raised && Started(plan, codes) == stage
        else plan == Read(nodes, k + 2, Join(cwd, nodes[k].dir.value), stage)
      else if k + 1 == |nodes| then Value(plan, codes) == Exited(Status(more, codes)) && Started(plan, codes) == more
      else if nodes[k + 1].Pipe? then plan == Read(nodes, k + 2, cwd, more)
      else
        var rest := Read(nodes, k + 2, cwd, []);
        if nodes[k + 1].And? <==> Status(more, codes) == 0
        then Value(plan, codes) == Value(rest, codes) && Started(plan, codes) == more + Started(rest, codes)
        else Value(plan, codes) == Exited(Status(more, codes)) && Started(plan, codes) == more
  {
    hide Status, Join;
  }

  lemma NodesAt(nodes: seq<Node>, k: nat)
    requires Alternating(nodes) && k < |nodes| && k % 2 == 0
    ensures Placed(nodes[k], if k + 1 < |nodes| then Some(nodes[k + 1]) else None)
    ensures k + 1 < |nodes| ==> IsOp(nodes[k + 1])
  {
    assert NodeAt(nodes, k);
    assert k + 1 < |nodes| ==> NodeAt(nodes, k + 1);
  }

  lemma SoundOrder(p: Parser)
    requires Sound(p)
    ensures Alternating(p.pipeline) && (Close(p).Some? ==> Alternating(Close(p).value))
  {
    if Close(p).Some? {
      AlternatingLast(p.pipeline, p.current.value);
    }
  }

  lemma FeedFirst(p: Parser, token: string, rest: seq<string>)
    requires Shaped(p)
    ensures Feed(p, [token] + rest) == Feed(Step(p, token), rest)
  {
    assert ([token] + rest)[1..] == rest;
  }

  lemma FeedNothing(p: Parser)
    requires Shaped(p)
    ensures Feed(p, []) == p
  {
  }

  lemma {:induction false} FeedStopped(p: Parser, tokens: seq<string>)
    requires Shaped(p)
    ensures p.mode == Stopped ==> Feed(p, tokens) == p
    decreases |tokens|
  {
    if tokens != [] { FeedStopped(p, tokens[1..]); }
  }

  /* What a run does, read off the command line. */

  // The directory at a place: all cd before it, joined.
  function Cwd(nodes: seq<Node>, k: nat): string
    requires k <= |nodes|
  {
    if k == 0 then "."
    else if nodes[k - 1].Chdir? && nodes[k - 1].dir.Some? then Join(Cwd(nodes, k - 1), nodes[k - 1].dir.value)
    else Cwd(nodes, k - 1)
  }

  // No cd without a directory, and none at the end.
  predicate CdsComplete(nodes: seq<Node>) {
    forall k :: 0 <= k < |nodes| && nodes[k].Chdir? ==> nodes[k].dir.Some? && k + 1 < |nodes|
  }

  // All commands of a plan, and its stages and operators.
  function Planned(plan: Plan): seq<Launch> {
    match plan
    case End(stage, _) => stage
    case Then(stage, _, rest) => stage + Planned(rest)
  }

  function EndOf(plan: Plan): Ending {
    match plan case End(_, e) => e case Then(_, _, rest) => EndOf(rest)
  }

  // The commands from place k on.
  function CommandsFrom(nodes: seq<Node>, k: nat): seq<nat>
    decreases |nodes| - k
  {
    if k >= |nodes| then []
    else (if nodes[k].Cmd? then [k] else []) + CommandsFrom(nodes, k + 1)
  }

  function Places(launches: seq<Launch>): (r: seq<nat>)
    ensures |r| == |launches|
  {
    seq(|launches|, i requires 0 <= i < |launches| => launches[i].node)
  }

  // The operator before a command, leaving out cd, is a pipe.
  predicate Fed(nodes: seq<Node>, k: nat)
    requires k <= |nodes|
  {
    k >= 2 && if nodes[k - 2].Chdir? then Fed(nodes, k - 2) else nodes[k - 1].Pipe?
  }

  ghost predicate Right(nodes: seq<Node>, launches: seq<Launch>) {
    forall i :: 0 <= i < |launches| ==>
      launches[i].node < |nodes| && launches[i] == Launch(launches[i].node, Cwd(nodes, launches[i].node), Fed(nodes, launches[i].node))
  }

  // What place k adds: its command, and the directory and the pipe behind it.
  lemma LineStep(nodes: seq<Node>, k: nat)
    requires Alternating(nodes) && k % 2 == 0 && k < |nodes|
    ensures nodes[k].Chdir? || nodes[k].Cmd?
    ensures k + 1 == |nodes| ==> CommandsFrom(nodes, k) == if nodes[k].Cmd? then [k] else []
    ensures k + 1 < |nodes| ==>
      && CommandsFrom(nodes, k) == (if nodes[k].Cmd? then [k] else []) + CommandsFrom(nodes, k + 2)
      && Cwd(nodes, k + 2) == (if nodes[k].Chdir? && nodes[k].dir.Some? then Join(Cwd(nodes, k), nodes[k].dir.value)
                               else Cwd(nodes, k))
      && (Fed(nodes, k + 2) <==> if nodes[k].Chdir? then Fed(nodes, k) else nodes[k + 1].Pipe?)
      && IsOp(nodes[k + 1])
  {
    hide WellFormedCommand, Join, Alternating;
    NodesAt(nodes, k);
    assert CommandsFrom(nodes, k) == (if nodes[k].Cmd? then [k] else []) + CommandsFrom(nodes, k + 1);
    if k + 1 < |nodes| {
      assert Cwd(nodes, k + 2) == Cwd(nodes, k + 1);
      assert CommandsFrom(nodes, k + 1) == CommandsFrom(nodes, k + 2);
    }
  }

  lemma PlacesJoin(a: seq<Launch>, b: seq<Launch>)
    ensures Places(a + b) == Places(a) + Places(b)
  {
  }

  lemma PlacesSnoc(a: seq<Launch>, b: Launch, rest: seq<nat>)
    ensures Places(a + [b]) + rest == Places(a) + ([b.node] + rest)
  {
  }

  lemma {:induction false} ReadPlaces(nodes: seq<Node>, k: nat, cwd: string, stage: seq<Launch>)
    requires WellFormed(nodes) && CdsComplete(nodes) && k % 2 == 0 && k < |nodes|
    ensures Places(Planned(Read(nodes, k, cwd, stage))) == Places(stage) + CommandsFrom(nodes, k)
    decreases |nodes| - k
  {
    hide Join, Alternating, Places, CommandsFrom, Cwd, Fed;
    LineStep(nodes, k);
    if nodes[k].Chdir? {
      ReadPlaces(nodes, k + 2, Join(cwd, nodes[k].dir.value), stage);
      assert [] + CommandsFrom(nodes, k + 2) == CommandsFrom(nodes, k + 2);
    } else {
      var launch := Launch(k, cwd, stage != []);
      var more := stage + [launch];
      if k + 1 == |nodes| {
        PlacesSnoc(stage, launch, []);
        assert Places(more) + [] == Places(more) && [k] + [] == [k];
      } else {
        PlacesSnoc(stage, launch, CommandsFrom(nodes, k + 2));
        if nodes[k + 1].Pipe? {
          ReadPlaces(nodes, k + 2, cwd, more);
        } else {
          ReadPlaces(nodes, k + 2, cwd, []);
          PlacesJoin(more, Planned(Read(nodes, k + 2, cwd, [])));
          NoPlaces(CommandsFrom(nodes, k + 2));
        }
      }
    }
  }

  lemma NoPlaces(rest: seq<nat>)
    ensures Places([]) + rest == rest
  {
  }

  lemma RightJoin(nodes: seq<Node>, a: seq<Launch>, b: seq<Launch>)
    requires Right(nodes, a) && Right(nodes, b)
    ensures Right(nodes, a + b)
  {
  }

  lemma RightOne(nodes: seq<Node>, k: nat)
    requires k < |nodes|
    ensures Right(nodes, [Launch(k, Cwd(nodes, k), Fed(nodes, k))]) && Right(nodes, [])
  {
  }

  lemma {:induction false} ReadRight(nodes: seq<Node>, k: nat, stage: seq<Launch>)
    requires WellFormed(nodes) && CdsComplete(nodes) && k % 2 == 0 && k < |nodes|
    requires Right(nodes, stage) && (stage != [] <==> Fed(nodes, k))
    ensures Right(nodes, Planned(Read(nodes, k, Cwd(nodes, k), stage)))
    decreases |nodes| - k
  {
    hide Join, Alternating, Right, CommandsFrom, Cwd, Fed;
    LineStep(nodes, k);
    RightOne(nodes, k);
    var more := stage + [Launch(k, Cwd(nodes, k), Fed(nodes, k))];
    RightJoin(nodes, stage, [Launch(k, Cwd(nodes, k), Fed(nodes, k))]);
    if nodes[k].Chdir? {
      ReadRight(nodes, k + 2, stage);
    } else if k + 1 < |nodes| {
      if nodes[k + 1].Pipe? {
        ReadRight(nodes, k + 2, more);
      } else {
        ReadRight(nodes, k + 2, []);
        RightJoin(nodes, more, Planned(Read(nodes, k + 2, Cwd(nodes, k + 2), [])));
      }
    }
  }

  lemma {:induction false} ReadEnds(nodes: seq<Node>, k: nat, cwd: string, stage: seq<Launch>)
    requires WellFormed(nodes) && CdsComplete(nodes) && k % 2 == 0 && k < |nodes|
    ensures EndOf(Read(nodes, k, cwd, stage)) == Awaited && StagesFull(Read(nodes, k, cwd, stage))
    decreases |nodes| - k
  {
    hide Join, Alternating, CommandsFrom, Cwd, Fed;
    LineStep(nodes, k);
    var more := stage + [Launch(k, cwd, stage != [])];
    if nodes[k].Chdir? {
      ReadEnds(nodes, k + 2, Join(cwd, nodes[k].dir.value), stage);
    } else if k + 1 < |nodes| {
      ReadEnds(nodes, k + 2, cwd, if nodes[k + 1].Pipe? then more else []);
    }
  }

  // No stage is empty.
  predicate StagesFull(plan: Plan) {
    match plan case End(stage, _) => stage != [] case Then(stage, _, rest) => stage != [] && StagesFull(rest)
  }

  /** A command line is planned whole: its commands in the order written, each in the directory
      that all cd before it lead to, reading from a pipe exactly if one stands before it. */
  lemma PlanIsTheLine(nodes: seq<Node>)
    requires WellFormed(nodes) && CdsComplete(nodes)
    ensures Places(Planned(PlanOf(nodes))) == CommandsFrom(nodes, 0) && Right(nodes, Planned(PlanOf(nodes)))
    ensures EndOf(PlanOf(nodes)) == Awaited && StagesFull(PlanOf(nodes))
  {
    ReadPlaces(nodes, 0, ".", []);
    NoPlaces(CommandsFrom(nodes, 0));
    RightOne(nodes, 0);
    ReadRight(nodes, 0, []);
    ReadEnds(nodes, 0, ".", []);
  }

  lemma {:induction false} LastStatus(plan: Plan, codes: nat -> int)
    requires EndOf(plan) == Awaited && StagesFull(plan)
    ensures var started := Started(plan, codes);
      started != [] && Value(plan, codes) == Exited(codes(started[|started|-1].node))
  {
    match plan
    case End(_, _) =>
    case Then(stage, and, rest) => if Proceeds(stage, and, codes) { LastStatus(rest, codes); }
  }

  /** A line that is run returns the status of the last command that was started. */
  lemma ExitsWithLast(nodes: seq<Node>, codes: nat -> int)
    requires WellFormed(nodes) && CdsComplete(nodes)
    ensures var started := Started(PlanOf(nodes), codes);
      started != [] && Value(PlanOf(nodes), codes) == Exited(codes(started[|started|-1].node))
  {
    PlanIsTheLine(nodes);
    LastStatus(PlanOf(nodes), codes);
  }

  // A cd that cannot be followed ends the plan.
  lemma {:induction false} ReadBad(nodes: seq<Node>, k: nat, cwd: string, stage: seq<Launch>)
    requires WellFormed(nodes) && k % 2 == 0 && k < |nodes|
    requires exists j :: k <= j < |nodes| && nodes[j].Chdir? && (nodes[j].dir == None || j + 1 == |nodes|)
    ensures Value(Read(nodes, k, cwd, stage), PassAll(nodes)) == Raised
    decreases |nodes| - k
  {
    hide WellFormedCommand, Join, Alternating;
    NodesAt(nodes, k);
    if nodes[k].Chdir? {
      if k + 1 < |nodes| && nodes[k].dir.Some? {
        ReadBad(nodes, k + 2, Join(cwd, nodes[k].dir.value), stage);
      }
    } else {
      var more := stage + [Launch(k, cwd, stage != [])];
      if nodes[k + 1].Pipe? {
        ReadBad(nodes, k + 2, cwd, more);
      } else {
        ReadBad(nodes, k + 2, cwd, []);
      }
    }
  }

  // Exit codes with which every operator is satisfied.
  function PassAll(nodes: seq<Node>): nat -> int {
    (k: nat) => if k + 1 < |nodes| && nodes[k + 1].Or? then 1 else 0
  }

  lemma {:induction false} AwaitedExits(plan: Plan, codes: nat -> int)
    requires EndOf(plan) == Awaited
    ensures Value(plan, codes).Exited?
  {
    match plan
    case End(_, _) =>
    case Then(_, _, rest) => AwaitedExits(rest, codes);
  }

  /** A parsed line returns a status under all exit codes if and only if each cd in it has a
      directory and none comes last; otherwise some exit codes make the run raise an exception. */
  lemma RunsExactlyIf(nodes: seq<Node>)
    requires WellFormed(nodes)
    ensures (forall codes :: Value(PlanOf(nodes), codes).Exited?) <==> CdsComplete(nodes)
  {
    if CdsComplete(nodes) {
      PlanIsTheLine(nodes);
      forall codes ensures Value(PlanOf(nodes), codes).Exited? {
        AwaitedExits(PlanOf(nodes), codes);
      }
    } else {
      ReadBad(nodes, 0, ".", []);
      assert !Value(PlanOf(nodes), PassAll(nodes)).Exited?;
    }
  }

  /* Compared with a shell, whose && and || nest to the left and to which cd is a command. */

  predicate IsAndOr(n: Node) { n.And? || n.Or? }

  // What a shell starts from place k on. run: whether the pipe that place k is in is to be run;
  // status: that of the last command run. A cd succeeds; a pipe has the status of its last command.
  function ShellStarts(nodes: seq<Node>, k: nat, codes: nat -> int, run: bool, status: int): seq<nat>
    decreases |nodes| - k
  {
    if k >= |nodes| then []
    else
      var now := if !run then status else if nodes[k].Cmd? then codes(k) else 0;
      (if run && nodes[k].Cmd? then [k] else [])
      + if k + 1 == |nodes| then []
        else ShellStarts(nodes, k + 2, codes, if IsAndOr(nodes[k + 1]) then nodes[k + 1].And? <==> now == 0 else run, now)
  }

  // What the run starts from place k on.
  function RunStarts(nodes: seq<Node>, k: nat, codes: nat -> int): seq<nat>
    decreases |nodes| - k
  {
    if k >= |nodes| then []
    else
      (if nodes[k].Cmd? then [k] else [])
      + if k + 1 == |nodes| || Stops(nodes, k, codes) then [] else RunStarts(nodes, k + 2, codes)
  }

  // The operator behind the command at k ends the run.
  predicate Stops(nodes: seq<Node>, k: nat, codes: nat -> int) {
    k + 1 < |nodes| && nodes[k].Cmd? && IsAndOr(nodes[k + 1]) && !(nodes[k + 1].And? <==> codes(k) == 0)
  }

  // One command of a plan: what it adds to the stage, and to what is started.
  lemma StartedHere(nodes: seq<Node>, k: nat, cwd: string, stage: seq<Launch>, codes: nat -> int)
    requires k < |nodes| && nodes[k].Cmd? && (k + 1 < |nodes| ==> IsOp(nodes[k + 1]))
    ensures var launch := Launch(k, cwd, stage != []);
      Started(Read(nodes, k, cwd, stage), codes)
      == if k + 1 == |nodes| || Stops(nodes, k, codes) then stage + [launch]
         else if nodes[k + 1].Pipe? then Started(Read(nodes, k + 2, cwd, stage + [launch]), codes)
         else stage + [launch] + Started(Read(nodes, k + 2, cwd, []), codes)
  {
    hide Join, Read, Value, Started;
    ReadNode(nodes, k, cwd, stage, codes);
    var more := stage + [Launch(k, cwd, stage != [])];
    assert Status(more, codes) == codes(k);
  }

  lemma RunStep(nodes: seq<Node>, k: nat, codes: nat -> int)
    requires k < |nodes|
    ensures RunStarts(nodes, k, codes)
         == (if nodes[k].Cmd? then [k] else []) + if k + 1 == |nodes| || Stops(nodes, k, codes) then [] else RunStarts(nodes, k + 2, codes)
  {
  }

  lemma PlacesOfThree(a: seq<Launch>, b: Launch, c: seq<Launch>)
    ensures Places(a + [b] + c) == Places(a) + ([b.node] + Places(c))
  {
    PlacesJoin(a + [b], c);
    PlacesSnoc(a, b, Places(c));
  }

  lemma {:induction false} StartedAre(nodes: seq<Node>, k: nat, cwd: string, stage: seq<Launch>, codes: nat -> int)
    requires WellFormed(nodes) && CdsComplete(nodes) && k % 2 == 0 && k < |nodes|
    ensures Places(Started(Read(nodes, k, cwd, stage), codes)) == Places(stage) + RunStarts(nodes, k, codes)
    decreases |nodes| - k
  {
    hide Join, Alternating, Places, Read, Started, Stops, WellFormedCommand, RunStarts;
    NodesAt(nodes, k);
    RunStep(nodes, k, codes);
    var launch := Launch(k, cwd, stage != []);
    if nodes[k].Chdir? {
      CdStarts(nodes, k, cwd, stage, codes);
      StartedAre(nodes, k + 2, Join(cwd, nodes[k].dir.value), stage, codes);
    } else {
      StartedHere(nodes, k, cwd, stage, codes);
      if k + 1 == |nodes| || Stops(nodes, k, codes) {
        PlacesSnoc(stage, launch, []);
        assert [k] + [] == [k];
        assert Places(stage + [launch]) + [] == Places(stage + [launch]);
      } else if nodes[k + 1].Pipe? {
        StartedAre(nodes, k + 2, cwd, stage + [launch], codes);
        PlacesSnoc(stage, launch, RunStarts(nodes, k + 2, codes));
      } else {
        StartedAre(nodes, k + 2, cwd, [], codes);
        NoPlaces(RunStarts(nodes, k + 2, codes));
        PlacesOfThree(stage, launch, Started(Read(nodes, k + 2, cwd, []), codes));
      }
    }
  }

  lemma CdStarts(nodes: seq<Node>, k: nat, cwd: string, stage: seq<Launch>, codes: nat -> int)
    requires k + 1 < |nodes| && nodes[k].Chdir? && nodes[k].dir.Some?
    ensures Read(nodes, k, cwd, stage) == Read(nodes, k + 2, Join(cwd, nodes[k].dir.value), stage)
    ensures RunStarts(nodes, k, codes) == RunStarts(nodes, k + 2, codes)
  {
    hide Join;
    assert [] + RunStarts(nodes, k + 2, codes) == RunStarts(nodes, k + 2, codes);
  }

  // All && and || behind place k are op; pipes do not matter, the && of a cd does.
  predicate OnlyOps(nodes: seq<Node>, k: nat, op: Node)
    decreases |nodes| - k
  {
    k + 1 < |nodes| ==> (IsAndOr(nodes[k + 1]) ==> nodes[k + 1] == op) && OnlyOps(nodes, k + 2, op)
  }

  // Something is run from here on, if this is.
  lemma {:induction false} SomethingRuns(nodes: seq<Node>, k: nat, codes: nat -> int, status: int)
    requires WellFormed(nodes) && CdsComplete(nodes) && k % 2 == 0 && k < |nodes|
    ensures ShellStarts(nodes, k, codes, true, status) != []
    decreases |nodes| - k
  {
    hide Alternating, WellFormedCommand;
    NodesAt(nodes, k);
    if nodes[k].Chdir? { SomethingRuns(nodes, k + 2, codes, 0); }
  }

  // What is skipped is skipped to the end exactly if no other operator comes.
  lemma {:induction false} ShellSkips(nodes: seq<Node>, k: nat, codes: nat -> int, status: int)
    requires WellFormed(nodes) && CdsComplete(nodes) && k % 2 == 0 && k < |nodes|
    ensures ShellStarts(nodes, k, codes, false, status) == [] <==> OnlyOps(nodes, k, if status != 0 then And else Or)
    decreases |nodes| - k
  {
    hide Alternating, WellFormedCommand;
    NodesAt(nodes, k);
    if k + 1 < |nodes| {
      if IsAndOr(nodes[k + 1]) && (nodes[k + 1].And? <==> status == 0) {
        SomethingRuns(nodes, k + 2, codes, status);
      } else {
        ShellSkips(nodes, k + 2, codes, status);
      }
    }
  }

  // Behind the operator that stops the run, all && and || are the same as it.
  predicate SameAfterStop(nodes: seq<Node>, k: nat, codes: nat -> int)
    decreases |nodes| - k
  {
    k + 1 < |nodes| ==> if Stops(nodes, k, codes) then OnlyOps(nodes, k + 2, nodes[k + 1]) else SameAfterStop(nodes, k + 2, codes)
  }

  lemma {:induction false} LikeAShellFrom(nodes: seq<Node>, k: nat, codes: nat -> int, status: int)
    requires WellFormed(nodes) && CdsComplete(nodes) && k % 2 == 0 && k < |nodes|
    ensures RunStarts(nodes, k, codes) == ShellStarts(nodes, k, codes, true, status) <==> SameAfterStop(nodes, k, codes)
    decreases |nodes| - k
  {
    hide Alternating, WellFormedCommand, RunStarts, ShellStarts, OnlyOps;
    NodesAt(nodes, k);
    RunStep(nodes, k, codes);
    ShellStep(nodes, k, codes, status);
    var here := if nodes[k].Cmd? then [k] else [];
    if k + 1 < |nodes| {
      var now := if nodes[k].Cmd? then codes(k) else 0;
      if Stops(nodes, k, codes) {
        ShellSkips(nodes, k + 2, codes, now);
        Cancel(here, [], ShellStarts(nodes, k + 2, codes, false, now));
      } else {
        LikeAShellFrom(nodes, k + 2, codes, now);
        Cancel(here, RunStarts(nodes, k + 2, codes), ShellStarts(nodes, k + 2, codes, true, now));
      }
    }
  }

  lemma ShellStep(nodes: seq<Node>, k: nat, codes: nat -> int, status: int)
    requires k < |nodes|
    ensures var now := if nodes[k].Cmd? then codes(k) else 0;
      ShellStarts(nodes, k, codes, true, status)
      == (if nodes[k].Cmd? then [k] else [])
         + if k + 1 == |nodes| then []
           else ShellStarts(nodes, k + 2, codes, if IsAndOr(nodes[k + 1]) then nodes[k + 1].And? <==> now == 0 else true, now)
  {
  }

  lemma Cancel(a: seq<nat>, x: seq<nat>, y: seq<nat>)
    ensures a + x == a + y <==> x == y
  {
    assert (a + x)[|a|..] == x && (a + y)[|a|..] == y;
  }

  // The run starts the commands a shell starts.
  ghost predicate ShellLike(nodes: seq<Node>, codes: nat -> int) {
    Places(Started(PlanOf(nodes), codes)) == ShellStarts(nodes, 0, codes, true, 0)
  }

  /** The run starts the commands a shell would if and only if all && and || behind the operator
      that stops it are the same as it. */
  lemma LikeAShell(nodes: seq<Node>, codes: nat -> int)
    requires WellFormed(nodes) && CdsComplete(nodes)
    ensures ShellLike(nodes, codes) <==> SameAfterStop(nodes, 0, codes)
  {
    hide Alternating, Read, Started, Places;
    StartedAre(nodes, 0, ".", [], codes);
    NoPlaces(RunStarts(nodes, 0, codes));
    LikeAShellFrom(nodes, 0, codes, 0);
  }

  /** Each && and || behind a command is followed by no other of the two; the && of a cd is one of
      those that may follow. */
  predicate UnmixedFrom(nodes: seq<Node>, k: nat)
    decreases |nodes| - k
  {
    k + 1 < |nodes| ==>
      (nodes[k].Cmd? && IsAndOr(nodes[k + 1]) ==> OnlyOps(nodes, k + 2, nodes[k + 1])) && UnmixedFrom(nodes, k + 2)
  }

  lemma {:induction false} UnmixedStops(nodes: seq<Node>, k: nat, codes: nat -> int)
    requires UnmixedFrom(nodes, k)
    ensures SameAfterStop(nodes, k, codes)
    decreases |nodes| - k
  {
    if k + 1 < |nodes| && !Stops(nodes, k, codes) { UnmixedStops(nodes, k + 2, codes); }
  }

  // Exit codes with which every operator before place m is satisfied, and the one at m is not.
  function StopAt(nodes: seq<Node>, m: nat): nat -> int {
    (k: nat) => if k + 1 < |nodes| && (nodes[k + 1].Or? <==> k < m) then 1 else 0
  }

  lemma {:induction false} MixedStops(nodes: seq<Node>, k: nat, m: nat)
    requires k <= m && k % 2 == 0 && m % 2 == 0 && m + 1 < |nodes|
    requires nodes[m].Cmd? && IsAndOr(nodes[m + 1]) && !OnlyOps(nodes, m + 2, nodes[m + 1])
    ensures !SameAfterStop(nodes, k, StopAt(nodes, m))
    decreases m - k
  {
    if k < m { MixedStops(nodes, k + 2, m); }
  }

  lemma {:induction false} FirstMix(nodes: seq<Node>, k: nat) returns (m: nat)
    requires !UnmixedFrom(nodes, k) && k % 2 == 0
    ensures k <= m && m % 2 == 0 && m + 1 < |nodes|
    ensures nodes[m].Cmd? && IsAndOr(nodes[m + 1]) && !OnlyOps(nodes, m + 2, nodes[m + 1])
    decreases |nodes| - k
  {
    if nodes[k].Cmd? && IsAndOr(nodes[k + 1]) && !OnlyOps(nodes, k + 2, nodes[k + 1]) {
      m := k;
    } else {
      m := FirstMix(nodes, k + 2);
    }
  }

  /** Under all exit codes alike, that is so if and only if no && or || behind a command is followed
      by the other of the two, the && of a later cd included. */
  lemma AlwaysLikeAShell(nodes: seq<Node>)
    requires WellFormed(nodes) && CdsComplete(nodes)
    ensures (forall codes :: ShellLike(nodes, codes)) <==> UnmixedFrom(nodes, 0)
  {
    hide Alternating, ShellLike;
    if UnmixedFrom(nodes, 0) {
      forall codes ensures ShellLike(nodes, codes) {
        UnmixedStops(nodes, 0, codes);
        LikeAShell(nodes, codes);
      }
    } else {
      var m := FirstMix(nodes, 0);
      MixedStops(nodes, 0, m);
      LikeAShell(nodes, StopAt(nodes, m));
      assert !ShellLike(nodes, StopAt(nodes, m));
    }
  }

  function Succeed(k: nat): int { 0 }

  /** `c || cd x && c`: if the first c succeeds, the run stops at it, and a shell goes on to the
      second. `cd x && c || c` mixes the operators, and yet the run is like a shell's. */
  lemma CdAndShell(c: Command)
    requires WellFormedCommand(c) && !c.stdout.ToPipe?
    ensures var late := [Cmd(c), Or, Chdir(Some("x")), And, Cmd(c)];
      && WellFormed(late) && CdsComplete(late) && !ShellLike(late, Succeed)
      && ShellStarts(late, 0, Succeed, true, 0) == [0, 4] && Places(Started(PlanOf(late), Succeed)) == [0]
    ensures var early := [Chdir(Some("x")), And, Cmd(c), Or, Cmd(c)];
      WellFormed(early) && CdsComplete(early) && forall codes :: ShellLike(early, codes)
  {
    var late := [Cmd(c), Or, Chdir(Some("x")), And, Cmd(c)];
    var early := [Chdir(Some("x")), And, Cmd(c), Or, Cmd(c)];
    LateAndEarly(c);
    hide WellFormedCommand, Alternating, Read, Started, Places;
    StartedAre(late, 0, ".", [], Succeed);
    NoPlaces(RunStarts(late, 0, Succeed));
    assert ShellStarts(late, 4, Succeed, true, 0) == [4];
    assert ShellStarts(late, 2, Succeed, false, 0) == [4];
    AlwaysLikeAShell(early);
  }

  lemma LateAndEarly(c: Command)
    requires WellFormedCommand(c) && !c.stdout.ToPipe?
    ensures var late := [Cmd(c), Or, Chdir(Some("x")), And, Cmd(c)]; WellFormed(late) && CdsComplete(late)
    ensures var early := [Chdir(Some("x")), And, Cmd(c), Or, Cmd(c)]; WellFormed(early) && CdsComplete(early) && UnmixedFrom(early, 0)
  {
    hide WellFormedCommand;
    assert "x" != "&&";
    var early := [Chdir(Some("x")), And, Cmd(c), Or, Cmd(c)];
    assert UnmixedFrom(early, 4) && OnlyOps(early, 4, Or);
    assert UnmixedFrom(early, 2);
  }
}
