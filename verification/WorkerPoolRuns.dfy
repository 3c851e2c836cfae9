/** Runs of the worker pool of test.py: what every interleaving of its steps keeps, why it never
    blocks, when it ends and what it returns. */
module WorkerPoolRuns {
  import opened WorkerPool

  lemma InitialInv(s: State)
    requires Initial(s)
    ensures Inv(s)
  {
    GatherHas(s.workers, HeldBy);
    TallyBounds(s.workers, IsGone);
  }

  /* What a worker's step keeps: worker w becomes x, the queues become input and output. */

  lemma WorkerKeepsJobs(s: State, w: nat, x: Worker, input: seq<Msg>, output: seq<Result>)
    requires JobsKept(s) && w < |s.workers|
    requires Gather(input, WorkOf) + HeldBy(x) + Gather(output, IdOf)
             == Gather(s.input, WorkOf) + HeldBy(s.workers[w]) + Gather(s.output, IdOf)
    ensures JobsKept(s.(workers := s.workers[w := x], input := input, output := output))
  {
    GatherUpdate(s.workers, w, x, HeldBy);
    Balance(Gather(input, WorkOf), Gather(s.workers[w := x], HeldBy), Gather(output, IdOf), HeldBy(x),
            Gather(s.input, WorkOf), Gather(s.workers, HeldBy), Gather(s.output, IdOf), HeldBy(s.workers[w]));
  }

  // Jobs leaving a held one, in a sum of three places.
  lemma Balance(a: multiset<nat>, b: multiset<nat>, c: multiset<nat>, x: multiset<nat>,
                p: multiset<nat>, q: multiset<nat>, r: multiset<nat>, y: multiset<nat>)
    requires a + x + c == p + y + r && b + y == q + x
    ensures a + b + c == p + q + r
  {
    forall k: nat ensures (a + b + c)[k] == (p + q + r)[k] {
      assert (a + x + c)[k] == (p + y + r)[k] && (b + y)[k] == (q + x)[k];
    }
  }

  lemma WorkerKeepsPoison(main: Main, input: seq<Msg>, workers: seq<Worker>, w: nat, x: Worker)
    requires PoisonKept(main, input, workers) && w < |workers| && !workers[w].Gone? && !x.Gone?
    ensures PoisonKept(main, input, workers[w := x])
  {
    TallyUpdate(workers, w, x, IsGone);
  }

  lemma WorkerKeepsMain(s: State, w: nat, x: Worker)
    requires MainKept(s.main, s.skip, s.workers, s.collected) && w < |s.workers| && !s.workers[w].Gone?
    ensures MainKept(s.main, s.skip, s.workers[w := x], s.collected)
  {
  }

  lemma WorkerKeepsFair(s: State, w: nat, x: Worker, input: seq<Msg>, output: seq<Result>)
    requires AllFair(s) && w < |s.workers| && FairWorker(s.skip, s.threadExit, x)
    requires input == s.input || (s.input != [] && input == s.input[1..])
    requires output == s.output || exists r :: Fair(s.skip, s.threadExit, r) && output == s.output + [r]
    ensures AllFair(s.(workers := s.workers[w := x], input := input, output := output))
  {
    assert input != s.input ==> forall i :: 0 <= i < |input| ==> input[i] == s.input[i + 1];
  }

  lemma TakePoison(main: Main, input: seq<Msg>, workers: seq<Worker>, w: nat, x: Worker)
    requires PoisonKept(main, input, workers) && w < |workers| && !workers[w].Gone?
    requires input != [] && (input[0].Break? <==> x.Gone?)
    ensures PoisonKept(main, input[1..], workers[w := x])
  {
    TallyHead(input, IsBreak);
    TallyUpdate(workers, w, x, IsGone);
    TallyBounds(workers, IsGone);
    assert forall i :: 0 <= i < |input[1..]| ==> input[1..][i] == input[i + 1];
  }

  lemma TakeInv(s: State, w: nat)
    requires Inv(s) && Enabled(s, Take(w))
    ensures Inv(Next(s, Take(w)))
  {
    hide JobsKept, PoisonKept, MainKept, Tally, Gather;
    var x := Next(s, Take(w)).workers[w];
    GatherHead(s.input, WorkOf);
    WorkerKeepsJobs(s, w, x, s.input[1..], s.output) by {
      assert Gather(s.input[1..], WorkOf) + HeldBy(x) == Gather(s.input, WorkOf);
    }
    TakePoison(s.main, s.input, s.workers, w, x);
    WorkerKeepsMain(s, w, x);
    WorkerKeepsFair(s, w, x, s.input[1..], s.output);
  }
  // A step inside the loop body, or the report that ends it.
  lemma LocalInv(s: State, e: Event)
    requires Inv(s) && Enabled(s, e) && (e.Decide? || e.Finish? || e.Report?)
    ensures Inv(Next(s, e))
  {
    hide JobsKept, PoisonKept, MainKept, Tally, Gather;
    var t := Next(s, e);
    var x := t.workers[e.w];
    if e.Report? {
      GatherSnoc(s.output, s.workers[e.w].result, IdOf);
    }
    WorkerKeepsJobs(s, e.w, x, s.input, t.output);
    WorkerKeepsPoison(s.main, s.input, s.workers, e.w, x);
    WorkerKeepsMain(s, e.w, x);
    WorkerKeepsFair(s, e.w, x, s.input, t.output);
  }

  /* What the main thread's steps keep. */

  lemma Added(a: multiset<nat>, b: multiset<nat>, c: multiset<nat>, d: multiset<nat>, x: multiset<nat>, all: multiset<nat>)
    requires a + b + c + d == all
    ensures (a + x) + b + c + d == all + x
  {
  }

  lemma Moved(a: multiset<nat>, b: multiset<nat>, c: multiset<nat>, d: multiset<nat>, x: multiset<nat>, all: multiset<nat>)
    requires a + b + (x + c) + d == all
    ensures a + b + c + (d + x) == all
  {
  }

  lemma DispatchKeepsJobs(s: State, i: nat)
    requires JobsKept(s) && s.main == Dispatching(i) && i < |s.skip|
    ensures JobsKept(s.(input := s.input + [Work(i)], main := Dispatching(i + 1)))
  {
    hide Gather;
    GatherSnoc(s.input, Work(i), WorkOf);
    Added(Gather(s.input, WorkOf), Gather(s.workers, HeldBy), Gather(s.output, IdOf), Gather(s.collected, IdOf),
          multiset{i}, UpTo(i));
  }

  lemma CollectKeepsJobs(s: State, i: nat)
    requires JobsKept(s) && s.main == Collecting(i) && i < |s.skip| && s.output != []
    ensures JobsKept(s.(collected := s.collected + [s.output[0]], output := s.output[1..], main := Collecting(i + 1)))
  {
    hide Gather;
    GatherHead(s.output, IdOf);
    GatherSnoc(s.collected, s.output[0], IdOf);
    Moved(Gather(s.input, WorkOf), Gather(s.workers, HeldBy), Gather(s.output[1..], IdOf), Gather(s.collected, IdOf),
          IdOf(s.output[0]), UpTo(|s.skip|));
  }

  // Steps that put or take no job.
  lemma OtherKeepsJobs(s: State, input: seq<Msg>, main: Main)
    requires JobsKept(s) && Gather(input, WorkOf) == Gather(s.input, WorkOf)
    requires Dispatched(main, |s.skip|) == Dispatched(s.main, |s.skip|)
    requires CollectedCount(main, |s.skip|) == CollectedCount(s.main, |s.skip|)
    ensures JobsKept(s.(input := input, main := main))
  {
  }

  lemma MainKeepsJobs(s: State)
    requires Inv(s) && Enabled(s, MainStep)
    ensures JobsKept(NextMain(s))
  {
    hide Gather, PoisonKept, AllFair, Tally, JobsKept;
    match s.main
    case Dispatching(i) =>
      if i < |s.skip| { DispatchKeepsJobs(s, i); } else { OtherKeepsJobs(s, s.input, Poisoning(0)); }
    case Poisoning(i) =>
      if i < |s.workers| {
        GatherSnoc(s.input, Break, WorkOf);
        OtherKeepsJobs(s, s.input + [Break], Poisoning(i + 1));
      } else {
        OtherKeepsJobs(s, s.input, Collecting(0));
      }
    case Collecting(i) =>
      if i < |s.skip| { CollectKeepsJobs(s, i); } else { OtherKeepsJobs(s, s.input, Joining(0)); }
    case Joining(_) => OtherKeepsJobs(s, s.input, NextMain(s).main);
  }

  lemma MainKeepsPoison(s: State)
    requires Inv(s) && Enabled(s, MainStep)
    ensures var t := NextMain(s); PoisonKept(t.main, t.input, t.workers)
  {
    hide Gather, JobsKept, AllFair, Tally;
    TallyBounds(s.input, IsBreak);
    match s.main
    case Dispatching(i) => if i < |s.skip| { TallySnoc(s.input, Work(i), IsBreak); }
    case Poisoning(i) => if i < |s.workers| { TallySnoc(s.input, Break, IsBreak); }
    case _ =>
  }

  lemma MainKeepsFair(s: State)
    requires Inv(s) && Enabled(s, MainStep)
    ensures AllFair(NextMain(s))
  {
    hide Gather, JobsKept, PoisonKept, Tally, FairWorker, Fair;
  }

  lemma MainKeepsMain(s: State)
    requires Inv(s) && Enabled(s, MainStep)
    ensures var t := NextMain(s); MainKept(t.main, t.skip, t.workers, t.collected)
  {
    hide Gather, JobsKept, PoisonKept, Tally, AllFair;
  }

  lemma InterruptInv(s: State)
    requires Inv(s) && !s.threadExit
    ensures Inv(Next(s, Interrupt))
  {
    hide Gather, Tally;
  }

  /** Every step, of whichever thread, keeps the invariant. */
  lemma StepInv(s: State, e: Event)
    requires Inv(s) && Enabled(s, e)
    ensures Inv(Next(s, e))
  {
    hide JobsKept, PoisonKept, MainKept, AllFair;
    match e
    case MainStep =>
      MainKeepsJobs(s);
      MainKeepsPoison(s);
      MainKeepsFair(s);
      MainKeepsMain(s);
    case Take(w) => TakeInv(s, w);
    case Interrupt => InterruptInv(s);
    case _ => LocalInv(s, e);
  }

  /* No deadlock. */

  // A step a thread takes by itself, without an interrupt.
  ghost predicate Moves(s: State) {
    exists e :: e != Interrupt && Enabled(s, e)
  }

  predicate Busy(w: Worker) { w.Holding? || w.Running? || w.Reporting? }

  lemma BusyMoves(s: State, w: nat)
    requires Inv(s) && w < |s.workers| && Busy(s.workers[w])
    ensures Moves(s)
  {
    match s.workers[w]
    case Holding(_) => assert Enabled(s, Decide(w));
    case Running(_) => assert Enabled(s, Finish(w, 0));
    case Reporting(_) => assert Enabled(s, Report(w));
  }

  lemma WaitingMoves(s: State, w: nat)
    requires w < |s.workers| && s.workers[w].Waiting? && s.input != []
    ensures Moves(s)
  {
    assert Enabled(s, Take(w));
  }

  lemma IdleHoldNothing(ws: seq<Worker>)
    requires forall w :: 0 <= w < |ws| ==> !Busy(ws[w])
    ensures Gather(ws, HeldBy) == multiset{}
  {
    GatherHas(ws, HeldBy);
  }

  lemma {:induction false} IdsCount(rs: seq<Result>)
    ensures |Gather(rs, IdOf)| == |rs|
  {
    if rs != [] { IdsCount(rs[..|rs|-1]); }
  }

  // Jobs still missing while nothing is held or in the output queue wait in the input queue,
  // and then no worker has gone.
  lemma CollectorFed(s: State)
    requires Inv(s) && s.main.Collecting? && s.main.i < |s.skip| && s.output == []
    requires forall w :: 0 <= w < |s.workers| ==> !Busy(s.workers[w])
    ensures s.input != [] && s.workers[0].Waiting?
  {
    hide AllFair;
    IdleHoldNothing(s.workers);
    UpToIs(|s.skip|);
    IdsCount(s.collected);
    GatherHas(s.input, WorkOf);
    TallyBounds(s.workers, IsGone);
  }

  // With every result in, no worker holds a job.
  lemma JoinerAlone(s: State)
    requires Inv(s) && (s.main.Joining? || s.main.Returned?)
    ensures s.output == [] && forall i :: 0 <= i < |s.input| ==> s.input[i].Break?
    ensures forall w :: 0 <= w < |s.workers| ==> !Busy(s.workers[w])
  {
    hide AllFair, PoisonKept, MainKept, Gather;
    UpToIs(|s.skip|);
    IdsCount(s.collected);
    IdsCount(s.output);
    Emptied(Gather(s.input, WorkOf), Gather(s.workers, HeldBy), Gather(s.output, IdOf), Gather(s.collected, IdOf),
            UpTo(|s.skip|));
    GatherHas(s.input, WorkOf);
    GatherHas(s.workers, HeldBy);
  }

  lemma Emptied(a: multiset<nat>, b: multiset<nat>, c: multiset<nat>, d: multiset<nat>, all: multiset<nat>)
    requires a + b + c + d == all && |d| == |all|
    ensures a == multiset{} && b == multiset{} && c == multiset{} && d == all
  {
    assert |a + b + c + d| == |a| + |b| + |c| + |d|;
  }

  // A worker that has not gone then has its poison waiting.
  lemma JoinerFed(s: State, w: nat)
    requires Inv(s) && s.main.Joining? && w < |s.workers| && !s.workers[w].Gone?
    ensures s.input != [] && s.workers[w].Waiting?
  {
    hide AllFair, JobsKept, MainKept;
    JoinerAlone(s);
    TallyBounds(s.workers, IsGone);
  }

  // The end of a run: everything dispatched has been collected, and nothing is left anywhere.
  lemma ReturnedIsDone(s: State)
    requires Inv(s) && s.main.Returned?
    ensures s.input == [] && s.output == [] && Gather(s.collected, IdOf) == UpTo(|s.skip|)
    ensures forall w :: 0 <= w < |s.workers| ==> s.workers[w].Gone?
  {
    JoinerAlone(s);
    TallyBounds(s.workers, IsGone);
    TallyBounds(s.input, IsBreak);
    GatherHas(s.workers, HeldBy);
  }

  /** Nobody waits for ever: as long as the main thread has not returned, some thread can take a
      step by itself. */
  lemma NeverBlocked(s: State)
    requires Inv(s)
    ensures Moves(s) <==> !s.main.Returned?
  {
    hide JobsKept, PoisonKept, AllFair;
    if w: nat :| w < |s.workers| && Busy(s.workers[w]) {
      BusyMoves(s, w);
      if s.main.Returned? { ReturnedIsDone(s); }
    } else {
      match s.main
      case Dispatching(_) => assert Enabled(s, MainStep);
      case Poisoning(_) => assert Enabled(s, MainStep);
      case Collecting(i) =>
        if i < |s.skip| && s.output == [] {
          CollectorFed(s);
          WaitingMoves(s, 0);
        } else {
          assert Enabled(s, MainStep);
        }
      case Joining(i) =>
        if i < |s.workers| && !s.workers[i].Gone? {
          JoinerFed(s, i);
          WaitingMoves(s, i);
        } else {
          assert Enabled(s, MainStep);
        }
      case Returned(_) => ReturnedIsDone(s);
    }
  }

  /* Runs. */

  ghost predicate Run(s: State, es: seq<Event>, t: State)
    decreases |es|
  {
    if es == [] then t == s else Enabled(s, es[0]) && Run(Next(s, es[0]), es[1..], t)
  }

  lemma {:induction false} RunInv(s: State, es: seq<Event>, t: State)
    requires Inv(s) && Run(s, es, t)
    decreases |es|
    ensures Inv(t) && t.skip == s.skip && |t.workers| == |s.workers|
  {
    hide Inv;
    if es != [] {
      StepInv(s, es[0]);
      RunInv(Next(s, es[0]), es[1..], t);
    }
  }

  /* Every step uses up some of the work left. */

  function MsgCost(m: Msg): nat { if m.Work? then 4 else 1 }

  function WorkerCost(w: Worker): nat {
    match w case Holding(_) => 3 case Running(_) => 2 case Reporting(_) => 1 case _ => 0
  }

  ghost function Total<T>(q: seq<T>, cost: T -> nat): nat {
    if q == [] then 0 else cost(q[0]) + Total(q[1..], cost)
  }

  // Steps the main thread has left, and those its messages will still cost the workers.
  function MainCost(main: Main, jobs: nat, workers: nat): int {
    match main
    case Dispatching(i) => 5 * (jobs - i) + 1 + 2 * workers + 1 + jobs + 1 + workers + 1
    case Poisoning(i) => 2 * (workers - i) + 1 + jobs + 1 + workers + 1
    case Collecting(i) => jobs - i + 1 + workers + 1
    case Joining(i) => workers - i + 1
    case Returned(_) => 0
  }

  ghost function WorkLeft(s: State): int {
    MainCost(s.main, |s.skip|, |s.workers|) + Total(s.input, MsgCost) + Total(s.workers, WorkerCost)
    + if s.threadExit then 0 else 1
  }

  lemma {:induction false} TotalSnoc<T>(q: seq<T>, x: T, cost: T -> nat)
    ensures Total(q + [x], cost) == Total(q, cost) + cost(x)
  {
    if q == [] {
      assert [x][1..] == [];
    } else {
      TotalSnoc(q[1..], x, cost);
      assert (q + [x])[1..] == q[1..] + [x];
    }
  }

  lemma {:induction false} TotalUpdate<T>(q: seq<T>, k: nat, x: T, cost: T -> nat)
    requires k < |q|
    ensures Total(q[k := x], cost) + cost(q[k]) == Total(q, cost) + cost(x)
  {
    if k == 0 {
      assert q[0 := x][1..] == q[1..];
    } else {
      TotalUpdate(q[1..], k - 1, x, cost);
      assert q[k := x][1..] == q[1..][k - 1 := x];
    }
  }

  lemma MainUsesWork(s: State)
    requires Inv(s) && Enabled(s, MainStep)
    ensures WorkLeft(NextMain(s)) < WorkLeft(s)
  {
    hide JobsKept, PoisonKept, AllFair, Total;
    match s.main
    case Dispatching(i) => if i < |s.skip| { TotalSnoc(s.input, Work(i), MsgCost); }
    case Poisoning(i) => if i < |s.workers| { TotalSnoc(s.input, Break, MsgCost); }
    case _ =>
  }

  lemma WorkerUsesWork(s: State, w: nat, x: Worker, input: seq<Msg>, output: seq<Result>)
    requires w < |s.workers|
    requires Total(input, MsgCost) + WorkerCost(x) < Total(s.input, MsgCost) + WorkerCost(s.workers[w])
    ensures WorkLeft(s.(workers := s.workers[w := x], input := input, output := output)) < WorkLeft(s)
  {
    hide Total, MainCost;
    TotalUpdate(s.workers, w, x, WorkerCost);
  }

  /** Every step uses up some of the work left. */
  lemma StepUsesWork(s: State, e: Event)
    requires Inv(s) && Enabled(s, e)
    ensures 0 <= WorkLeft(Next(s, e)) < WorkLeft(s)
  {
    hide Inv;
    StepInv(s, e);
    WorkLeftNat(Next(s, e));
    match e
    case MainStep => MainUsesWork(s);
    case Take(w) => WorkerUsesWork(s, w, Next(s, e).workers[w], s.input[1..], s.output);
    case Interrupt =>
    case _ => WorkerUsesWork(s, e.w, Next(s, e).workers[e.w], s.input, Next(s, e).output);
  }

  lemma WorkLeftNat(s: State)
    requires Inv(s)
    ensures WorkLeft(s) >= 0
  {
    hide JobsKept, PoisonKept, AllFair, Total;
  }

  lemma {:induction false} RunLength(s: State, es: seq<Event>, t: State)
    requires Inv(s) && Run(s, es, t)
    ensures |es| + WorkLeft(t) <= WorkLeft(s)
    decreases |es|
  {
    hide Inv, WorkLeft;
    if es != [] {
      StepUsesWork(s, es[0]);
      StepInv(s, es[0]);
      RunLength(Next(s, es[0]), es[1..], t);
    }
  }

  lemma {:induction false} NothingToDo(ws: seq<Worker>)
    requires forall w :: 0 <= w < |ws| ==> ws[w].Waiting?
    ensures Total(ws, WorkerCost) == 0
  {
    if ws != [] { NothingToDo(ws[1..]); }
  }

  /** From the start, with n jobs and P workers, no run takes more than 6n + 3P + 5 steps,
      however the threads interleave; and a run that cannot go on has returned. */
  lemma EveryRunEnds(s: State, es: seq<Event>, t: State)
    requires Initial(s) && Run(s, es, t)
    ensures |es| <= 6 * |s.skip| + 3 * |s.workers| + 5
    ensures !Moves(t) <==> t.main.Returned?
  {
    InitialInv(s);
    RunInv(s, es, t);
    RunLength(s, es, t);
    NothingToDo(s.workers);
    NeverBlocked(t);
    WorkLeftNat(t);
  }

  /** When the main thread has returned, every dispatched job has come back exactly once, no
      message is left in either queue, and every worker has gone. */
  lemma EveryJobComesBack(s: State, es: seq<Event>, t: State)
    requires Initial(s) && Run(s, es, t) && t.main.Returned?
    ensures |t.collected| == |s.skip|
    ensures forall id: nat :: id < |s.skip| ==> BackOnce(t.collected, id)
    ensures t.input == [] && t.output == [] && forall w :: 0 <= w < |t.workers| ==> t.workers[w].Gone?
  {
    InitialInv(s);
    RunInv(s, es, t);
    ReturnedIsDone(t);
    UpToIs(|s.skip|);
    forall id: nat | id < |s.skip| ensures BackOnce(t.collected, id) {
      OnlyResult(t.collected, id);
    }
  }

  // Result i, and no other, is that of job id.
  ghost predicate IsTheResult(rs: seq<Result>, id: nat, i: nat) {
    i < |rs| && rs[i].id == id && forall j :: 0 <= j < |rs| && rs[j].id == id ==> j == i
  }

  ghost predicate BackOnce(rs: seq<Result>, id: nat) {
    exists i :: IsTheResult(rs, id, i)
  }

  lemma NoResult(rs: seq<Result>, id: nat)
    requires Gather(rs, IdOf)[id] == 0
    ensures forall j :: 0 <= j < |rs| ==> rs[j].id != id
  {
    GatherHas(rs, IdOf);
    forall j | 0 <= j < |rs| ensures rs[j].id != id {
      assert IdOf(rs[j]) <= Gather(rs, IdOf);
      assert rs[j].id in IdOf(rs[j]);
    }
  }

  lemma {:induction false} OnlyResult(rs: seq<Result>, id: nat)
    requires Gather(rs, IdOf)[id] == 1
    ensures BackOnce(rs, id)
  {
    var last := |rs| - 1;
    var front := rs[..last];
    if rs[last].id == id {
      NoResult(front, id);
      assert forall j :: 0 <= j < last ==> front[j] == rs[j];
      assert IsTheResult(rs, id, last);
    } else {
      OnlyResult(front, id);
      var i :| IsTheResult(front, id, i);
      assert forall j :: 0 <= j < last ==> front[j] == rs[j];
      assert IsTheResult(rs, id, i);
    }
  }

  predicate Good(r: Result) { Passed(r) || Skip(r) }

  // The verdict is 0 exactly if each of the results passed or was skipped.
  lemma ExitCodeMeans(rs: seq<Result>)
    ensures ExitCode(rs, |rs|) == 0 <==> forall i :: 0 <= i < |rs| ==> Good(rs[i])
  {
    TallyEither(rs, Passed, Skip, Good);
    TallyBounds(rs, Good);
  }

  /** The run returns 0 exactly if every job was skipped because it was marked so, or ran to a
      return code of 0; a job broken off by an interrupt makes it 1. Without an interrupt no job
      is broken off. */
  lemma ReturnCode(s: State, es: seq<Event>, t: State)
    requires Initial(s) && Run(s, es, t) && t.main.Returned?
    ensures t.main.code == 0 <==> forall i :: 0 <= i < |t.collected| ==> Good(t.collected[i])
    ensures forall i :: 0 <= i < |t.collected| ==> Fair(s.skip, Interrupt in es, t.collected[i])
  {
    InitialInv(s);
    RunInv(s, es, t);
    ExitCodeMeans(t.collected);
    ExitOnlyByInterrupt(s, es, t);
  }

  lemma {:induction false} ExitOnlyByInterrupt(s: State, es: seq<Event>, t: State)
    requires Run(s, es, t)
    ensures t.threadExit <==> s.threadExit || Interrupt in es
    decreases |es|
  {
    if es != [] {
      ExitOnlyByInterrupt(Next(s, es[0]), es[1..], t);
    }
  }

  // How many poison jobs worker w takes in a run.
  ghost function PoisonTaken(s: State, es: seq<Event>, t: State, w: nat): nat
    requires Run(s, es, t)
    decreases |es|
  {
    if es == [] then 0
    else (if es[0] == Take(w) && s.input[0].Break? then 1 else 0) + PoisonTaken(Next(s, es[0]), es[1..], t, w)
  }

  function Went(s: State, w: nat): nat {
    if w < |s.workers| && s.workers[w].Gone? then 1 else 0
  }

  lemma {:induction false} PoisonIsFinal(s: State, es: seq<Event>, t: State, w: nat)
    requires Run(s, es, t)
    ensures Went(s, w) + PoisonTaken(s, es, t, w) == Went(t, w)
    decreases |es|
  {
    if es != [] {
      PoisonIsFinal(Next(s, es[0]), es[1..], t, w);
    }
  }

  /** In a run that has returned, each worker has taken exactly one poison job. */
  lemma OnePoisonEach(s: State, es: seq<Event>, t: State, w: nat)
    requires Initial(s) && Run(s, es, t) && t.main.Returned? && w < |s.workers|
    ensures PoisonTaken(s, es, t, w) == 1
  {
    InitialInv(s);
    RunInv(s, es, t);
    PoisonIsFinal(s, es, t, w);
  }

  /* The main thread's summary. */

  predicate Failed(r: Result) { r.Ran? && r.code == 1 }

  predicate Valgrind(r: Result) { r.Ran? && r.code == 2 }

  predicate Crashed(r: Result) { r.Ran? && r.code != 0 && r.code != 1 && r.code != 2 }

  predicate Broken(r: Result) { r.Interrupted? }

  /** The collecting loop over the results in the order they arrive, and the code returned. Every
      result falls under exactly one head. */
  method Summarise(results: seq<Result>)
    returns (passed: nat, failed: nat, valgrind: nat, crashed: nat, skipped: nat, code: nat)
    ensures passed == Tally(results, Passed) && skipped == Tally(results, Skip) && failed == Tally(results, Failed)
    ensures valgrind == Tally(results, Valgrind) && crashed == Tally(results, Crashed)
    ensures passed + failed + valgrind + crashed + skipped + Tally(results, Broken) == |results|
    ensures code == ExitCode(results, |results|)
    ensures code == 0 <==> failed + valgrind + crashed + Tally(results, Broken) == 0
  {
    passed, failed, valgrind, crashed, skipped := 0, 0, 0, 0, 0;
    for i := 0 to |results|
      invariant passed == Tally(results[..i], Passed) && skipped == Tally(results[..i], Skip)
      invariant failed == Tally(results[..i], Failed) && valgrind == Tally(results[..i], Valgrind)
      invariant crashed == Tally(results[..i], Crashed)
      invariant passed + failed + valgrind + crashed + skipped + Tally(results[..i], Broken) == i
    {
      var r := results[i];
      assert results[..i + 1][..i] == results[..i];
      if r.Interrupted? {
        continue;
      }
      if r.Skipped? {
        skipped := skipped + 1;
      } else if r.code == 0 {
        passed := passed + 1;
      } else if r.code == 1 {
        failed := failed + 1;
      } else if r.code == 2 {
        valgrind := valgrind + 1;
      } else {
        crashed := crashed + 1;
      }
    }
    assert results[..|results|] == results;
    code := if passed + skipped == |results| then 0 else 1;
  }
}
