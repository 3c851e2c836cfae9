/** The worker pool of test.py: worker threads and the main thread exchange jobs through two
    FIFO queues, and an interrupt may come at any moment. */
module WorkerPool {

  // A message of the input queue: job `id`, or the poison job that stops a worker.
  datatype Msg = Work(id: nat) | Break

  // A job put on the output queue: broken off, skipped, or run with a return code.
  datatype Result = Interrupted(id: nat) | Skipped(id: nat) | Ran(id: nat, code: int)

  // Where a worker stands in its loop.
  datatype Worker = Waiting | Holding(id: nat) | Running(id: nat) | Reporting(result: Result) | Gone

  // Where the main thread stands: putting jobs, putting poison jobs, collecting, joining, returned.
  datatype Main = Dispatching(i: nat) | Poisoning(i: nat) | Collecting(i: nat) | Joining(i: nat) | Returned(code: nat)

  // skip[id] says whether job id is to be skipped.
  datatype State = State(skip: seq<bool>, main: Main, input: seq<Msg>, output: seq<Result>, workers: seq<Worker>,
                         threadExit: bool, collected: seq<Result>)

  // One atomic step: of the main thread, of worker w, or the interrupt handler. A running job
  // may return any code.
  datatype Event = MainStep | Take(w: nat) | Decide(w: nat) | Finish(w: nat, code: int) | Report(w: nat) | Interrupt

  predicate Enabled(s: State, e: Event) {
    match e
    case MainStep => (match s.main
                      case Dispatching(_) => true
                      case Poisoning(_) => true
                      case Collecting(i) => i < |s.skip| ==> s.output != []
                      case Joining(i) => i < |s.workers| ==> s.workers[i].Gone?
                      case Returned(_) => false)
    case Take(w) => w < |s.workers| && s.workers[w].Waiting? && s.input != []
    case Decide(w) => w < |s.workers| && s.workers[w].Holding? && s.workers[w].id < |s.skip|
    case Finish(w, _) => w < |s.workers| && s.workers[w].Running?
    case Report(w) => w < |s.workers| && s.workers[w].Reporting?
    case Interrupt => !s.threadExit
  }

  function Tally<T>(q: seq<T>, p: T -> bool): nat {
    if q == [] then 0 else Tally(q[..|q|-1], p) + if p(q[|q|-1]) then 1 else 0
  }

  predicate Passed(r: Result) { r.Ran? && r.code == 0 }

  predicate Skip(r: Result) { r.Skipped? }

  // 0 exactly if passed_tests + skipped_tests == total_tests.
  function ExitCode(results: seq<Result>, total: nat): nat {
    if Tally(results, Passed) + Tally(results, Skip) == total then 0 else 1
  }

  function NextMain(s: State): State
    requires Enabled(s, MainStep)
  {
    match s.main
    case Dispatching(i) =>
      if i < |s.skip| then s.(input := s.input + [Work(i)], main := Dispatching(i + 1)) else s.(main := Poisoning(0))
    case Poisoning(i) =>
      if i < |s.workers| then s.(input := s.input + [Break], main := Poisoning(i + 1)) else s.(main := Collecting(0))
    case Collecting(i) =>
      if i < |s.skip| then s.(collected := s.collected + [s.output[0]], output := s.output[1..], main := Collecting(i + 1))
      else s.(main := Joining(0))
    case Joining(i) =>
      if i < |s.workers| then s.(main := Joining(i + 1)) else s.(main := Returned(ExitCode(s.collected, |s.skip|)))
  }

  function Next(s: State, e: Event): State
    requires Enabled(s, e)
  {
    match e
    case MainStep => NextMain(s)
    case Take(w) =>
      s.(input := s.input[1..], workers := s.workers[w := if s.input[0].Break? then Gone else Holding(s.input[0].id)])
    case Decide(w) =>
      var id := s.workers[w].id;
      s.(workers := s.workers[w := if s.threadExit then Reporting(Interrupted(id))
                                   else if s.skip[id] then Reporting(Skipped(id)) else Running(id)])
    case Finish(w, code) => s.(workers := s.workers[w := Reporting(Ran(s.workers[w].id, code))])
    case Report(w) => s.(output := s.output + [s.workers[w].result], workers := s.workers[w := Waiting])
    case Interrupt => s.(threadExit := true)
  }

  ghost predicate Initial(s: State) {
    && s.main == Dispatching(0) && s.input == [] && s.output == [] && s.collected == [] && !s.threadExit
    && |s.workers| >= 1 && forall w :: 0 <= w < |s.workers| ==> s.workers[w] == Waiting
  }

  // The ids found along a sequence.
  ghost function Gather<T>(q: seq<T>, ids: T -> multiset<nat>): multiset<nat> {
    if q == [] then multiset{} else Gather(q[..|q|-1], ids) + ids(q[|q|-1])
  }

  function WorkOf(m: Msg): multiset<nat> { if m.Work? then multiset{m.id} else multiset{} }

  function HeldBy(w: Worker): multiset<nat> {
    match w
    case Holding(id) => multiset{id}
    case Running(id) => multiset{id}
    case Reporting(r) => multiset{r.id}
    case _ => multiset{}
  }

  function IdOf(r: Result): multiset<nat> { multiset{r.id} }

  predicate IsBreak(m: Msg) { m.Break? }

  predicate IsGone(w: Worker) { w.Gone? }

  ghost function UpTo(n: nat): multiset<nat> {
    if n == 0 then multiset{} else UpTo(n - 1) + multiset{n - 1}
  }

  function Dispatched(main: Main, jobs: nat): nat {
    match main case Dispatching(i) => i case _ => jobs
  }

  function Poisoned(main: Main, workers: nat): nat {
    match main case Dispatching(_) => 0 case Poisoning(i) => i case _ => workers
  }

  function CollectedCount(main: Main, jobs: nat): nat {
    match main case Collecting(i) => i case Joining(_) => jobs case Returned(_) => jobs case _ => 0
  }

  function Joined(main: Main, workers: nat): nat {
    match main case Joining(i) => i case Returned(_) => workers case _ => 0
  }

  // Every dispatched job is in exactly one place.
  ghost predicate JobsKept(s: State) {
    && Gather(s.input, WorkOf) + Gather(s.workers, HeldBy) + Gather(s.output, IdOf) + Gather(s.collected, IdOf)
       == UpTo(Dispatched(s.main, |s.skip|))
    && |s.collected| == CollectedCount(s.main, |s.skip|)
  }

  // The poison jobs queued and the workers gone make up the poison put; it stands behind all
  // jobs, and no worker goes before the last job has been taken.
  ghost predicate PoisonKept(main: Main, input: seq<Msg>, workers: seq<Worker>) {
    && Tally(input, IsBreak) + Tally(workers, IsGone) == Poisoned(main, |workers|)
    && (forall i, j :: 0 <= i < j < |input| && input[i].Break? ==> input[j].Break?)
    && (Tally(workers, IsGone) > 0 ==> forall i :: 0 <= i < |input| ==> input[i].Break?)
  }

  // A result tells the truth about its job: skipped or run as marked, broken off only after an
  // interrupt.
  predicate Fair(skip: seq<bool>, threadExit: bool, r: Result) {
    r.id < |skip| && (r.Skipped? ==> skip[r.id]) && (r.Ran? ==> !skip[r.id]) && (r.Interrupted? ==> threadExit)
  }

  ghost predicate FairWorker(skip: seq<bool>, threadExit: bool, w: Worker) {
    && (w.Holding? ==> w.id < |skip|) && (w.Running? ==> w.id < |skip| && !skip[w.id])
    && (w.Reporting? ==> Fair(skip, threadExit, w.result))
  }

  ghost predicate AllFair(s: State) {
    && (forall i :: 0 <= i < |s.input| && s.input[i].Work? ==> s.input[i].id < |s.skip|)
    && (forall w :: 0 <= w < |s.workers| ==> FairWorker(s.skip, s.threadExit, s.workers[w]))
    && (forall i :: 0 <= i < |s.output| ==> Fair(s.skip, s.threadExit, s.output[i]))
    && (forall i :: 0 <= i < |s.collected| ==> Fair(s.skip, s.threadExit, s.collected[i]))
  }

  ghost predicate MainKept(main: Main, skip: seq<bool>, workers: seq<Worker>, collected: seq<Result>) {
    && |workers| >= 1
    && (main.Dispatching? ==> main.i <= |skip|) && (main.Poisoning? ==> main.i <= |workers|)
    && (main.Collecting? ==> main.i <= |skip|) && (main.Joining? ==> main.i <= |workers|)
    && (forall w :: 0 <= w < Joined(main, |workers|) ==> workers[w].Gone?)
    && (main.Returned? ==> main.code == ExitCode(collected, |skip|))
  }

  ghost predicate Inv(s: State) {
    && MainKept(s.main, s.skip, s.workers, s.collected)
    && JobsKept(s) && PoisonKept(s.main, s.input, s.workers) && AllFair(s)
  }

  /* Sums along sequences. */

  lemma {:induction false} GatherSnoc<T>(q: seq<T>, x: T, ids: T -> multiset<nat>)
    ensures Gather(q + [x], ids) == Gather(q, ids) + ids(x)
  {
    assert (q + [x])[..|q|] == q;
  }

  lemma {:induction false} GatherHead<T>(q: seq<T>, ids: T -> multiset<nat>)
    requires q != []
    ensures Gather(q, ids) == ids(q[0]) + Gather(q[1..], ids)
  {
    if |q| == 1 {
      assert q[..0] == [] && q[1..] == [];
    } else {
      var front := q[..|q|-1];
      GatherHead(front, ids);
      assert front[1..] == q[1..][..|q|-2];
    }
  }

  lemma Regroup(a: multiset<nat>, b: multiset<nat>, c: multiset<nat>, d: multiset<nat>, e: multiset<nat>)
    requires a + b == c + d
    ensures (a + e) + b == (c + e) + d
  {
    assert (a + e) + b == (a + b) + e;
  }

  lemma {:induction false} GatherUpdate<T>(q: seq<T>, k: nat, x: T, ids: T -> multiset<nat>)
    requires k < |q|
    ensures Gather(q[k := x], ids) + ids(q[k]) == Gather(q, ids) + ids(x)
  {
    var front := q[..|q|-1];
    if k == |q| - 1 {
      assert q[k := x][..|q|-1] == front;
    } else {
      GatherUpdate(front, k, x, ids);
      assert q[k := x][..|q|-1] == front[k := x] && q[k := x][|q|-1] == q[|q|-1];
      Regroup(Gather(front[k := x], ids), ids(q[k]), Gather(front, ids), ids(x), ids(q[|q|-1]));
    }
  }

  lemma {:induction false} GatherHas<T>(q: seq<T>, ids: T -> multiset<nat>)
    ensures forall k :: 0 <= k < |q| ==> ids(q[k]) <= Gather(q, ids)
    ensures (forall k :: 0 <= k < |q| ==> ids(q[k]) == multiset{}) <==> Gather(q, ids) == multiset{}
  {
    if q != [] {
      GatherHas(q[..|q|-1], ids);
      assert forall k :: 0 <= k < |q| - 1 ==> q[..|q|-1][k] == q[k];
    }
  }

  lemma {:induction false} TallySnoc<T>(q: seq<T>, x: T, p: T -> bool)
    ensures Tally(q + [x], p) == Tally(q, p) + if p(x) then 1 else 0
  {
    assert (q + [x])[..|q|] == q;
  }

  lemma {:induction false} TallyHead<T>(q: seq<T>, p: T -> bool)
    requires q != []
    ensures Tally(q, p) == Tally(q[1..], p) + if p(q[0]) then 1 else 0
  {
    if |q| == 1 {
      assert q[..0] == [] && q[1..] == [];
    } else {
      var front := q[..|q|-1];
      TallyHead(front, p);
      assert front[1..] == q[1..][..|q|-2];
    }
  }

  lemma {:induction false} TallyUpdate<T>(q: seq<T>, k: nat, x: T, p: T -> bool)
    requires k < |q|
    ensures Tally(q[k := x], p) + (if p(q[k]) then 1 else 0) == Tally(q, p) + if p(x) then 1 else 0
  {
    var front := q[..|q|-1];
    if k == |q| - 1 {
      assert q[k := x][..|q|-1] == front;
    } else {
      TallyUpdate(front, k, x, p);
      assert q[k := x][..|q|-1] == front[k := x];
    }
  }

  lemma {:induction false} TallyBounds<T>(q: seq<T>, p: T -> bool)
    ensures Tally(q, p) <= |q|
    ensures Tally(q, p) == 0 <==> forall k :: 0 <= k < |q| ==> !p(q[k])
    ensures Tally(q, p) == |q| <==> forall k :: 0 <= k < |q| ==> p(q[k])
  {
    if q != [] {
      var front := q[..|q|-1];
      TallyBounds(front, p);
      assert forall k :: 0 <= k < |front| ==> front[k] == q[k];
    }
  }

  lemma {:induction false} TallyEither<T>(q: seq<T>, p: T -> bool, r: T -> bool, either: T -> bool)
    requires forall x :: !(p(x) && r(x)) && (either(x) <==> p(x) || r(x))
    ensures Tally(q, p) + Tally(q, r) == Tally(q, either)
  {
    if q != [] {
      TallyEither(q[..|q|-1], p, r, either);
    }
  }

  lemma {:induction false} UpToIs(n: nat)
    ensures forall k: nat :: UpTo(n)[k] == if k < n then 1 else 0
    ensures |UpTo(n)| == n
  {
    if n > 0 { UpToIs(n - 1); }
  }
}
