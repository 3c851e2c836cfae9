/** The step barrier for collectives in scratch/network-load-balance.cc: the flows of one step
    start only when all flows of the step before have been received. */
module StepBarrier {
  datatype Task = Task(src: nat, dst: nat, pg: nat, size: real)

  // A line of the flow file: a task and the step it belongs to, ...
  datatype Line = Line(task: Task, step: nat)

  // ... as it stands there: the step may have a fraction, which the reader cuts off.
  datatype RawLine = RawLine(task: Task, stepRaw: real)

  const STEP_LIMIT: real := 4294967296.0

  // Cut towards zero, which is defined where the result is a 32-bit number.
  function Truncated(x: real): (n: nat)
    requires -1.0 < x
    ensures if x < 0.0 then n == 0 else n as real <= x < n as real + 1.0
  {
    if x < 0.0 then 0 else x.Floor
  }

  predicate Readable(raw: RawLine) { -1.0 < raw.stepRaw < STEP_LIMIT }

  /** The lines with their tasks, in order, and whole steps. */
  function ReadAll(raws: seq<RawLine>): (lines: seq<Line>)
    requires forall i :: 0 <= i < |raws| ==> Readable(raws[i])
    ensures |lines| == |raws| && forall i :: 0 <= i < |raws| ==> lines[i].task == raws[i].task
    ensures forall i :: 0 <= i < |raws| ==>
              if raws[i].stepRaw < 0.0 then lines[i].step == 0
              else lines[i].step as real <= raws[i].stepRaw < lines[i].step as real + 1.0
  {
    seq(|raws|, i requires 0 <= i < |raws| && Readable(raws[i]) => Line(raws[i].task, Truncated(raws[i].stepRaw)))
  }

  // A 16-bit port number.
  type Port = x: nat | x < 0x1_0000

  // A flow in the network, as installed by ExecuteStep.
  datatype Flow = Flow(step: nat, task: Task, sport: Port, dport: Port)

  /** The globals of the barrier, with what the simulator holds for it: the scheduled calls of
      ExecuteStep and the flows in flight. `started` logs the steps that were started, and
      `received` the flows that have finished. */
  datatype State = State(
    tasks: map<nat, seq<Task>>, totals: map<nat, nat>, finished: map<nat, nat>,
    active: nat, maxStep: nat, flowNum: nat, cntFinished: nat,
    sports: map<nat, Port>, dports: map<nat, Port>,
    pending: multiset<nat>, inFlight: multiset<Flow>, started: seq<nat>, received: multiset<Flow>)

  // operator[] on a counter: a missing key reads as 0.
  function Count(m: map<nat, nat>, k: nat): nat {
    if k in m then m[k] else 0
  }

  // ++ on a counter.
  function Incremented(m: map<nat, nat>, k: nat): map<nat, nat> {
    m[k := Count(m, k) + 1]
  }

  // push_back on a list of a map: a missing key reads as the empty list.
  function Appended(m: map<nat, seq<Task>>, k: nat, t: Task): map<nat, seq<Task>> {
    m[k := (if k in m then m[k] else []) + [t]]
  }

  // operator[] on a port counter.
  function Next(m: map<nat, Port>, k: nat): Port {
    if k in m then m[k] else 0
  }

  // A port counter after post-increment.
  function Bump(m: map<nat, Port>, k: nat): map<nat, Port> {
    m[k := Wrap(Next(m, k) + 1)]
  }

  // The value kept in 16 bits.
  function Wrap(x: nat): Port { x % 0x1_0000 }

  // The port counters and the network.
  datatype Wire = Wire(sports: map<nat, Port>, dports: map<nat, Port>, inFlight: multiset<Flow>)

  // The loop of ExecuteStep over the tasks of a step.
  function Launch(step: nat, ts: seq<Task>, w: Wire): Wire
    decreases |ts|
  {
    if ts == [] then w else Launch(step, ts[1..], LaunchOne(step, ts[0], w))
  }

  function LaunchOne(step: nat, t: Task, w: Wire): Wire {
    Wire(Bump(w.sports, t.src), Bump(w.dports, t.dst),
         w.inFlight + multiset{Flow(step, t, Next(w.sports, t.src), Next(w.dports, t.dst))})
  }

  function Execute(s: State, step: nat): State {
    if step !in s.tasks then s
    else
      var w := Launch(step, s.tasks[step], Wire(s.sports, s.dports, s.inFlight));
      s.(active := step, started := s.started + [step], sports := w.sports, dports := w.dports, inFlight := w.inFlight)
  }

  // rx_flow_finish
  function Finish(s: State, f: Flow): State {
    var k := f.step;
    var fin := Incremented(s.finished, k);
    s.(cntFinished := s.cntFinished + 1, finished := fin, inFlight := s.inFlight - multiset{f}, received := s.received + multiset{f},
       pending := if Count(fin, k) == Count(s.totals, k) && k < s.maxStep then Schedule(s.pending, k + 1) else s.pending)
  }

  // Simulator::Schedule of one more call of ExecuteStep.
  function Schedule(pending: multiset<nat>, k: nat): multiset<nat> {
    pending + multiset{k}
  }

  // stop_simulation_middle
  predicate Stops(s: State) {
    s.cntFinished >= s.flowNum
  }

  /** One event: a scheduled step is executed, or some flow in flight is received completely. */
  ghost predicate Step(s: State, t: State) {
    || (exists k :: k in s.pending && t == Execute(s.(pending := s.pending - multiset{k}), k))
    || (exists f :: f in s.inFlight && t == Finish(s, f))
  }

  function TasksOf(lines: seq<Line>, k: nat): (ts: seq<Task>)
    ensures |ts| <= |lines|
  {
    if lines == [] then [] else TasksOf(lines[..|lines|-1], k) + if lines[|lines|-1].step == k then [lines[|lines|-1].task] else []
  }

  // What PreloadCollectiveFlows makes of the flow file.
  ghost predicate Loaded(lines: seq<Line>, tasks: map<nat, seq<Task>>, totals: map<nat, nat>, maxStep: nat) {
    && (forall k: nat :: k in tasks <==> TasksOf(lines, k) != [])
    && (forall k :: k in tasks ==> tasks[k] == TasksOf(lines, k))
    && (forall k :: Count(totals, k) == |TasksOf(lines, k)|)
    && (forall k: nat :: TasksOf(lines, k) != [] ==> k <= maxStep)
    && (maxStep == 0 || TasksOf(lines, maxStep) != [])
  }

  ghost predicate Initial(lines: seq<Line>, s: State) {
    && Loaded(lines, s.tasks, s.totals, s.maxStep) && s.flowNum == |lines| && s.finished == map[] && s.cntFinished == 0
    && s.pending == (if lines == [] then multiset{} else multiset{0}) && s.inFlight == multiset{} && s.started == [] && s.received == multiset{}
  }

  // Flows of the first n steps, and how many of them have finished.
  function TotalTo(lines: seq<Line>, n: nat): nat {
    if n == 0 then 0 else TotalTo(lines, n - 1) + |TasksOf(lines, n - 1)|
  }

  function FinishedTo(m: map<nat, nat>, n: nat): nat {
    if n == 0 then 0 else FinishedTo(m, n - 1) + Count(m, n - 1)
  }

  // Steps were started in order from 0, each once.
  ghost predicate InOrder(started: seq<nat>, tasks: map<nat, seq<Task>>) {
    forall i :: 0 <= i < |started| ==> started[i] == i && i in tasks
  }

  // All flows of the steps before the last of n are finished, and none of later steps.
  ghost predicate EarlierDone(lines: seq<Line>, finished: map<nat, nat>, n: nat) {
    && (forall j: nat :: j + 1 < n ==> Count(finished, j) == |TasksOf(lines, j)|)
    && (forall j: nat :: j >= n ==> Count(finished, j) == 0)
  }

  // The flows of the last of n steps are finished or in flight, and nothing else is in flight.
  ghost predicate Accounted(lines: seq<Line>, finished: map<nat, nat>, inFlight: multiset<Flow>, n: nat) {
    if n == 0 then |inFlight| == 0
    else Count(finished, n - 1) + |inFlight| == |TasksOf(lines, n - 1)| && forall f :: f in inFlight ==> f.step == n - 1
  }

  // Only the next step can be scheduled, and it is as soon as nothing is in flight, if it exists.
  ghost predicate Scheduled(pending: multiset<nat>, inFlight: multiset<Flow>, tasks: map<nat, seq<Task>>, maxStep: nat, n: nat) {
    && (pending == multiset{} || (pending == multiset{n} && |inFlight| == 0 && n <= maxStep))
    && (|inFlight| == 0 && pending == multiset{} ==> n !in tasks)
  }

  /** What holds between any two events, with n steps started. */
  ghost predicate Inv(lines: seq<Line>, s: State) {
    var n := |s.started|;
    && Loaded(lines, s.tasks, s.totals, s.maxStep) && s.flowNum == |lines|
    && InOrder(s.started, s.tasks) && (n > 0 ==> s.active == n - 1)
    && EarlierDone(lines, s.finished, n)
    && Accounted(lines, s.finished, s.inFlight, n)
    && Scheduled(s.pending, s.inFlight, s.tasks, s.maxStep, n)
    && s.cntFinished == FinishedTo(s.finished, n)
    && (lines == [] ==> s.pending == multiset{})
  }

  lemma {:induction false} TasksAppear(lines: seq<Line>, k: nat)
    ensures TasksOf(lines, k) != [] <==> exists i :: 0 <= i < |lines| && lines[i].step == k
  {
    if lines != [] {
      var init := lines[..|lines|-1];
      TasksAppear(init, k);
      if i :| 0 <= i < |lines| && lines[i].step == k {
        if i < |init| { assert init[i].step == k; }
      }
      if i :| 0 <= i < |init| && init[i].step == k { assert lines[i].step == k; }
    }
  }

  lemma {:induction false} LaunchAll(step: nat, ts: seq<Task>, w: Wire)
    ensures var v := Launch(step, ts, w);
            && |v.inFlight| == |w.inFlight| + |ts|
            && forall f :: f in v.inFlight ==> f in w.inFlight || f.step == step
    decreases |ts|
  {
    if ts != [] {
      LaunchAll(step, ts[1..], LaunchOne(step, ts[0], w));
    }
  }

  lemma {:induction false} FinishedKept(m: map<nat, nat>, k: nat, v: nat, n: nat)
    requires n <= k
    ensures FinishedTo(m[k := v], n) == FinishedTo(m, n)
  {
    if n > 0 { FinishedKept(m, k, v, n - 1); }
  }

  lemma OneMoreFinished(m: map<nat, nat>, k: nat)
    ensures FinishedTo(Incremented(m, k), k + 1) == FinishedTo(m, k + 1) + 1
  {
    FinishedKept(m, k, Count(m, k) + 1, k);
  }

  lemma InitialInv(lines: seq<Line>, s: State)
    requires Initial(lines, s)
    ensures Inv(lines, s)
  {
  }

  lemma ExecuteInv(lines: seq<Line>, s: State, k: nat)
    requires Inv(lines, s) && k in s.pending
    ensures Inv(lines, Execute(s.(pending := s.pending - multiset{k}), k))
  {
    hide Loaded, EarlierDone, TasksOf, FinishedTo, LaunchOne;
    var n := |s.started|;
    assert k == n && s.pending - multiset{k} == multiset{};
    if n in s.tasks {
      LaunchAll(n, s.tasks[n], Wire(s.sports, s.dports, s.inFlight));
      NextStep(lines, s, n);
      hide Launch;
    }
  }

  lemma NextStep(lines: seq<Line>, s: State, n: nat)
    requires Loaded(lines, s.tasks, s.totals, s.maxStep) && n in s.tasks && EarlierDone(lines, s.finished, n)
    requires Accounted(lines, s.finished, s.inFlight, n) && |s.inFlight| == 0
    ensures EarlierDone(lines, s.finished, n + 1) && Count(s.finished, n) == 0 && s.tasks[n] == TasksOf(lines, n) != []
    ensures FinishedTo(s.finished, n + 1) == FinishedTo(s.finished, n)
  {
    hide TasksOf;
  }

  // The counters after a flow of the last step has finished.
  lemma FinishCounts(lines: seq<Line>, s: State, f: Flow)
    requires Inv(lines, s) && f in s.inFlight
    ensures var t, n := Finish(s, f), |s.started|;
            && n > 0 && f.step == n - 1 && EarlierDone(lines, t.finished, n)
            && Accounted(lines, t.finished, t.inFlight, n) && t.cntFinished == FinishedTo(t.finished, n)
            && (|t.inFlight| == 0 <==> Count(s.finished, n - 1) + 1 == |TasksOf(lines, n - 1)|)
  {
    hide Loaded, TasksOf, InOrder, EarlierDone, Scheduled, Schedule;
    var n := |s.started|;
    assert |s.inFlight| > 0 && f.step == n - 1;
    hide Accounted;
    OneMoreFinished(s.finished, f.step);
    hide FinishedTo;
    OneFinished(lines, s.finished, s.inFlight, n, f);
  }

  lemma FinishSchedules(lines: seq<Line>, s: State, f: Flow)
    requires Inv(lines, s) && f in s.inFlight
    ensures var t := Finish(s, f); Scheduled(t.pending, t.inFlight, t.tasks, t.maxStep, |t.started|)
  {
    FinishCounts(lines, s, f);
    hide Loaded, TasksOf, InOrder, EarlierDone, FinishedTo, Scheduled, Accounted, Incremented, Count;
    var n := |s.started|;
    CountAfter(s.finished, n - 1);
    TotalOf(lines, s, n - 1);
    TotalOf(lines, s, n);
    InFlightNoPending(s.pending, s.inFlight, s.tasks, s.maxStep, n, f);
    ScheduleNext(s.tasks, s.maxStep, s.inFlight - multiset{f}, n, Count(s.finished, n - 1) + 1 == Count(s.totals, n - 1));
  }

  lemma CountAfter(m: map<nat, nat>, k: nat)
    ensures Count(Incremented(m, k), k) == Count(m, k) + 1
  {
  }

  lemma FinishInv(lines: seq<Line>, s: State, f: Flow)
    requires Inv(lines, s) && f in s.inFlight
    ensures Inv(lines, Finish(s, f))
  {
    FinishCounts(lines, s, f);
    FinishSchedules(lines, s, f);
    LinesExist(lines, s, f);
    hide Incremented, Loaded, TasksOf, InOrder, EarlierDone, FinishedTo, Scheduled, Accounted, Schedule, Count;
  }

  lemma InFlightNoPending(pending: multiset<nat>, inFlight: multiset<Flow>, tasks: map<nat, seq<Task>>, maxStep: nat, n: nat, f: Flow)
    requires Scheduled(pending, inFlight, tasks, maxStep, n) && f in inFlight
    ensures pending == multiset{}
  {
    assert |inFlight| > 0;
  }

  lemma LinesExist(lines: seq<Line>, s: State, f: Flow)
    requires Inv(lines, s) && f in s.inFlight
    ensures lines != []
  {
    hide TasksOf, EarlierDone, Loaded;
    assert |s.inFlight| > 0;
  }

  // The last flow of a step schedules the next one, unless it was the last step.
  lemma ScheduleNext(tasks: map<nat, seq<Task>>, maxStep: nat, inFlight: multiset<Flow>, n: nat, full: bool)
    requires n > 0 && (full <==> |inFlight| == 0) && (n in tasks ==> n <= maxStep)
    ensures Scheduled(if full && n - 1 < maxStep then multiset{} + multiset{n - 1 + 1} else multiset{}, inFlight, tasks, maxStep, n)
  {
  }

  lemma TotalOf(lines: seq<Line>, s: State, k: nat)
    requires Loaded(lines, s.tasks, s.totals, s.maxStep)
    ensures Count(s.totals, k) == |TasksOf(lines, k)|
    ensures k in s.tasks ==> k <= s.maxStep
  {
  }

  lemma OneFinished(lines: seq<Line>, finished: map<nat, nat>, inFlight: multiset<Flow>, n: nat, f: Flow)
    requires EarlierDone(lines, finished, n) && Accounted(lines, finished, inFlight, n) && f in inFlight && n > 0
    ensures var fin := Incremented(finished, n - 1);
            EarlierDone(lines, fin, n) && Accounted(lines, fin, inFlight - multiset{f}, n)
    ensures |inFlight - multiset{f}| == 0 <==> Count(finished, n - 1) + 1 == |TasksOf(lines, n - 1)|
  {
    hide TasksOf;
    var fin := Incremented(finished, n - 1);
    assert |inFlight - multiset{f}| == |inFlight| - 1;
    forall j: nat ensures j != n - 1 ==> Count(fin, j) == Count(finished, j) {
    }
  }

  lemma StepInv(lines: seq<Line>, s: State, t: State)
    requires Inv(lines, s) && Step(s, t)
    ensures Inv(lines, t)
  {
    hide Inv, Execute, Finish;
    if k :| k in s.pending && t == Execute(s.(pending := s.pending - multiset{k}), k) {
      ExecuteInv(lines, s, k);
    } else {
      var f :| f in s.inFlight && t == Finish(s, f);
      FinishInv(lines, s, f);
    }
  }

  /** A run of the simulation, as the states between its events, in any order of completions. */
  ghost predicate Run(lines: seq<Line>, run: seq<State>) {
    && |run| >= 1 && Initial(lines, run[0])
    && forall i :: 0 <= i < |run| - 1 ==> Step(run[i], run[i+1])
  }

  lemma {:induction false} RunInv(lines: seq<Line>, run: seq<State>, i: nat)
    requires Run(lines, run) && i < |run|
    ensures Inv(lines, run[i])
  {
    hide Inv, Step, Initial;
    if i == 0 {
      InitialInv(lines, run[0]);
    } else {
      RunInv(lines, run, i - 1);
      assert Step(run[i-1], run[i-1+1]);
      StepInv(lines, run[i-1], run[i]);
    }
  }

  /** The barrier: while a flow of some step is in flight, every earlier step exists and all its
      flows have finished; and steps have been started in order, each once. */
  lemma BarrierHolds(lines: seq<Line>, run: seq<State>, i: nat, f: Flow, j: nat)
    requires Run(lines, run) && i < |run| && f in run[i].inFlight && j < f.step
    ensures j in run[i].tasks && Count(run[i].finished, j) == |TasksOf(lines, j)| == |run[i].tasks[j]|
    ensures forall g :: g in run[i].inFlight ==> g.step == f.step
    ensures |run[i].started| == f.step + 1 && forall k :: 0 <= k <= f.step ==> run[i].started[k] == k
  {
    hide TasksOf;
    RunInv(lines, run, i);
    assert j in run[i].tasks by {
      assert run[i].started[j] == j;
    }
  }

  /** Flows are conserved: those of the active step are finished or in flight, and the global
      counter is the sum of the counters of all steps. */
  lemma FlowsConserved(lines: seq<Line>, run: seq<State>, i: nat)
    requires Run(lines, run) && i < |run|
    ensures var s := run[i];
            && (s.started != [] ==> Count(s.finished, s.active) + |s.inFlight| == Count(s.totals, s.active))
            && s.cntFinished == FinishedTo(s.finished, s.maxStep + 1)
            && s.cntFinished + |s.inFlight| <= s.flowNum
  {
    RunInv(lines, run, i);
    StateConserved(lines, run[i]);
  }

  lemma StateConserved(lines: seq<Line>, s: State)
    requires Inv(lines, s)
    ensures s.started != [] ==> Count(s.finished, s.active) + |s.inFlight| == Count(s.totals, s.active)
    ensures s.cntFinished == FinishedTo(s.finished, s.maxStep + 1)
    ensures s.cntFinished + |s.inFlight| <= s.flowNum
  {
    hide TasksOf, Loaded, InOrder, Scheduled, EarlierDone, Accounted, FinishedTo, TotalTo;
    var n := |s.started|;
    ActiveConserved(lines, s);
    StartedBound(lines, s);
    SumsConserved(lines, s.finished, s.inFlight, n);
    NoneFinishedBeyond(lines, s.finished, n, s.maxStep + 1);
    AllLinesCounted(lines, s);
    TotalGrows(lines, n, s.maxStep + 1);
  }

  // Over the steps started: finished and in flight make up the total.
  lemma SumsConserved(lines: seq<Line>, finished: map<nat, nat>, inFlight: multiset<Flow>, n: nat)
    requires EarlierDone(lines, finished, n) && Accounted(lines, finished, inFlight, n)
    ensures FinishedTo(finished, n) + |inFlight| == TotalTo(lines, n)
  {
    hide TasksOf;
    FinishedAtMost(lines, finished, n);
    if n > 0 { TotalUnfold(lines, n); }
  }

  lemma NoneFinishedBeyond(lines: seq<Line>, finished: map<nat, nat>, n: nat, k: nat)
    requires EarlierDone(lines, finished, n) && n <= k
    ensures FinishedTo(finished, k) == FinishedTo(finished, n)
  {
    hide TasksOf;
    FinishedBeyond(finished, n, k);
  }

  lemma AllLinesCounted(lines: seq<Line>, s: State)
    requires Loaded(lines, s.tasks, s.totals, s.maxStep)
    ensures TotalTo(lines, s.maxStep + 1) == |lines|
  {
    hide TasksOf;
    AllFlows(lines, s.maxStep + 1);
  }

  lemma ActiveConserved(lines: seq<Line>, s: State)
    requires Inv(lines, s)
    ensures s.started != [] ==> Count(s.finished, s.active) + |s.inFlight| == Count(s.totals, s.active)
  {
    hide TasksOf, InOrder, EarlierDone, Scheduled, FinishedTo;
    TotalOf(lines, s, s.active);
  }

  lemma StartedBound(lines: seq<Line>, s: State)
    requires Inv(lines, s)
    ensures |s.started| <= s.maxStep + 1
  {
    hide TasksOf;
    var n := |s.started|;
    if n > 0 { assert s.started[n-1] == n - 1; }
  }

  lemma {:induction false} FinishedBeyond(m: map<nat, nat>, n: nat, k: nat)
    requires n <= k && forall j: nat :: j >= n ==> Count(m, j) == 0
    ensures FinishedTo(m, k) == FinishedTo(m, n)
  {
    if n < k { FinishedBeyond(m, n, k - 1); }
  }

  lemma {:induction false} TotalGrows(lines: seq<Line>, n: nat, k: nat)
    requires n <= k
    ensures TotalTo(lines, n) <= TotalTo(lines, k)
  {
    if n < k { TotalGrows(lines, n, k - 1); }
  }

  lemma {:induction false} FinishedAtMost(lines: seq<Line>, m: map<nat, nat>, n: nat)
    requires forall j: nat :: j + 1 < n ==> Count(m, j) == |TasksOf(lines, j)|
    ensures n > 0 ==> FinishedTo(m, n) == TotalTo(lines, n - 1) + Count(m, n - 1)
  {
    hide TasksOf;
    if n > 1 { FinishedAtMost(lines, m, n - 1); }
  }

  // Every line belongs to exactly one step.
  lemma {:induction false} AllFlows(lines: seq<Line>, n: nat)
    requires forall k: nat :: TasksOf(lines, k) != [] ==> k < n
    ensures TotalTo(lines, n) == |lines|
  {
    if lines == [] {
      NoFlows(n);
    } else {
      var init, last := lines[..|lines|-1], lines[|lines|-1];
      assert last.step < n by { assert TasksOf(lines, last.step) != []; }
      forall k: nat | TasksOf(init, k) != [] ensures k < n { assert TasksOf(lines, k) != []; }
      AllFlows(init, n);
      OneMoreLine(lines, n);
    }
  }

  lemma {:induction false} NoFlows(n: nat)
    ensures TotalTo([], n) == 0
  {
    if n > 0 { NoFlows(n - 1); }
  }

  lemma {:induction false} OneMoreLine(lines: seq<Line>, n: nat)
    requires lines != []
    ensures TotalTo(lines, n) == TotalTo(lines[..|lines|-1], n) + if lines[|lines|-1].step < n then 1 else 0
  {
    if n > 0 { OneMoreLine(lines, n - 1); }
  }

  lemma StateStops(lines: seq<Line>, s: State)
    requires Inv(lines, s)
    ensures Stops(s) <==> forall k :: Count(s.finished, k) == |TasksOf(lines, k)|
    ensures Stops(s) ==> s.inFlight == multiset{} && s.pending == multiset{}
  {
    hide TasksOf, TotalTo, Loaded, InOrder, Accounted, Scheduled;
    if Stops(s) {
      AllStarted(lines, s);
    } else if forall k :: Count(s.finished, k) == |TasksOf(lines, k)| {
      StateConserved(lines, s);
      AllLinesCounted(lines, s);
      FinishedIsTotal(lines, s.finished, s.maxStep + 1);
      assert false;
    }
  }

  /** The stop test holds exactly when every flow of every step has finished. */
  lemma StopsExactly(lines: seq<Line>, run: seq<State>, i: nat)
    requires Run(lines, run) && i < |run|
    ensures Stops(run[i]) <==> forall k :: Count(run[i].finished, k) == |TasksOf(lines, k)|
    ensures Stops(run[i]) ==> run[i].inFlight == multiset{} && run[i].pending == multiset{}
  {
    hide Inv, Stops, TasksOf, Run;
    RunInv(lines, run, i);
    StateStops(lines, run[i]);
  }

  lemma {:induction false} FinishedIsTotal(lines: seq<Line>, m: map<nat, nat>, n: nat)
    requires forall k :: Count(m, k) == |TasksOf(lines, k)|
    ensures FinishedTo(m, n) == TotalTo(lines, n)
  {
    hide TasksOf;
    if n > 0 { FinishedIsTotal(lines, m, n - 1); }
  }

  // When as many flows have finished as there are, nothing is left to do.
  lemma AllStarted(lines: seq<Line>, s: State)
    requires Inv(lines, s) && Stops(s)
    ensures forall k :: Count(s.finished, k) == |TasksOf(lines, k)|
    ensures s.inFlight == multiset{} && s.pending == multiset{}
  {
    hide TasksOf, TotalTo, FinishedTo, Loaded, InOrder, Scheduled, EarlierDone, Accounted, Count;
    var n := |s.started|;
    StartedBound(lines, s);
    SumsConserved(lines, s.finished, s.inFlight, n);
    AllLinesCounted(lines, s);
    TotalGrows(lines, n, s.maxStep + 1);
    forall k: nat | n <= k <= s.maxStep ensures TasksOf(lines, k) == [] {
      NoneBetween(lines, n, k, s.maxStep + 1);
    }
    NoneBeyond(lines, s, n);
  }

  lemma NoneBeyond(lines: seq<Line>, s: State, n: nat)
    requires Inv(lines, s) && n == |s.started| && forall k: nat :: n <= k <= s.maxStep ==> TasksOf(lines, k) == []
    requires |s.inFlight| == 0
    ensures forall k :: Count(s.finished, k) == |TasksOf(lines, k)|
    ensures s.inFlight == multiset{} && s.pending == multiset{}
  {
    hide TotalTo, FinishedTo, TasksOf;
    if n == 0 { AllFlowsInFirst(lines, s); }
  }

  lemma AllFlowsInFirst(lines: seq<Line>, s: State)
    requires Loaded(lines, s.tasks, s.totals, s.maxStep) && forall k: nat :: k <= s.maxStep ==> TasksOf(lines, k) == []
    ensures lines == []
  {
    hide TotalTo;
    if lines != [] {
      TasksAppear(lines, lines[0].step);
    }
  }

  lemma NoneBetween(lines: seq<Line>, n: nat, k: nat, m: nat)
    requires n <= k < m && TotalTo(lines, n) == TotalTo(lines, m)
    ensures TasksOf(lines, k) == []
  {
    TotalGrows(lines, n, k);
    TotalUnfold(lines, k + 1);
    TotalGrows(lines, k + 1, m);
  }

  lemma TotalUnfold(lines: seq<Line>, n: nat)
    requires n > 0
    ensures TotalTo(lines, n) == TotalTo(lines, n - 1) + |TasksOf(lines, n - 1)|
  {
  }

  // Nothing is scheduled and nothing is in flight.
  ghost predicate Quiet(s: State) {
    s.pending == multiset{} && s.inFlight == multiset{}
  }

  /** Step ids without a gap, as the ring generator emits them. */
  ghost predicate Contiguous(lines: seq<Line>, maxStep: nat) {
    forall k: nat :: k <= maxStep ==> TasksOf(lines, k) != []
  }

  /** How a run ends. It has an event to process until it is quiet; then the stop test holds if
      and only if the step ids have no gap (or there are no flows), and otherwise the run has
      stalled at the first missing id, with exactly the flows of the steps below it finished. */
  lemma RunEnds(lines: seq<Line>, run: seq<State>, i: nat)
    requires Run(lines, run) && i < |run|
    ensures !Quiet(run[i]) <==> exists t :: Step(run[i], t)
    ensures Quiet(run[i]) ==> (Stops(run[i]) <==> lines == [] || Contiguous(lines, run[i].maxStep))
    ensures Quiet(run[i]) ==> var n := |run[i].started|;
                              TasksOf(lines, n) == [] && (forall k: nat :: k < n ==> TasksOf(lines, k) != [])
                              && run[i].cntFinished == TotalTo(lines, n)
  {
    RunInv(lines, run, i);
    var s := run[i];
    EventExists(s);
    if Quiet(s) {
      QuietState(lines, s);
      StopsExactly(lines, run, i);
      QuietStops(lines, s);
    }
  }

  lemma EventExists(s: State)
    ensures !Quiet(s) <==> exists t :: Step(s, t)
  {
    if s.pending != multiset{} {
      var k :| k in s.pending;
      assert Step(s, Execute(s.(pending := s.pending - multiset{k}), k));
    }
    if s.inFlight != multiset{} {
      var f :| f in s.inFlight;
      assert Step(s, Finish(s, f));
    }
  }

  lemma QuietState(lines: seq<Line>, s: State)
    requires Inv(lines, s) && Quiet(s)
    ensures TasksOf(lines, |s.started|) == [] && forall k: nat :: k < |s.started| ==> TasksOf(lines, k) != []
    ensures s.cntFinished == TotalTo(lines, |s.started|)
    ensures forall k: nat :: k < |s.started| ==> Count(s.finished, k) == |TasksOf(lines, k)|
    ensures forall k: nat :: k >= |s.started| ==> Count(s.finished, k) == 0
  {
    hide TasksOf;
    var n := |s.started|;
    forall k: nat | k < n ensures TasksOf(lines, k) != [] {
      assert s.started[k] == k;
    }
    FinishedAtMost(lines, s.finished, n);
    if n > 0 { TotalUnfold(lines, n); }
  }

  lemma QuietStops(lines: seq<Line>, s: State)
    requires Inv(lines, s) && Quiet(s)
    ensures (forall k :: Count(s.finished, k) == |TasksOf(lines, k)|) <==> lines == [] || Contiguous(lines, s.maxStep)
  {
    QuietState(lines, s);
    StartedBound(lines, s);
    hide Inv, TotalTo;
    var n := |s.started|;
    LoadedFacts(lines, s);
    hide TasksOf;
    if forall k :: Count(s.finished, k) == |TasksOf(lines, k)| {
      if n <= s.maxStep {
        assert Count(s.finished, s.maxStep) == 0;
      }
    }
    if Contiguous(lines, s.maxStep) {
      assert n == s.maxStep + 1;
    }
  }

  lemma LoadedFacts(lines: seq<Line>, s: State)
    requires Inv(lines, s)
    ensures forall k: nat :: TasksOf(lines, k) != [] ==> k <= s.maxStep
    ensures TasksOf(lines, s.maxStep) == [] ==> lines == []
    ensures lines == [] ==> forall k: nat :: TasksOf(lines, k) == []
  {
    hide TasksOf, TotalTo, FinishedTo;
    if TasksOf(lines, s.maxStep) == [] {
      AllFlowsInFirst(lines, s);
    }
    if lines == [] {
      forall k: nat ensures TasksOf(lines, k) == [] { TasksAppear(lines, k); }
    }
  }

  // Events left at most: every one shortens the run that remains.
  ghost function Remaining(s: State): int {
    2 * (s.flowNum - s.cntFinished) + |s.pending|
  }

  /** Every run is finite: an event uses up some of a bound fixed by the flow file. */
  lemma EventsRunOut(lines: seq<Line>, s: State, t: State)
    requires Inv(lines, s) && Step(s, t)
    ensures 0 <= Remaining(t) < Remaining(s)
  {
    StepInv(lines, s, t);
    FinishedWithin(lines, t);
    hide Inv, Execute, Finish;
    if k :| k in s.pending && t == Execute(s.(pending := s.pending - multiset{k}), k) {
      ExecuteUses(s, k);
    } else {
      var f :| f in s.inFlight && t == Finish(s, f);
      FinishUses(s, f);
    }
  }

  lemma ExecuteUses(s: State, k: nat)
    requires k in s.pending
    ensures Remaining(Execute(s.(pending := s.pending - multiset{k}), k)) == Remaining(s) - 1
  {
    hide Launch;
    var u := s.(pending := s.pending - multiset{k});
    assert |u.pending| == |s.pending| - 1;
  }

  lemma FinishUses(s: State, f: Flow)
    ensures Remaining(Finish(s, f)) < Remaining(s)
  {
  }

  lemma FinishedWithin(lines: seq<Line>, s: State)
    requires Inv(lines, s)
    ensures s.cntFinished <= s.flowNum
  {
    hide TasksOf;
    var n := |s.started|;
    StartedBound(lines, s);
    AllFlows(lines, s.maxStep + 1);
    FinishedAtMost(lines, s.finished, n);
    if n > 0 { TotalUnfold(lines, n); }
    TotalGrows(lines, n, s.maxStep + 1);
  }

  /** A run of the program has at most 2 * flow_num + 2 states. */
  lemma {:induction false} RunLength(lines: seq<Line>, run: seq<State>)
    requires Run(lines, run)
    ensures |run| <= 2 * |lines| + 2
  {
    RunBound(lines, run, |run| - 1);
    RunInv(lines, run, |run| - 1);
    FinishedWithin(lines, run[|run|-1]);
  }

  lemma {:induction false} RunBound(lines: seq<Line>, run: seq<State>, i: nat)
    requires Run(lines, run) && i < |run|
    ensures Remaining(run[i]) + i <= 2 * |lines| + 1
  {
    hide Inv, Step, Loaded;
    if i > 0 {
      hide Remaining, Initial;
      RunBound(lines, run, i - 1);
      RunInv(lines, run, i - 1);
      assert Step(run[i-1], run[i-1+1]);
      EventsRunOut(lines, run[i-1], run[i]);
    }
  }

  /** The barrier as the program holds it, in global variables. */
  class Barrier {
    var stepManager: map<nat, seq<Task>>
    var stepTotalFlows: map<nat, nat>
    var stepFinishedCount: map<nat, nat>
    var currentActiveStep: nat
    var maxStepId: nat
    var flowNum: nat
    var cntFinishedFlows: nat
    var portNumber: map<nat, Port>
    var dportNumber: map<nat, Port>
    var events: multiset<nat>
    var inFlight: multiset<Flow>
    ghost var started: seq<nat>
    ghost var received: multiset<Flow>

    ghost function Abs(): State
      reads this
    {
      State(stepManager, stepTotalFlows, stepFinishedCount, currentActiveStep, maxStepId, flowNum, cntFinishedFlows,
            portNumber, dportNumber, events, inFlight, started, received)
    }

    constructor (hosts: set<nat>)
      ensures Abs().finished == map[] && Abs().cntFinished == 0 && Abs().pending == multiset{} && Abs().inFlight == multiset{}
      ensures Abs().tasks == map[] && Abs().totals == map[] && Abs().maxStep == 0 && Abs().started == [] && Abs().received == multiset{}
      ensures forall h :: h in hosts ==> Next(portNumber, h) == 10000 && Next(dportNumber, h) == 100
    {
      stepManager, stepTotalFlows, stepFinishedCount := map[], map[], map[];
      currentActiveStep, maxStepId, flowNum, cntFinishedFlows := 0, 0, 0, 0;
      portNumber := map h | h in hosts :: 10000;
      dportNumber := map h | h in hosts :: 100;
      events, inFlight, started, received := multiset{}, multiset{}, [], multiset{};
    }

    /** Reads as many lines of the flow file as its header says, and schedules step 0 if there are
        flows at all. */
    method PreloadCollectiveFlows(flowNum: nat, file: seq<RawLine>)
      requires flowNum <= |file| && forall i :: 0 <= i < flowNum ==> Readable(file[i])
      requires stepManager == map[] && stepTotalFlows == map[] && maxStepId == 0 && stepFinishedCount == map[]
      requires cntFinishedFlows == 0 && events == multiset{} && inFlight == multiset{} && started == [] && received == multiset{}
      modifies this
      ensures Initial(ReadAll(file[..flowNum]), Abs())
      ensures portNumber == old(portNumber) && dportNumber == old(dportNumber)
    {
      hide Loaded, Count, Incremented, Appended, Truncated;
      this.flowNum := flowNum;
      ghost var lines := ReadAll(file[..flowNum]);
      NothingLoaded();
      assert lines[..0] == [];
      for i := 0 to flowNum
        invariant Loaded(lines[..i], stepManager, stepTotalFlows, maxStepId)
        invariant this.flowNum == flowNum && stepFinishedCount == map[] && cntFinishedFlows == 0
        invariant events == multiset{} && inFlight == multiset{} && started == [] && received == multiset{}
        invariant portNumber == old(portNumber) && dportNumber == old(dportNumber)
      {
        SameStep(file[i].stepRaw, lines[i].step);
        LoadLine(file[i], lines, i);
      }
      assert lines[..flowNum] == lines;
      if flowNum > 0 {
        events := multiset{0};
      }
    }

    // One line of it, number i of the lines to be read.
    method LoadLine(raw: RawLine, ghost lines: seq<Line>, ghost i: nat)
      requires Readable(raw) && i < |lines| && lines[i] == Line(raw.task, Truncated(raw.stepRaw))
      requires Loaded(lines[..i], stepManager, stepTotalFlows, maxStepId)
      modifies this`stepManager, this`stepTotalFlows, this`maxStepId
      ensures Loaded(lines[..i + 1], stepManager, stepTotalFlows, maxStepId)
    {
      hide Loaded, Count, Incremented, Appended, Truncated;
      var task, sId := raw.task, Truncated(raw.stepRaw);
      LoadOne(lines, i, stepManager, stepTotalFlows, maxStepId);
      stepManager := Appended(stepManager, sId, task);
      stepTotalFlows := Incremented(stepTotalFlows, sId);
      if sId > maxStepId {
        maxStepId := sId;
      }
    }

    // One scheduled call of ExecuteStep.
    method ExecuteStep(stepId: nat)
      requires stepId in events
      modifies this
      ensures Abs() == Execute(old(Abs()).(pending := old(events) - multiset{stepId}), stepId)
      ensures inFlight == old(inFlight) + if stepId !in stepManager then multiset{}
                                          else multiset(FlowsOf(stepId, stepManager[stepId], old(portNumber), old(dportNumber)))
      ensures stepManager == old(stepManager)
    {
      hide Count, Launch, LaunchOne, Execute, FlowsOf, FlowAt, Next;
      ExecuteFields(Abs(), stepId);
      events := events - multiset{stepId};
      if stepId in stepManager {
        LaunchFlows(stepId, stepManager[stepId], Wire(portNumber, dportNumber, inFlight));
        StartStep(stepId);
      }
    }

    // What it does for a step that exists.
    method StartStep(stepId: nat)
      requires stepId in stepManager
      modifies this`currentActiveStep, this`started, this`portNumber, this`dportNumber, this`inFlight
      ensures currentActiveStep == stepId && started == old(started) + [stepId]
      ensures Wire(portNumber, dportNumber, inFlight)
           == old(Launch(stepId, stepManager[stepId], Wire(portNumber, dportNumber, inFlight)))
    {
      hide Launch;
      currentActiveStep := stepId;
      started := started + [stepId];
      LaunchTasks(stepId, stepManager[stepId]);
    }

    // Its loop over the tasks of the step.
    method LaunchTasks(stepId: nat, tasks: seq<Task>)
      modifies this`portNumber, this`dportNumber, this`inFlight
      ensures Wire(portNumber, dportNumber, inFlight) == old(Launch(stepId, tasks, Wire(portNumber, dportNumber, inFlight)))
    {
      ghost var target := Launch(stepId, tasks, Wire(portNumber, dportNumber, inFlight));
      for i := 0 to |tasks|
        invariant Launch(stepId, tasks[i..], Wire(portNumber, dportNumber, inFlight)) == target
      {
        var task := tasks[i];
        var sport, dport := Next(portNumber, task.src), Next(dportNumber, task.dst);
        assert tasks[i..][1..] == tasks[i+1..];
        portNumber, dportNumber := Bump(portNumber, task.src), Bump(dportNumber, task.dst);
        inFlight := inFlight + multiset{Flow(stepId, task, sport, dport)};
      }
    }

    // The receiver of a flow has got all its bytes.
    method RxFlowFinish(flow: Flow)
      requires flow in inFlight
      modifies this`inFlight, this`cntFinishedFlows, this`stepFinishedCount, this`events, this`received
      ensures Abs() == Finish(old(Abs()), flow)
    {
      hide Count, Schedule, Finish, Incremented;
      FinishFields(Abs(), flow);
      var sId := flow.step;
      CountFlow(flow);
      if Count(stepFinishedCount, sId) == Count(stepTotalFlows, sId) {
        if sId < maxStepId {
          events := Schedule(events, sId + 1);
        }
      }
    }

    // The flow leaves the network, and both counters go up.
    method CountFlow(flow: Flow)
      modifies this`inFlight, this`cntFinishedFlows, this`stepFinishedCount, this`received
      ensures inFlight == old(inFlight) - multiset{flow} && received == old(received) + multiset{flow}
      ensures cntFinishedFlows == old(cntFinishedFlows) + 1
      ensures stepFinishedCount == Incremented(old(stepFinishedCount), flow.step)
    {
      hide Incremented;
      inFlight, received := inFlight - multiset{flow}, received + multiset{flow};
      cntFinishedFlows := cntFinishedFlows + 1;
      stepFinishedCount := Incremented(stepFinishedCount, flow.step);
    }

    /** The periodic check: it stops the simulation exactly when every flow of every step has
        finished, and then nothing is in flight or scheduled. */
    method StopSimulationMiddle(ghost lines: seq<Line>) returns (stop: bool)
      requires Inv(lines, Abs())
      ensures stop <==> forall k :: Count(stepFinishedCount, k) == |TasksOf(lines, k)|
      ensures stop ==> inFlight == multiset{} && events == multiset{}
    {
      hide Inv, TasksOf;
      StateStops(lines, Abs());
      stop := cntFinishedFlows >= flowNum;
    }
  }

  lemma ExecuteFields(s: State, step: nat)
    ensures var pending := s.pending - multiset{step};
      Execute(s.(pending := pending), step)
      == if step !in s.tasks then s.(pending := pending)
         else
           var w := Launch(step, s.tasks[step], Wire(s.sports, s.dports, s.inFlight));
           State(s.tasks, s.totals, s.finished, step, s.maxStep, s.flowNum, s.cntFinished, w.sports, w.dports, pending,
                 w.inFlight, s.started + [step], s.received)
  {
    hide Launch;
  }

  lemma FinishFields(s: State, f: Flow)
    ensures var fin := Incremented(s.finished, f.step);
      Finish(s, f) == State(s.tasks, s.totals, fin, s.active, s.maxStep, s.flowNum, s.cntFinished + 1, s.sports, s.dports,
        if Count(fin, f.step) == Count(s.totals, f.step) && f.step < s.maxStep then Schedule(s.pending, f.step + 1) else s.pending,
        s.inFlight - multiset{f}, s.started, s.received + multiset{f})
  {
  }

  lemma TasksOfMore(lines: seq<Line>, i: nat, k: nat)
    requires i < |lines|
    ensures TasksOf(lines[..i+1], k) == TasksOf(lines[..i], k) + if lines[i].step == k then [lines[i].task] else []
  {
    var more := lines[..i+1];
    assert more[..|more|-1] == lines[..i] && more[|more|-1] == lines[i];
  }

  // One more line of the flow file.
  lemma LoadOne(lines: seq<Line>, i: nat, tasks: map<nat, seq<Task>>, totals: map<nat, nat>, maxStep: nat)
    requires i < |lines| && Loaded(lines[..i], tasks, totals, maxStep)
    ensures var k := lines[i].step;
            Loaded(lines[..i+1], Appended(tasks, k, lines[i].task),
                   Incremented(totals, k), if k > maxStep then k else maxStep)
  {
    hide TasksOf;
    forall k: nat ensures TasksOf(lines[..i+1], k) == TasksOf(lines[..i], k) + if lines[i].step == k then [lines[i].task] else [] {
      TasksOfMore(lines, i, k);
    }
    var key, more := lines[i].step, lines[..i+1];
    var tasks' := Appended(tasks, key, lines[i].task);
    var totals' := Incremented(totals, key);
    var max := if key > maxStep then key else maxStep;
    assert forall k: nat :: k in tasks' <==> TasksOf(more, k) != [];
    assert forall k :: k in tasks' ==> tasks'[k] == TasksOf(more, k);
    assert forall k :: Count(totals', k) == |TasksOf(more, k)|;
    assert forall k: nat :: TasksOf(more, k) != [] ==> k <= max;
    assert max == 0 || TasksOf(more, max) != [];
  }

  lemma NothingLoaded()
    ensures Loaded([], map[], map[], 0)
  {
  }

  lemma SameStep(x: real, step: nat)
    requires -1.0 < x && if x < 0.0 then step == 0 else step as real <= x < step as real + 1.0
    ensures Truncated(x) == step
  {
  }

  // Flows that host h sends among the tasks, and those it receives.
  function Sends(ts: seq<Task>, h: nat): nat {
    if ts == [] then 0 else (if ts[0].src == h then 1 else 0) + Sends(ts[1..], h)
  }

  function Receives(ts: seq<Task>, h: nat): nat {
    if ts == [] then 0 else (if ts[0].dst == h then 1 else 0) + Receives(ts[1..], h)
  }

  /** What a step puts into the network: flow i is task i, and takes the ports its two hosts have
      come to by then, modulo 2^16. */
  ghost function FlowsOf(step: nat, ts: seq<Task>, sports: map<nat, Port>, dports: map<nat, Port>): seq<Flow> {
    seq(|ts|, i requires 0 <= i < |ts| => FlowAt(step, ts, sports, dports, i))
  }

  ghost function FlowAt(step: nat, ts: seq<Task>, sports: map<nat, Port>, dports: map<nat, Port>, i: nat): Flow
    requires i < |ts|
  {
    Flow(step, ts[i], PortAfter(sports, ts[i].src, Sends(ts[..i], ts[i].src)),
         PortAfter(dports, ts[i].dst, Receives(ts[..i], ts[i].dst)))
  }

  // The port of host h after n more flows; a host without a counter begins at 0.
  ghost function PortAfter(ports: map<nat, Port>, h: nat, n: nat): Port {
    ((if h in ports then ports[h] else 0) + n) % 65536
  }

  lemma PortAfterNext(ports: map<nat, Port>, h: nat, n: nat)
    ensures PortAfter(ports, h, n) == (Next(ports, h) + n) % 65536
    ensures PortAfter(ports, h, 0) == Next(ports, h)
  {
  }

  lemma OnePort(step: nat, t: Task, w: Wire, h: nat)
    ensures Next(LaunchOne(step, t, w).sports, h) == if t.src == h then Wrap(Next(w.sports, h) + 1) else Next(w.sports, h)
    ensures Next(LaunchOne(step, t, w).dports, h) == if t.dst == h then Wrap(Next(w.dports, h) + 1) else Next(w.dports, h)
  {
  }

  lemma WrapsOnce(a: nat, b: nat)
    ensures (Wrap(a) + b) % 65536 == (a + b) % 65536
  {
  }

  // The ports of h after one task and n or m more.
  lemma OneMorePort(step: nat, t: Task, w: Wire, h: nat, n: nat, m: nat)
    ensures PortAfter(LaunchOne(step, t, w).sports, h, n) == PortAfter(w.sports, h, (if t.src == h then 1 else 0) + n)
    ensures PortAfter(LaunchOne(step, t, w).dports, h, m) == PortAfter(w.dports, h, (if t.dst == h then 1 else 0) + m)
  {
    OnePort(step, t, w, h);
    PortAfterNext(LaunchOne(step, t, w).sports, h, n);
    PortAfterNext(LaunchOne(step, t, w).dports, h, m);
    PortAfterNext(w.sports, h, 1 + n);
    PortAfterNext(w.dports, h, 1 + m);
    PortAfterNext(w.sports, h, n);
    PortAfterNext(w.dports, h, m);
    hide LaunchOne, Next, Wrap, PortAfter;
    WrapsOnce(Next(w.sports, h) + 1, n);
    WrapsOnce(Next(w.dports, h) + 1, m);
  }

  lemma SendsRest(ts: seq<Task>, i: nat, h: nat)
    requires 0 < i <= |ts|
    ensures Sends(ts[..i], h) == (if ts[0].src == h then 1 else 0) + Sends(ts[1..][..i - 1], h)
    ensures Receives(ts[..i], h) == (if ts[0].dst == h then 1 else 0) + Receives(ts[1..][..i - 1], h)
  {
    assert ts[..i][1..] == ts[1..][..i - 1];
  }

  // The flows after the first are those of the other tasks with the ports moved on.
  lemma RestOfFlows(step: nat, ts: seq<Task>, w: Wire)
    requires ts != []
    ensures var v := LaunchOne(step, ts[0], w);
      FlowsOf(step, ts, w.sports, w.dports)
      == [Flow(step, ts[0], Next(w.sports, ts[0].src), Next(w.dports, ts[0].dst))] + FlowsOf(step, ts[1..], v.sports, v.dports)
  {
    hide LaunchOne, Next, Sends, Receives, Wrap;
    var v, rest := LaunchOne(step, ts[0], w), ts[1..];
    forall i: nat | 0 < i < |ts| ensures FlowAt(step, ts, w.sports, w.dports, i) == FlowAt(step, rest, v.sports, v.dports, i - 1) {
      FlowMoves(step, ts, w, i);
    }
    FirstFlow(step, ts, w);
  }

  lemma FirstFlow(step: nat, ts: seq<Task>, w: Wire)
    requires ts != []
    ensures FlowAt(step, ts, w.sports, w.dports, 0) == Flow(step, ts[0], Next(w.sports, ts[0].src), Next(w.dports, ts[0].dst))
  {
  }

  lemma FlowMoves(step: nat, ts: seq<Task>, w: Wire, i: nat)
    requires 0 < i < |ts|
    ensures var v := LaunchOne(step, ts[0], w);
      FlowAt(step, ts, w.sports, w.dports, i) == FlowAt(step, ts[1..], v.sports, v.dports, i - 1)
  {
    hide LaunchOne, Sends, Receives, PortAfter;
    OneMorePort(step, ts[0], w, ts[i].src, Sends(ts[1..][..i - 1], ts[i].src), Receives(ts[1..][..i - 1], ts[i].src));
    OneMorePort(step, ts[0], w, ts[i].dst, Sends(ts[1..][..i - 1], ts[i].dst), Receives(ts[1..][..i - 1], ts[i].dst));
    SendsRest(ts, i, ts[i].src);
    SendsRest(ts, i, ts[i].dst);
  }

  /** The loop of ExecuteStep installs exactly these flows, and moves the counters on by the flows
      sent and received. */
  lemma {:induction false} LaunchFlows(step: nat, ts: seq<Task>, w: Wire)
    ensures Launch(step, ts, w).inFlight == w.inFlight + multiset(FlowsOf(step, ts, w.sports, w.dports))
    decreases |ts|
  {
    if ts != [] {
      RestOfFlows(step, ts, w);
      LaunchFlows(step, ts[1..], LaunchOne(step, ts[0], w));
    }
  }

  lemma {:induction false} PortsAfter(step: nat, ts: seq<Task>, w: Wire, h: nat)
    ensures Next(Launch(step, ts, w).sports, h) == PortAfter(w.sports, h, Sends(ts, h))
    ensures Next(Launch(step, ts, w).dports, h) == PortAfter(w.dports, h, Receives(ts, h))
    decreases |ts|
  {
    hide LaunchOne, PortAfter, Next;
    PortAfterNext(w.sports, h, 0);
    PortAfterNext(w.dports, h, 0);
    if ts != [] {
      PortsAfter(step, ts[1..], LaunchOne(step, ts[0], w), h);
      OneMorePort(step, ts[0], w, h, Sends(ts[1..], h), Receives(ts[1..], h));
    }
  }

  lemma {:induction false} SendsSplit(a: seq<Task>, b: seq<Task>, h: nat)
    ensures Sends(a + b, h) == Sends(a, h) + Sends(b, h)
  {
    if a == [] {
      assert a + b == b;
    } else {
      SendsSplit(a[1..], b, h);
      assert (a + b)[1..] == a[1..] + b;
    }
  }

  /** Two flows of one host in a step get the same source port exactly when the host starts a
      multiple of 65536 flows from the first to the second. */
  lemma PortsClash(step: nat, ts: seq<Task>, w: Wire, i: nat, j: nat)
    requires i < j < |ts| && ts[i].src == ts[j].src
    ensures var flows := FlowsOf(step, ts, w.sports, w.dports);
      flows[i].sport == flows[j].sport <==> Sends(ts[i..j], ts[i].src) % 65536 == 0
  {
    var h := ts[i].src;
    FlowPorts(step, ts, w, i);
    FlowPorts(step, ts, w, j);
    hide FlowsOf, Sends, Receives, Next;
    assert ts[..j] == ts[..i] + ts[i..j];
    SendsSplit(ts[..i], ts[i..j], h);
    SamePort(Next(w.sports, h) + Sends(ts[..i], h), Sends(ts[i..j], h));
  }

  lemma FlowPorts(step: nat, ts: seq<Task>, w: Wire, i: nat)
    requires i < |ts|
    ensures var flows := FlowsOf(step, ts, w.sports, w.dports);
      i < |flows| && flows[i].sport == (Next(w.sports, ts[i].src) + Sends(ts[..i], ts[i].src)) % 65536
  {
  }

  lemma SamePort(a: nat, b: nat)
    ensures a % 65536 == (a + b) % 65536 <==> b % 65536 == 0
  {
  }

  /* Conservation of tasks. */

  ghost function TaskIf(f: Flow, k: nat): multiset<Task> {
    if f.step == k then multiset{f.task} else multiset{}
  }

  // The tasks of the flows of step k.
  ghost function TasksIn(flows: multiset<Flow>, k: nat): multiset<Task>
    decreases |flows|
  {
    if flows == multiset{} then multiset{}
    else
      var f :| f in flows;
      TasksIn(flows - multiset{f}, k) + TaskIf(f, k)
  }

  lemma SomeFlow(flows: multiset<Flow>, k: nat) returns (g: Flow)
    requires flows != multiset{}
    ensures g in flows && TasksIn(flows, k) == TasksIn(flows - multiset{g}, k) + TaskIf(g, k)
  {
    g :| g in flows && TasksIn(flows, k) == TasksIn(flows - multiset{g}, k) + TaskIf(g, k);
  }

  lemma Without(flows: multiset<Flow>, f: Flow, g: Flow)
    requires f in flows && g in flows && f != g
    ensures f in flows - multiset{g} && g in flows - multiset{f} && |flows - multiset{f}| < |flows| && |flows - multiset{g}| < |flows|
    ensures flows - multiset{g} - multiset{f} == flows - multiset{f} - multiset{g}
  {
  }

  // Whichever flow is taken out first.
  lemma {:induction false} TasksInWithout(flows: multiset<Flow>, f: Flow, k: nat)
    requires f in flows
    ensures TasksIn(flows, k) == TasksIn(flows - multiset{f}, k) + TaskIf(f, k)
    decreases |flows|
  {
    hide TaskIf, TasksIn;
    var g := SomeFlow(flows, k);
    if g != f {
      Without(flows, f, g);
      TasksInWithout(flows - multiset{g}, f, k);
      TasksInWithout(flows - multiset{f}, g, k);
      Regroup(TasksIn(flows - multiset{g} - multiset{f}, k), TaskIf(f, k), TaskIf(g, k));
    }
  }

  lemma TasksInWith(flows: multiset<Flow>, f: Flow, k: nat)
    ensures TasksIn(flows + multiset{f}, k) == TasksIn(flows, k) + TaskIf(f, k)
  {
    TasksInWithout(flows + multiset{f}, f, k);
    assert flows + multiset{f} - multiset{f} == flows;
  }

  lemma LastOf<T>(s: seq<T>)
    requires s != []
    ensures multiset(s) == multiset(s[..|s|-1]) + multiset{s[|s|-1]}
  {
    assert s == s[..|s|-1] + [s[|s|-1]];
  }

  lemma Regroup<T>(a: multiset<T>, b: multiset<T>, c: multiset<T>)
    ensures a + b + c == a + (b + c) == a + c + b
  {
  }

  lemma {:induction false} TasksInAll(flows: multiset<Flow>, fs: seq<Flow>, ts: seq<Task>, step: nat, k: nat)
    requires |fs| == |ts| && forall i :: 0 <= i < |fs| ==> fs[i].step == step && fs[i].task == ts[i]
    ensures TasksIn(flows + multiset(fs), k) == TasksIn(flows, k) + if step == k then multiset(ts) else multiset{}
  {
    hide TasksIn;
    if fs == [] {
      assert flows + multiset(fs) == flows;
    } else {
      var n := |fs| - 1;
      var before := if step == k then multiset(ts[..n]) else multiset{};
      TasksInAll(flows, fs[..n], ts[..n], step, k);
      TasksInWith(flows + multiset(fs[..n]), fs[n], k);
      LastOf(fs);
      LastOf(ts);
      Regroup(flows, multiset(fs[..n]), multiset{fs[n]});
      Regroup(TasksIn(flows, k), before, TaskIf(fs[n], k));
    }
  }

  /** Of every step started, the tasks in flight and the tasks received make up the tasks the file
      lists for it, and of no other step is there any; and the counters count what was received. */
  ghost predicate TasksKept(lines: seq<Line>, s: State) {
    forall k: nat :: StepKept(lines, s, k)
  }

  ghost predicate StepKept(lines: seq<Line>, s: State, k: nat) {
    && TasksIn(s.inFlight, k) + TasksIn(s.received, k) == (if k < |s.started| then multiset(TasksOf(lines, k)) else multiset{})
    && |TasksIn(s.received, k)| == Count(s.finished, k)
  }

  lemma ExecuteKeepsTasks(lines: seq<Line>, s: State, n: nat, k: nat)
    requires Inv(lines, s) && n in s.pending && StepKept(lines, s, k)
    ensures StepKept(lines, Execute(s.(pending := s.pending - multiset{n}), n), k)
  {
    NextIsNew(lines, s, n);
    ExecutePuts(s, n);
    hide Inv, TasksOf, TasksIn, Execute, FlowsOf, Count;
    if n in s.tasks {
      FlowsAreTasks(n, s.tasks[n], s.sports, s.dports);
      TasksInAll(s.inFlight, FlowsOf(n, s.tasks[n], s.sports, s.dports), s.tasks[n], n, k);
      Regroup(TasksIn(s.inFlight, k), if n == k then multiset(s.tasks[n]) else multiset{}, TasksIn(s.received, k));
    }
  }

  lemma ExecutePuts(s: State, n: nat)
    ensures var t := Execute(s.(pending := s.pending - multiset{n}), n);
      && t.received == s.received && t.finished == s.finished
      && (n !in s.tasks ==> t.inFlight == s.inFlight && t.started == s.started)
      && (n in s.tasks ==> t.started == s.started + [n]
                           && t.inFlight == s.inFlight + multiset(FlowsOf(n, s.tasks[n], s.sports, s.dports)))
  {
    hide Launch, FlowsOf;
    if n in s.tasks { LaunchFlows(n, s.tasks[n], Wire(s.sports, s.dports, s.inFlight)); }
  }

  lemma FlowsAreTasks(step: nat, ts: seq<Task>, sports: map<nat, Port>, dports: map<nat, Port>)
    ensures var flows := FlowsOf(step, ts, sports, dports);
      |flows| == |ts| && forall i :: 0 <= i < |flows| ==> flows[i].step == step && flows[i].task == ts[i]
  {
  }

  lemma NextIsNew(lines: seq<Line>, s: State, n: nat)
    requires Inv(lines, s) && n in s.pending
    ensures n == |s.started| && (n in s.tasks ==> s.tasks[n] == TasksOf(lines, n))
  {
    hide TasksOf;
  }

  lemma OneCounted(m: map<nat, nat>, f: Flow, k: nat)
    ensures Count(Incremented(m, f.step), k) == Count(m, k) + |TaskIf(f, k)|
  {
  }

  // c goes from what is left to what is done.
  lemma Handed<T>(left: multiset<T>, c: multiset<T>, done: multiset<T>)
    ensures left + (done + c) == left + c + done && |done + c| == |done| + |c|
  {
  }

  lemma FinishKeepsTasks(lines: seq<Line>, s: State, f: Flow, k: nat)
    requires StepKept(lines, s, k) && f in s.inFlight
    ensures StepKept(lines, Finish(s, f), k)
  {
    OneCounted(s.finished, f, k);
    hide TasksOf, TasksIn, Schedule, Incremented, Count, TaskIf;
    TasksInWithout(s.inFlight, f, k);
    TasksInWith(s.received, f, k);
    Handed(TasksIn(s.inFlight - multiset{f}, k), TaskIf(f, k), TasksIn(s.received, k));
  }

  lemma {:induction false} RunKeepsTasks(lines: seq<Line>, run: seq<State>, i: nat)
    requires Run(lines, run) && i < |run|
    ensures TasksKept(lines, run[i])
  {
    hide Inv, Execute, Finish, TasksOf, Loaded;
    if i > 0 {
      hide StepKept;
      RunKeepsTasks(lines, run, i - 1);
      RunInv(lines, run, i - 1);
      var s, t := run[i - 1], run[i];
      assert Step(run[i - 1], run[i - 1 + 1]);
      if n :| n in s.pending && t == Execute(s.(pending := s.pending - multiset{n}), n) {
        forall k: nat ensures StepKept(lines, t, k) { ExecuteKeepsTasks(lines, s, n, k); }
      } else {
        var f :| f in s.inFlight && t == Finish(s, f);
        forall k: nat ensures StepKept(lines, t, k) { FinishKeepsTasks(lines, s, f, k); }
      }
    }
  }

  /** Tasks are conserved in every run, not only their number: nothing but what the file lists is
      ever in flight, and all of a step that has started is in flight or has been received. */
  lemma TasksConserved(lines: seq<Line>, run: seq<State>, i: nat, k: nat)
    requires Run(lines, run) && i < |run|
    ensures TasksIn(run[i].inFlight, k) + TasksIn(run[i].received, k)
         == if k < |run[i].started| then multiset(TasksOf(lines, k)) else multiset{}
    ensures |TasksIn(run[i].received, k)| == Count(run[i].finished, k)
  {
    hide TasksIn, TasksOf, Run;
    RunKeepsTasks(lines, run, i);
    assert StepKept(lines, run[i], k);
  }
}
