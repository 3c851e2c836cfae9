/** Where the results of test.py's worker pool come from: each from one event of the run, with the
    exit code of the job that event finished, and the code returned from all of these. */
module WorkerPoolResults {
  import opened WorkerPool
  import opened WorkerPoolRuns

  // The state before event j.
  ghost function StateAt(s: State, es: seq<Event>, t: State, j: nat): State
    requires Run(s, es, t) && j <= |es|
    decreases |es|
  {
    if j == 0 then s else StateAt(Next(s, es[0]), es[1..], t, j - 1)
  }

  /** Event j ends the treatment of a job with this result: the job worker w was running returns a
      code, or worker w finds the program interrupted, or else the job it holds marked. */
  ghost predicate Makes(s: State, es: seq<Event>, t: State, j: nat, r: Result)
    requires Run(s, es, t) && j < |es|
  {
    var u := StateAt(s, es, t, j);
    match es[j]
    case Finish(w, code) => w < |u.workers| && u.workers[w] == Running(r.id) && r == Ran(r.id, code)
    case Decide(w) => && w < |u.workers| && u.workers[w] == Holding(r.id)
                      && if Interrupt in es[..j] then r == Interrupted(r.id)
                         else r.id < |s.skip| && s.skip[r.id] && r == Skipped(r.id)
    case _ => false
  }

  // The result an event makes, if any, seen from the state before it.
  ghost function MadeBy(s: State, e: Event): multiset<Result>
    requires Enabled(s, e)
  {
    match e
    case Finish(w, code) => multiset{Ran(s.workers[w].id, code)}
    case Decide(w) =>
      var id := s.workers[w].id;
      if s.threadExit then multiset{Interrupted(id)} else if s.skip[id] then multiset{Skipped(id)} else multiset{}
    case _ => multiset{}
  }

  ghost function Made(s: State, es: seq<Event>, t: State): multiset<Result>
    requires Run(s, es, t)
    decreases |es|
  {
    if es == [] then multiset{} else MadeBy(s, es[0]) + Made(Next(s, es[0]), es[1..], t)
  }

  ghost function Reported(ws: seq<Worker>): multiset<Result> {
    if ws == [] then multiset{} else ReportedBy(ws[0]) + Reported(ws[1..])
  }

  ghost function ReportedBy(w: Worker): multiset<Result> {
    if w.Reporting? then multiset{w.result} else multiset{}
  }

  // Results on their way: with a worker, in the queue, or collected.
  ghost function OnTheWay(s: State): multiset<Result> {
    Reported(s.workers) + multiset(s.output) + multiset(s.collected)
  }

  lemma Balanced(a: multiset<Result>, p: multiset<Result>, c: multiset<Result>, q: multiset<Result>, d: multiset<Result>)
    requires p + c == q + d
    ensures (a + p) + c == (a + q) + d
  {
    forall r ensures ((a + p) + c)[r] == ((a + q) + d)[r] {
      assert (p + c)[r] == (q + d)[r];
    }
  }

  lemma Exchanged(a: multiset<Result>, b: multiset<Result>, c: multiset<Result>)
    ensures (a + b) + c == (c + b) + a
  {
  }

  lemma {:induction false} ReportedUpdate(ws: seq<Worker>, w: nat, x: Worker)
    requires w < |ws|
    ensures Reported(ws[w := x]) + ReportedBy(ws[w]) == Reported(ws) + ReportedBy(x)
  {
    if w == 0 {
      assert ws[0 := x][1..] == ws[1..] && ws[0 := x][0] == x;
      hide ReportedBy;
      Exchanged(ReportedBy(x), Reported(ws[1..]), ReportedBy(ws[0]));
    } else {
      ReportedUpdate(ws[1..], w - 1, x);
      assert ws[w := x][1..] == ws[1..][w - 1 := x] && ws[w := x][0] == ws[0];
      hide ReportedBy;
      Balanced(ReportedBy(ws[0]), Reported(ws[1..][w - 1 := x]), ReportedBy(ws[w]), Reported(ws[1..]), ReportedBy(x));
    }
  }

  lemma {:induction false} NothingReported(ws: seq<Worker>)
    requires forall w :: 0 <= w < |ws| ==> !ws[w].Reporting?
    ensures Reported(ws) == multiset{}
  {
    if ws != [] { NothingReported(ws[1..]); }
  }

  // What a worker's step does to the results on their way.
  lemma WorkerReports(s: State, w: nat, x: Worker, output: seq<Result>, made: multiset<Result>)
    requires w < |s.workers|
    requires multiset(output) + ReportedBy(x) == multiset(s.output) + ReportedBy(s.workers[w]) + made
    ensures Reported(s.workers[w := x]) + multiset(output) + multiset(s.collected) == OnTheWay(s) + made
  {
    ReportedUpdate(s.workers, w, x);
    hide Reported, ReportedBy;
    var a, b, p, q := Reported(s.workers[w := x]), ReportedBy(s.workers[w]), Reported(s.workers), ReportedBy(x);
    forall r ensures (a + multiset(output) + multiset(s.collected))[r] == (p + multiset(s.output) + multiset(s.collected) + made)[r] {
      assert (a + b)[r] == (p + q)[r] && (multiset(output) + q)[r] == (multiset(s.output) + b + made)[r];
    }
  }

  lemma QueueMoves(output: seq<Result>, collected: seq<Result>, rest: multiset<Result>)
    requires output != []
    ensures rest + multiset(output[1..]) + multiset(collected + [output[0]]) == rest + multiset(output) + multiset(collected)
  {
    assert output == [output[0]] + output[1..];
  }

  lemma MainReports(s: State)
    requires Enabled(s, MainStep)
    ensures OnTheWay(NextMain(s)) == OnTheWay(s)
  {
    hide Reported;
    if s.main.Collecting? && s.main.i < |s.skip| { QueueMoves(s.output, s.collected, Reported(s.workers)); }
  }

  // A worker that reports nothing yet comes to report what its step makes.
  lemma StepMakes(s: State, e: Event)
    requires Enabled(s, e) && (e.Take? || e.Decide? || e.Finish?)
    ensures var t := Next(s, e); ReportedBy(t.workers[e.w]) == MadeBy(s, e) && t.output == s.output
    ensures ReportedBy(s.workers[e.w]) == multiset{}
  {
  }

  lemma Same(a: multiset<Result>, x: multiset<Result>)
    ensures a + x == a + multiset{} + x
  {
  }

  // What the steps of worker w add to its own result and those in the queue.
  lemma WorkerMakes(s: State, e: Event)
    requires Enabled(s, e) && !e.MainStep? && !e.Interrupt?
    ensures var t := Next(s, e);
      multiset(t.output) + ReportedBy(t.workers[e.w]) == multiset(s.output) + ReportedBy(s.workers[e.w]) + MadeBy(s, e)
  {
    if e.Report? {
      AddedOne(s.output, s.workers[e.w].result);
    } else {
      StepMakes(s, e);
      hide ReportedBy, MadeBy, Next;
      Same(multiset(s.output), MadeBy(s, e));
    }
  }

  lemma AddedOne(output: seq<Result>, r: Result)
    ensures multiset(output + [r]) + multiset{} == multiset(output) + multiset{r} + multiset{}
  {
  }

  lemma OneWorker(s: State, e: Event)
    requires Enabled(s, e) && !e.MainStep? && !e.Interrupt?
    ensures var t := Next(s, e); t.workers == s.workers[e.w := t.workers[e.w]] && t.collected == s.collected
  {
  }

  /** A result is added to those on their way exactly by the events that make one, and none is lost. */
  lemma OneEvent(s: State, e: Event)
    requires Enabled(s, e)
    ensures OnTheWay(Next(s, e)) == OnTheWay(s) + MadeBy(s, e)
  {
    if e.MainStep? {
      MainReports(s);
    } else if e != Interrupt {
      WorkerMakes(s, e);
      OneWorker(s, e);
      hide Reported, Next, MadeBy, ReportedBy;
      WorkerReports(s, e.w, Next(s, e).workers[e.w], Next(s, e).output, MadeBy(s, e));
    }
  }

  lemma {:induction false} WholeRun(s: State, es: seq<Event>, t: State)
    requires Run(s, es, t)
    ensures OnTheWay(t) == OnTheWay(s) + Made(s, es, t)
    decreases |es|
  {
    hide OnTheWay, MadeBy;
    if es != [] {
      OneEvent(s, es[0]);
      WholeRun(Next(s, es[0]), es[1..], t);
    }
  }

  lemma NoneOnTheWay(s: State)
    requires s.output == [] && forall w :: 0 <= w < |s.workers| ==> !s.workers[w].Reporting?
    ensures OnTheWay(s) == multiset(s.collected)
  {
    NothingReported(s.workers);
  }

  /** When the main thread has returned, it has collected the results made, no more and no less. */
  lemma CollectedIsMade(s: State, es: seq<Event>, t: State)
    requires Initial(s) && Run(s, es, t) && t.main.Returned?
    ensures multiset(t.collected) == Made(s, es, t)
  {
    hide Inv, Gather, Run;
    InitialInv(s);
    RunInv(s, es, t);
    ReturnedIsDone(t);
    NoneOnTheWay(s);
    NoneOnTheWay(t);
    hide OnTheWay, Made, Initial;
    WholeRun(s, es, t);
    Same(multiset{}, Made(s, es, t));
  }

  /* Each result is made by one event, and is that of its job. */

  // As Makes, for runs that begin anywhere: the program may be interrupted already.
  ghost predicate MakesFrom(s: State, es: seq<Event>, t: State, j: nat, r: Result)
    requires Run(s, es, t) && j < |es|
  {
    var u := StateAt(s, es, t, j);
    Enabled(u, es[j]) && r in MadeBy(u, es[j])
  }

  lemma {:induction false} StateBefore(s: State, es: seq<Event>, t: State, j: nat)
    requires Run(s, es, t) && j < |es|
    ensures var u := StateAt(s, es, t, j);
      && Enabled(u, es[j]) && u.skip == s.skip
      && (u.threadExit <==> s.threadExit || Interrupt in es[..j])
    decreases |es|
  {
    if j > 0 {
      StateBefore(Next(s, es[0]), es[1..], t, j - 1);
      assert es[..j] == [es[0]] + es[1..][..j - 1];
    }
  }

  lemma MakesIs(s: State, es: seq<Event>, t: State, j: nat, r: Result)
    requires Initial(s) && Run(s, es, t) && j < |es|
    ensures Makes(s, es, t, j, r) <==> MakesFrom(s, es, t, j, r)
  {
    hide Run, StateAt;
    StateBefore(s, es, t, j);
  }

  lemma {:induction false} MadeIffEvent(s: State, es: seq<Event>, t: State, r: Result)
    requires Run(s, es, t)
    ensures r in Made(s, es, t) <==> exists j: nat :: j < |es| && MakesFrom(s, es, t, j, r)
    decreases |es|
  {
    hide MadeBy, Next, Enabled;
    if es != [] {
      var u, rest := Next(s, es[0]), es[1..];
      MadeIffEvent(u, rest, t, r);
      forall j: nat | j < |rest| ensures MakesFrom(u, rest, t, j, r) <==> MakesFrom(s, es, t, j + 1, r) {
      }
      if r in MadeBy(s, es[0]) { assert MakesFrom(s, es, t, 0, r); }
      if r in Made(u, rest, t) {
        var j: nat :| j < |rest| && MakesFrom(u, rest, t, j, r);
        assert MakesFrom(s, es, t, j + 1, r);
      }
      if j: nat :| j < |es| && MakesFrom(s, es, t, j, r) {
        if j > 0 { assert MakesFrom(u, rest, t, j - 1, r); }
      }
    }
  }

  // Two events make two results.
  lemma {:induction false} MadeByBoth(s: State, es: seq<Event>, t: State, i: nat, j: nat, q: Result, r: Result)
    requires Run(s, es, t) && i < j < |es| && MakesFrom(s, es, t, i, q) && MakesFrom(s, es, t, j, r)
    ensures multiset{q, r} <= Made(s, es, t)
    decreases |es|
  {
    hide MadeBy, Next, Enabled;
    var u, rest := Next(s, es[0]), es[1..];
    if i > 0 {
      MadeByBoth(u, rest, t, i - 1, j - 1, q, r);
    } else {
      assert MakesFrom(u, rest, t, j - 1, r);
      MadeIffEvent(u, rest, t, r);
    }
  }

  lemma ResultCounts(rs: seq<Result>, r: Result)
    requires r in multiset(rs)
    ensures Gather(rs, IdOf)[r.id] >= 1
  {
    GatherHas(rs, IdOf);
    var k :| 0 <= k < |rs| && rs[k] == r;
    assert IdOf(rs[k])[r.id] == 1;
  }

  lemma LastResult(rs: seq<Result>)
    requires rs != []
    ensures multiset(rs) == multiset(rs[..|rs|-1]) + multiset{rs[|rs|-1]}
  {
    assert rs == rs[..|rs|-1] + [rs[|rs|-1]];
  }

  lemma LastId(rs: seq<Result>)
    requires rs != []
    ensures Gather(rs, IdOf) == Gather(rs[..|rs|-1], IdOf) + multiset{rs[|rs|-1].id}
  {
    hide Gather;
    GatherSnoc(rs[..|rs|-1], rs[|rs|-1], IdOf);
    assert rs == rs[..|rs|-1] + [rs[|rs|-1]];
  }

  lemma {:induction false} TwoResults(rs: seq<Result>, q: Result, r: Result)
    requires multiset{q, r} <= multiset(rs) && q.id == r.id
    ensures Gather(rs, IdOf)[q.id] >= 2
  {
    hide Gather, IdOf;
    assert q in multiset(rs);
    LastResult(rs);
    LastId(rs);
    var front, last := rs[..|rs|-1], rs[|rs|-1];
    if last == r {
      assert q in multiset(front);
      ResultCounts(front, q);
    } else if last == q {
      ResultCounts(front, r);
    } else {
      TwoResults(front, q, r);
    }
  }

  /** What the main thread has collected at its return: a result is there if and only if some event
      of the run made it, and for each job there is one such event only. */
  lemma ResultsAreMade(s: State, es: seq<Event>, t: State)
    requires Initial(s) && Run(s, es, t) && t.main.Returned?
    ensures forall r :: r in t.collected <==> exists j: nat :: j < |es| && Makes(s, es, t, j, r)
    ensures forall i: nat, j: nat, q, r :: i < |es| && j < |es| && Makes(s, es, t, i, q) && Makes(s, es, t, j, r) && q.id == r.id ==> i == j
  {
    CollectedIsMade(s, es, t);
    hide Made, Makes, MakesFrom, Run;
    forall r ensures r in t.collected <==> exists j: nat :: j < |es| && Makes(s, es, t, j, r) {
      MadeIffEvent(s, es, t, r);
      forall j: nat | j < |es| ensures Makes(s, es, t, j, r) <==> MakesFrom(s, es, t, j, r) { MakesIs(s, es, t, j, r); }
      assert r in t.collected <==> r in multiset(t.collected);
    }
    forall i: nat, j: nat, q, r | i < |es| && j < |es| && Makes(s, es, t, i, q) && Makes(s, es, t, j, r) && q.id == r.id
      ensures i == j
    {
      if i != j { OneEventEach(s, es, t, if i < j then i else j, if i < j then j else i, if i < j then q else r, if i < j then r else q); }
    }
  }

  lemma OneEventEach(s: State, es: seq<Event>, t: State, i: nat, j: nat, q: Result, r: Result)
    requires Initial(s) && Run(s, es, t) && t.main.Returned? && i < j < |es|
    requires Makes(s, es, t, i, q) && Makes(s, es, t, j, r)
    ensures q.id != r.id
  {
    hide Made, Makes, MakesFrom, Run, Inv;
    MakesIs(s, es, t, i, q);
    MakesIs(s, es, t, j, r);
    if q.id == r.id {
      MadeByBoth(s, es, t, i, j, q, r);
      CollectedIsMade(s, es, t);
      TwoResults(t.collected, q, r);
      InitialInv(s);
      RunInv(s, es, t);
      ReturnedIsDone(t);
      UpToIs(|s.skip|);
      assert false;
    }
  }

  // The result that an event makes, if it ends the treatment of a job.
  lemma EventMakes(s: State, es: seq<Event>, t: State, j: nat) returns (r: Result)
    requires Initial(s) && Run(s, es, t) && j < |es| && (es[j].Finish? || (es[j].Decide? && Interrupt in es[..j]))
    ensures Makes(s, es, t, j, r)
    ensures Good(r) <==> es[j].Finish? && es[j].code == 0
  {
    StateBefore(s, es, t, j);
    var u := StateAt(s, es, t, j);
    hide Run, Initial, StateAt;
    r := if es[j].Finish? then Ran(u.workers[es[j].w].id, es[j].code) else Interrupted(u.workers[es[j].w].id);
  }

  lemma Collected(s: State, es: seq<Event>, t: State, j: nat, r: Result)
    requires Initial(s) && Run(s, es, t) && t.main.Returned? && j < |es| && Makes(s, es, t, j, r)
    ensures exists i :: 0 <= i < |t.collected| && t.collected[i] == r
  {
    hide Makes, Run, Initial;
    ResultsAreMade(s, es, t);
    assert r in t.collected;
  }

  lemma GoodIfMade(s: State, es: seq<Event>, t: State, r: Result)
    requires Initial(s) && Run(s, es, t) && t.main.Returned? && r in t.collected
    requires forall j: nat :: j < |es| && es[j].Finish? ==> es[j].code == 0
    requires forall j: nat :: j < |es| && es[j].Decide? ==> Interrupt !in es[..j]
    ensures Good(r)
  {
    hide Run, Initial, StateAt;
    ResultsAreMade(s, es, t);
    var j: nat :| j < |es| && Makes(s, es, t, j, r);
  }

  /** The code returned, from the events of the run: 0 if and only if every job that was run returned
      0, and no worker took up a job after an interrupt. */
  lemma CodeFromEvents(s: State, es: seq<Event>, t: State)
    requires Initial(s) && Run(s, es, t) && t.main.Returned?
    ensures t.main.code == 0 <==>
              && (forall j: nat :: j < |es| && es[j].Finish? ==> es[j].code == 0)
              && (forall j: nat :: j < |es| && es[j].Decide? ==> Interrupt !in es[..j])
  {
    ReturnCode(s, es, t);
    hide Run, Initial, Good, Fair;
    if t.main.code == 0 {
      forall j: nat | j < |es| && (es[j].Finish? || (es[j].Decide? && Interrupt in es[..j])) ensures es[j].Finish? && es[j].code == 0 {
        var r := EventMakes(s, es, t, j);
        Collected(s, es, t, j, r);
      }
    } else {
      var i :| 0 <= i < |t.collected| && !Good(t.collected[i]);
      if (forall j: nat :: j < |es| && es[j].Finish? ==> es[j].code == 0) && forall j: nat :: j < |es| && es[j].Decide? ==> Interrupt !in es[..j] {
        GoodIfMade(s, es, t, t.collected[i]);
        assert false;
      }
    }
  }
}
