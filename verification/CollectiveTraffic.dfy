/** The flow files of gen_scaleup_traffic.py, as input to the step barrier. */
module CollectiveTraffic {
  import opened StepBarrier

  const PG: nat := 3

  // A GPU's share of the total, without a fraction.
  function ChunkSize(totalSizeBytes: real, gpus: nat): (chunk: nat)
    requires totalSizeBytes >= 0.0 && gpus > 0
    ensures chunk as real <= totalSizeBytes / gpus as real < chunk as real + 1.0
  {
    NotNegative(totalSizeBytes, gpus as real);
    (totalSizeBytes / gpus as real).Floor
  }

  lemma NotNegative(total: real, n: real)
    requires total >= 0.0 && n > 0.0
    ensures total / n >= 0.0
  {
  }

  // The flow GPU src sends to its neighbour on the ring.
  function RingTask(gpus: nat, chunk: nat, src: nat): Task
    requires gpus > 0
  {
    Task(src, (src + 1) % gpus, PG, chunk as real)
  }

  function RingTasks(gpus: nat, chunk: nat, n: nat): (ts: seq<Task>)
    requires gpus > 0
    ensures |ts| == n && forall i :: 0 <= i < n ==> ts[i] == RingTask(gpus, chunk, i)
  {
    if n == 0 then [] else RingTasks(gpus, chunk, n - 1) + [RingTask(gpus, chunk, n - 1)]
  }

  lemma TasksAppend(lines: seq<Line>, l: Line, k: nat)
    ensures TasksOf(lines + [l], k) == TasksOf(lines, k) + if l.step == k then [l.task] else []
  {
    assert (lines + [l])[..|lines|] == lines;
  }

  /** 2 * (n - 1) steps, in each of which every GPU sends one chunk to its neighbour. */
  method GenAllReduceRing(numGpus: nat, totalSizeBytes: real) returns (flows: seq<Line>)
    requires numGpus > 0 && totalSizeBytes >= 0.0
    ensures forall k: nat :: TasksOf(flows, k) ==
              if k < 2 * (numGpus - 1) then RingTasks(numGpus, ChunkSize(totalSizeBytes, numGpus), numGpus) else []
  {
    hide TasksOf;
    flows := [];
    var chunkSize := ChunkSize(totalSizeBytes, numGpus);
    var totalSteps := 2 * (numGpus - 1);
    NoTasks();
    for stepId := 0 to totalSteps
      invariant forall k: nat :: TasksOf(flows, k) == if k < stepId then RingTasks(numGpus, chunkSize, numGpus) else []
    {
      for src := 0 to numGpus
        invariant forall k: nat :: TasksOf(flows, k) ==
                    if k < stepId then RingTasks(numGpus, chunkSize, numGpus)
                    else if k == stepId then RingTasks(numGpus, chunkSize, src) else []
      {
        var dst := (src + 1) % numGpus;
        var line := Line(Task(src, dst, PG, chunkSize as real), stepId);
        forall k: nat ensures TasksOf(flows + [line], k) == TasksOf(flows, k) + if line.step == k then [line.task] else [] {
          TasksAppend(flows, line, k);
        }
        flows := flows + [line];
      }
    }
  }

  lemma NoTasks()
    ensures forall k: nat :: TasksOf([], k) == []
  {
  }

  predicate InAllToAll(l: Line, chunk: nat) { l.step == 0 && l.task.size == chunk as real && l.task.pg == 3 }

  /** Everything belongs to step 0: one chunk from each GPU to each other one. */
  method GenAllToAll(numGpus: nat, totalSizeBytes: real) returns (flows: seq<Line>)
    requires numGpus > 0 && totalSizeBytes >= 0.0
    ensures forall i :: 0 <= i < |flows| ==> InAllToAll(flows[i], ChunkSize(totalSizeBytes, numGpus))
    ensures forall s: nat, d: nat :: HasPair(flows, s, d) <==> s < numGpus && d < numGpus && s != d
    ensures |flows| == numGpus * (numGpus - 1)
  {
    flows := [];
    var chunkSize := ChunkSize(totalSizeBytes, numGpus);
    for src := 0 to numGpus
      invariant forall i :: 0 <= i < |flows| ==> InAllToAll(flows[i], chunkSize)
      invariant forall s: nat, d: nat :: HasPair(flows, s, d) <==> s < src && d < numGpus && s != d
      invariant |flows| == src * (numGpus - 1)
    {
      for dst := 0 to numGpus
        invariant forall i :: 0 <= i < |flows| ==> InAllToAll(flows[i], chunkSize)
        invariant forall s: nat, d: nat :: HasPair(flows, s, d) <==> (s < src && d < numGpus && s != d) || (s == src && d < dst && s != d)
        invariant |flows| == src * (numGpus - 1) + dst - if dst > src then 1 else 0
      {
        if src == dst {
          continue;
        }
        var line := Line(Task(src, dst, PG, chunkSize as real), 0);
        PairAppend(flows, line);
        flows := flows + [line];
      }
    }
  }

  ghost predicate HasPair(flows: seq<Line>, s: nat, d: nat) {
    exists i :: 0 <= i < |flows| && flows[i].task.src == s && flows[i].task.dst == d
  }

  lemma PairAppend(flows: seq<Line>, l: Line)
    ensures forall s: nat, d: nat :: HasPair(flows + [l], s, d) <==> HasPair(flows, s, d) || (l.task.src == s && l.task.dst == d)
  {
    var more := flows + [l];
    forall s: nat, d: nat ensures HasPair(more, s, d) <==> HasPair(flows, s, d) || (l.task.src == s && l.task.dst == d) {
      if HasPair(flows, s, d) {
        var i :| 0 <= i < |flows| && flows[i].task.src == s && flows[i].task.dst == d;
        assert more[i] == flows[i];
      }
      assert more[|flows|] == l;
    }
  }

  lemma RingNext(gpus: nat, i: nat)
    requires i < gpus
    ensures (i + 1) % gpus == if i + 1 == gpus then 0 else i + 1
  {
  }

  /** On the ring every GPU sends one chunk and receives one from exactly one other in each step. */
  lemma RingReceives(gpus: nat, chunk: nat, d: nat)
    requires d < gpus
    ensures var ts := RingTasks(gpus, chunk, gpus);
            var s := if d == 0 then gpus - 1 else d - 1;
            && ts[s].dst == d && (forall i :: 0 <= i < gpus && ts[i].dst == d ==> i == s)
            && forall i :: 0 <= i < gpus ==> ts[i].src == i && ts[i].pg == 3 && ts[i].size == chunk as real
  {
    var ts := RingTasks(gpus, chunk, gpus);
    forall i | 0 <= i < gpus ensures ts[i].dst == if i + 1 == gpus then 0 else i + 1 {
      RingNext(gpus, i);
    }
  }

  /** The ring's flow file has no gap, so every run of the simulation that has nothing left to
      process has started all 2 * (n - 1) steps and passes the stop test; with one GPU there are
      no flows, and it passes at once. */
  lemma RingCompletes(gpus: nat, chunk: nat, lines: seq<Line>, run: seq<State>)
    requires gpus >= 1 && Run(lines, run)
    requires forall k: nat :: TasksOf(lines, k) == if k < 2 * (gpus - 1) then RingTasks(gpus, chunk, gpus) else []
    requires Quiet(run[|run|-1])
    ensures Stops(run[|run|-1]) && |run[|run|-1].started| == 2 * (gpus - 1)
  {
    hide TasksOf, TotalTo;
    RunEnds(lines, run, |run| - 1);
    RunInv(lines, run, |run| - 1);
    var s := run[|run|-1];
    hide Inv, Run, Quiet, Stops;
    var n := |s.started|;
    assert TasksOf(lines, n) == [];
    var steps: nat := 2 * (gpus - 1);
    assert n > steps ==> TasksOf(lines, steps) != [];
    assert TasksOf(lines, steps) == [];
    if steps == 0 {
      NoLines(lines);
    } else {
      MaxStepOfRing(lines, s, steps);
    }
  }

  lemma NoLines(lines: seq<Line>)
    requires forall k: nat :: TasksOf(lines, k) == []
    ensures lines == []
  {
    hide TasksOf;
    if lines != [] { TasksAppear(lines, lines[0].step); }
  }

  lemma MaxStepOfRing(lines: seq<Line>, s: State, n: nat)
    requires Inv(lines, s) && n > 0 && forall k: nat :: TasksOf(lines, k) != [] <==> k < n
    ensures Contiguous(lines, s.maxStep)
  {
    hide TasksOf;
    assert s.maxStep == 0 || TasksOf(lines, s.maxStep) != [];
  }
}
