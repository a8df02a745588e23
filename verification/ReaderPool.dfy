/** The pool of workers that reads the runtime sources: all workers share one counter and
    one output array, and every read may finish at any time. */
module ReaderPool {
  import opened Text

  const FILE_READ_CONCURRENCY := 24

  datatype File = File(relativePath: string, source: string)

  /** The listed paths, `path.relative` from the root, and what reading each of them
      gives; a read that throws gives nothing. */
  datatype Job = Job(paths: seq<string>, relative: string -> string, read: nat -> Option<string>)

  /** A worker at the top of its loop, waiting for a read, or returned. */
  datatype Worker = Ready | Reading(index: nat) | Done

  /** `claims` records the indices handed out. */
  datatype Pool = Pool(nextIndex: nat, workers: seq<Worker>, output: seq<Option<File>>, claims: seq<nat>)

  function FileAt(job: Job, i: nat): Option<File>
    requires i < |job.paths|
  {
    if job.paths[i] == "" then None
    else
      match job.read(i)
      case None => None
      case Some(text) => Some(File(job.relative(job.paths[i]), text))
  }

  function Filter(output: seq<Option<File>>): seq<File> {
    if output == [] then []
    else
      var init := Filter(output[..|output| - 1]);
      match output[|output| - 1]
      case None => init
      case Some(f) => init + [f]
  }

  /** The sequential reading of all paths in order. */
  function Sequential(job: Job): seq<File> {
    Filter(seq(|job.paths|, i requires 0 <= i < |job.paths| => FileAt(job, i)))
  }

  function WorkerCount(job: Job): nat {
    var n := if |job.paths| < 1 then 1 else |job.paths|;
    if n < FILE_READ_CONCURRENCY then n else FILE_READ_CONCURRENCY
  }

  function Started(job: Job): Pool {
    Pool(0, seq(WorkerCount(job), _ => Ready), seq(|job.paths|, _ => None), [])
  }

  /** Worker `w` runs until its next suspension point. */
  function Step(job: Job, p: Pool, w: nat): Pool {
    if w >= |p.workers| then p
    else
      match p.workers[w]
      case Done => p
      case Ready =>
        var index := p.nextIndex;
        if index >= |job.paths| then p.(nextIndex := index + 1, workers := p.workers[w := Done])
        else p.(nextIndex := index + 1, claims := p.claims + [index],
                workers := if job.paths[index] == "" then p.workers else p.workers[w := Reading(index)])
      case Reading(index) =>
        p.(workers := p.workers[w := Ready],
           output := if index < |p.output| && index < |job.paths| && job.read(index).Some?
                     then p.output[index := FileAt(job, index)] else p.output)
  }

  function Run(job: Job, schedule: seq<nat>): Pool {
    if schedule == [] then Started(job)
    else Step(job, Run(job, schedule[..|schedule| - 1]), schedule[|schedule| - 1])
  }

  predicate Finished(p: Pool) {
    forall w | 0 <= w < |p.workers| :: p.workers[w].Done?
  }

  // ---------- the invariant ----------

  ghost predicate BeingRead(p: Pool, i: nat) {
    exists w :: 0 <= w < |p.workers| && p.workers[w] == Reading(i)
  }

  /** Each index below the counter has been claimed once; its result is in place unless
      exactly one worker is still reading it. */
  ghost predicate Inv(job: Job, p: Pool) {
    && |p.output| == |job.paths| && |p.workers| == WorkerCount(job)
    && |p.claims| == (if p.nextIndex < |job.paths| then p.nextIndex else |job.paths|)
    && (forall i | 0 <= i < |p.claims| :: p.claims[i] == i)
    && (forall w | 0 <= w < |p.workers| && p.workers[w].Reading? ::
          p.workers[w].index < |p.claims| && job.paths[p.workers[w].index] != "")
    && (forall v, w | 0 <= v < w < |p.workers| && p.workers[v].Reading? :: p.workers[v] != p.workers[w])
    && (forall w | 0 <= w < |p.workers| && p.workers[w].Done? :: p.nextIndex > |job.paths|)
    && (forall i | 0 <= i < |job.paths| ::
          p.output[i] == if i < |p.claims| && !BeingRead(p, i) then FileAt(job, i) else None)
  }

  lemma StartedInv(job: Job)
    ensures Inv(job, Started(job))
  {
  }

  lemma ClaimInv(job: Job, p: Pool, w: nat)
    requires Inv(job, p) && w < |p.workers| && p.workers[w].Ready?
    ensures Inv(job, Step(job, p, w))
  {
    var p' := Step(job, p, w);
    forall i: nat | i < |job.paths|
      ensures BeingRead(p', i) <==> BeingRead(p, i) || (i == p.nextIndex && job.paths[i] != "")
    {
      if BeingRead(p, i) {
        var v :| 0 <= v < |p.workers| && p.workers[v] == Reading(i);
        assert p'.workers[v] == Reading(i);
      }
      if i == p.nextIndex && job.paths[i] != "" {
        assert p'.workers[w] == Reading(i);
      }
    }
  }

  lemma FinishReadInv(job: Job, p: Pool, w: nat)
    requires Inv(job, p) && w < |p.workers| && p.workers[w].Reading?
    ensures Inv(job, Step(job, p, w))
  {
    var p', index := Step(job, p, w), p.workers[w].index;
    forall i: nat | i < |job.paths|
      ensures BeingRead(p', i) <==> BeingRead(p, i) && i != index
    {
      if BeingRead(p, i) && i != index {
        var v :| 0 <= v < |p.workers| && p.workers[v] == Reading(i);
        assert p'.workers[v] == Reading(i);
      }
      if BeingRead(p', i) {
        var v :| 0 <= v < |p.workers| && p'.workers[v] == Reading(i);
        assert p.workers[v] == Reading(i) && v != w;
      }
    }
    assert BeingRead(p, index);
  }

  lemma StepInv(job: Job, p: Pool, w: nat)
    requires Inv(job, p)
    ensures Inv(job, Step(job, p, w))
  {
    if w < |p.workers| {
      match p.workers[w]
      case Ready => ClaimInv(job, p, w);
      case Reading(_) => FinishReadInv(job, p, w);
      case Done =>
    }
  }

  /** A finished pool has claimed every index and holds the sequential result. */
  lemma FinishedResult(job: Job, p: Pool)
    requires Inv(job, p) && Finished(p)
    ensures p.claims == seq(|job.paths|, i => i)
    ensures Filter(p.output) == Sequential(job)
  {
    assert p.workers[0].Done?;
    forall i: nat
      ensures !BeingRead(p, i)
    {
    }
    assert p.output == seq(|job.paths|, i requires 0 <= i < |job.paths| => FileAt(job, i));
  }

  /** Under every schedule each index is claimed exactly once, and once all workers have
      returned the result is the sequential one. */
  lemma {:induction false} EverySchedule(job: Job, schedule: seq<nat>)
    ensures Inv(job, Run(job, schedule))
    ensures Finished(Run(job, schedule)) ==>
              Run(job, schedule).claims == seq(|job.paths|, i => i) && Filter(Run(job, schedule).output) == Sequential(job)
  {
    if schedule == [] {
      StartedInv(job);
    } else {
      EverySchedule(job, schedule[..|schedule| - 1]);
      StepInv(job, Run(job, schedule[..|schedule| - 1]), schedule[|schedule| - 1]);
    }
    if Finished(Run(job, schedule)) {
      FinishedResult(job, Run(job, schedule));
    }
  }

  // ---------- termination ----------

  function Weight(workers: seq<Worker>): nat {
    if workers == [] then 0
    else Weight(workers[..|workers| - 1]) +
         match workers[|workers| - 1] case Ready => 1 case Reading(_) => 2 case Done => 0
  }

  /** Steps left: two per unclaimed index and what each worker still owes. */
  function StepsLeft(job: Job, p: Pool): nat {
    Weight(p.workers) + 2 * (if p.nextIndex < |job.paths| then |job.paths| - p.nextIndex else 0)
  }

  lemma {:induction false} WeightUpdate(workers: seq<Worker>, w: nat, x: Worker)
    requires w < |workers|
    ensures Weight(workers[w := x]) - Weight([x]) == Weight(workers) - Weight([workers[w]])
  {
    var n := |workers| - 1;
    assert [x][..0] == [] && [workers[w]][..0] == [];
    if w < n {
      WeightUpdate(workers[..n], w, x);
      assert workers[w := x][..n] == workers[..n][w := x];
    } else {
      assert workers[w := x][..n] == workers[..n];
    }
  }

  /** Every step of a worker that has not returned uses up part of the budget. */
  lemma StepProgress(job: Job, p: Pool, w: nat)
    requires w < |p.workers| && !p.workers[w].Done?
    ensures StepsLeft(job, Step(job, p, w)) < StepsLeft(job, p)
  {
    var p' := Step(job, p, w);
    if p'.workers != p.workers {
      WeightUpdate(p.workers, w, p'.workers[w]);
      assert Weight([Ready]) == 1 && Weight([Done]) == 0 && forall i :: Weight([Reading(i)]) == 2;
    }
  }

  lemma {:induction false} StartedWeight(n: nat)
    ensures Weight(seq(n, _ => Ready)) == n
  {
    if n > 0 {
      StartedWeight(n - 1);
      assert seq(n, _ => Ready)[..n - 1] == seq(n - 1, _ => Ready);
    }
  }

  /** A schedule that only runs workers that have not returned. */
  ghost predicate Live(job: Job, schedule: seq<nat>) {
    schedule != [] ==>
      && Live(job, schedule[..|schedule| - 1])
      && var p, w := Run(job, schedule[..|schedule| - 1]), schedule[|schedule| - 1];
         w < |p.workers| && !p.workers[w].Done?
  }

  /** No schedule keeps the pool running for more than `2n + workers` steps. */
  lemma {:induction false} PoolTerminates(job: Job, schedule: seq<nat>)
    requires Live(job, schedule)
    ensures |schedule| <= 2 * |job.paths| + WorkerCount(job) - StepsLeft(job, Run(job, schedule))
  {
    if schedule == [] {
      StartedWeight(WorkerCount(job));
    } else {
      var init := schedule[..|schedule| - 1];
      PoolTerminates(job, init);
      StepProgress(job, Run(job, init), schedule[|schedule| - 1]);
    }
  }

  // ---------- the shared variables ----------

  class Reader {
    const job: Job
    var nextIndex: nat
    var workers: seq<Worker>
    const output: array<Option<File>>
    var claims: seq<nat>

    ghost function Now(): Pool
      reads this, output
    {
      Pool(nextIndex, workers, output[..], claims)
    }

    constructor (job: Job)
      ensures this.job == job && fresh(output)
      ensures Now() == Started(job)
    {
      this.job := job;
      nextIndex := 0;
      workers := seq(WorkerCount(job), _ => Ready);
      output := new Option<File>[|job.paths|](_ => None);
      claims := [];
      new;
      assert output[..] == seq(|job.paths|, _ => None);
    }

    method RunWorker(w: nat)
      requires w < |workers| && !workers[w].Done?
      requires output.Length == |job.paths|
      modifies this, output
      ensures Now() == Step(job, old(Now()), w)
    {
      match workers[w] {
        case Ready =>
          var index := nextIndex;
          nextIndex := nextIndex + 1;
          if index >= |job.paths| {
            workers := workers[w := Done];
            return;
          }
          claims := claims + [index];
          if job.paths[index] == "" {
            return;
          }
          workers := workers[w := Reading(index)];
        case Reading(index) =>
          workers := workers[w := Ready];
          if index < |job.paths| && job.read(index).Some? {
            output[index] := FileAt(job, index);
          }
      }
    }
  }

  /** `readRuntimeSourceFiles` under an arbitrary scheduler: it always ends, with the
      result of reading the files one by one. */
  method ReadRuntimeSourceFiles(job: Job) returns (files: seq<File>)
    ensures files == Sequential(job)
  {
    var reader := new Reader(job);
    StartedInv(job);
    while exists w :: 0 <= w < |reader.workers| && !reader.workers[w].Done?
      invariant fresh(reader) && fresh(reader.output) && reader.job == job
      invariant Inv(job, reader.Now())
      decreases StepsLeft(job, reader.Now())
    {
      var w :| 0 <= w < |reader.workers| && !reader.workers[w].Done?;
      StepInv(job, reader.Now(), w);
      StepProgress(job, reader.Now(), w);
      reader.RunWorker(w);
    }
    FinishedResult(job, reader.Now());
    files := Filter(reader.output[..]);
  }

  // ---------- what is read ----------

  predicate IsRead(job: Job, i: nat) {
    i < |job.paths| && job.paths[i] != "" && job.read(i).Some?
  }

  /** The positions of the paths that are read, in order. */
  function ReadPositions(job: Job, n: nat): (r: seq<nat>)
    ensures forall k | 0 <= k < |r| :: r[k] < n && IsRead(job, r[k])
    ensures forall a, b | 0 <= a < b < |r| :: r[a] < r[b]
  {
    if n == 0 then [] else ReadPositions(job, n - 1) + if IsRead(job, n - 1) then [n - 1] else []
  }

  lemma {:induction false} PositionsLaw(job: Job, n: nat)
    ensures forall i: nat :: i in ReadPositions(job, n) <==> i < n && IsRead(job, i)
  {
    hide IsRead;
    if n > 0 {
      PositionsLaw(job, n - 1);
    }
  }

  function FileRead(job: Job, i: nat): File
    requires IsRead(job, i)
  {
    File(job.relative(job.paths[i]), job.read(i).value)
  }

  function FilesAt(job: Job, at: seq<nat>): (r: seq<File>)
    requires forall k | 0 <= k < |at| :: IsRead(job, at[k])
    ensures |r| == |at|
    ensures forall k | 0 <= k < |at| :: r[k] == FileRead(job, at[k])
  {
    if at == [] then [] else FilesAt(job, at[..|at| - 1]) + [FileRead(job, at[|at| - 1])]
  }

  function Outputs(job: Job, n: nat): seq<Option<File>>
    requires n <= |job.paths|
  {
    seq(n, i requires 0 <= i < n => FileAt(job, i))
  }

  lemma OutputsLast(job: Job, n: nat)
    requires n < |job.paths|
    ensures Outputs(job, n + 1) == Outputs(job, n) + [FileAt(job, n)]
  {
    hide FileAt;
  }

  lemma PositionsLast(job: Job, n: nat)
    requires n < |job.paths|
    ensures FilesAt(job, ReadPositions(job, n + 1)) ==
            FilesAt(job, ReadPositions(job, n)) + if IsRead(job, n) then [FileRead(job, n)] else []
  {
    hide IsRead, FileRead;
    if IsRead(job, n) {
      assert ReadPositions(job, n + 1)[..|ReadPositions(job, n)|] == ReadPositions(job, n);
    }
  }

  lemma {:induction false} FilteredAre(job: Job, n: nat)
    requires n <= |job.paths|
    ensures Filter(Outputs(job, n)) == FilesAt(job, ReadPositions(job, n))
  {
    hide FileAt, Filter, IsRead, Outputs, FilesAt, ReadPositions, FileRead;
    if n == 0 {
      NothingRead(job);
    } else {
      FilteredAre(job, n - 1);
      ReadOrNot(job, n - 1);
      OutputsLast(job, n - 1);
      PositionsLast(job, n - 1);
      FilterLast(Outputs(job, n - 1), FileAt(job, n - 1));
    }
  }

  lemma NothingRead(job: Job)
    ensures Filter(Outputs(job, 0)) == [] == FilesAt(job, ReadPositions(job, 0))
  {
  }

  lemma FilterLast(init: seq<Option<File>>, last: Option<File>)
    ensures Filter(init + [last]) == Filter(init) + if last.Some? then [last.value] else []
  {
    assert (init + [last])[..|init|] == init;
  }

  lemma ReadOrNot(job: Job, i: nat)
    requires i < |job.paths|
    ensures FileAt(job, i) ==
            if IsRead(job, i) then Some(FileRead(job, i)) else None
  {
  }

  /** The result lists, in the order of the paths, exactly the files that could be read, each
      under its relative path and with its own text. */
  lemma ResultExactly(job: Job) returns (at: seq<nat>)
    ensures forall a, b | 0 <= a < b < |at| :: at[a] < at[b]
    ensures forall i: nat :: i in at <==> i < |job.paths| && job.paths[i] != "" && job.read(i).Some?
    ensures |Sequential(job)| == |at|
    ensures forall k | 0 <= k < |at| :: at[k] < |job.paths| && job.read(at[k]).Some? &&
              Sequential(job)[k] == File(job.relative(job.paths[at[k]]), job.read(at[k]).value)
  {
    hide FileAt, Filter;
    at := ReadPositions(job, |job.paths|);
    PositionsLaw(job, |job.paths|);
    FilteredAre(job, |job.paths|);
    assert seq(|job.paths|, i requires 0 <= i < |job.paths| => FileAt(job, i)) == Outputs(job, |job.paths|);
  }

  /** No schedule ever runs more than 24 reads at a time, nor more than there are paths. */
  lemma {:induction false} AtMost24(job: Job, schedule: seq<nat>)
    ensures var n := |Run(job, schedule).workers|;
            1 <= n <= 24 && (n == 1 || n <= |job.paths|) && (n == 24 || n >= |job.paths|)
  {
    if schedule != [] {
      AtMost24(job, schedule[..|schedule| - 1]);
    }
  }
}
