/**
 The workers of the ingestion as they run: one per file in each pass, in any interleaving,
 each free to fail at any point, with a barrier after each pass.
 */
module IngestConcurrent {
  import opened Common
  import opened Ingest

  // ---------------------------------------------------------------- one pass of workers

  /** A worker folds the lines of its file into a private accumulator, then publishes it in its slot. */
  datatype Job<!A> = Job(step: (A, string) -> A, init: A, lines: seq<string>)

  datatype Status = Running | Done | Failed

  datatype Scan<A> = Scan(pos: nat, acc: A, status: Status)

  datatype Pass<A> = Pass(scans: seq<Scan<A>>, slots: seq<Option<A>>)

  datatype Move = Read(worker: nat) | Finish(worker: nat) | Fail(worker: nat)

  function Start<A>(jobs: seq<Job<A>>): Pass<A> {
    Pass(seq(|jobs|, i requires 0 <= i < |jobs| => Scan(0, jobs[i].init, Running)), seq(|jobs|, i => None))
  }

  predicate Enabled<A>(jobs: seq<Job<A>>, p: Pass<A>, mv: Move) {
    var i := mv.worker;
    && i < |jobs| == |p.scans| == |p.slots|
    && p.scans[i].status == Running
    && (mv.Read? ==> p.scans[i].pos < |jobs[i].lines|)
    && (mv.Finish? ==> p.scans[i].pos == |jobs[i].lines|)
  }

  function Moved<A>(jobs: seq<Job<A>>, p: Pass<A>, mv: Move): Pass<A>
    requires Enabled(jobs, p, mv)
  {
    var i := mv.worker;
    var s := p.scans[i];
    match mv
    case Read(_) => p.(scans := p.scans[i := Scan(s.pos + 1, jobs[i].step(s.acc, jobs[i].lines[s.pos]), Running)])
    case Finish(_) => Pass(p.scans[i := s.(status := Done)], p.slots[i := Some(s.acc)])
    case Fail(_) => p.(scans := p.scans[i := s.(status := Failed)])
  }

  function Schedule<A>(jobs: seq<Job<A>>, p: Pass<A>, moves: seq<Move>): Option<Pass<A>>
    decreases |moves|
  {
    if moves == [] then Some(p)
    else if Enabled(jobs, p, moves[0]) then Schedule(jobs, Moved(jobs, p, moves[0]), moves[1..])
    else None
  }

  predicate Stopped<A>(p: Pass<A>) {
    forall i | 0 <= i < |p.scans| :: p.scans[i].status != Running
  }

  predicate AnyFailed<A>(p: Pass<A>) {
    exists i | 0 <= i < |p.scans| :: p.scans[i].status == Failed
  }

  function Whole<A>(job: Job<A>): A {
    Fold(job.step, job.init, job.lines)
  }

  /** The slots after the workers have run one by one. */
  function Outcomes<A>(jobs: seq<Job<A>>): seq<Option<A>> {
    seq(|jobs|, i requires 0 <= i < |jobs| => Some(Whole(jobs[i])))
  }

  ghost predicate ScanInv<A>(job: Job<A>, s: Scan<A>, slot: Option<A>) {
    && s.pos <= |job.lines|
    && s.acc == Fold(job.step, job.init, job.lines[..s.pos])
    && slot == (if s.status == Done then Some(Whole(job)) else None)
    && (s.status == Done ==> s.pos == |job.lines|)
  }

  /** Whatever the interleaving, each worker is where it would be on its own. */
  ghost predicate PassInv<A>(jobs: seq<Job<A>>, p: Pass<A>) {
    && |jobs| == |p.scans| == |p.slots|
    && forall i | 0 <= i < |jobs| :: ScanInv(jobs[i], p.scans[i], p.slots[i])
  }

  lemma {:induction false} MoveKeepsInv<A>(jobs: seq<Job<A>>, p: Pass<A>, mv: Move)
    requires PassInv(jobs, p) && Enabled(jobs, p, mv)
    ensures PassInv(jobs, Moved(jobs, p, mv))
    ensures AnyFailed(Moved(jobs, p, mv)) <==> AnyFailed(p) || mv.Fail?
  {
    var i := mv.worker;
    var job, s, q := jobs[i], p.scans[i], Moved(jobs, p, mv);
    assert ScanInv(job, s, p.slots[i]);
    if mv.Read? {
      FoldNext(job.step, job.init, job.lines, s.pos);
    } else if mv.Finish? {
      assert job.lines[..s.pos] == job.lines;
    }
    assert ScanInv(job, q.scans[i], q.slots[i]);
    assert forall j | 0 <= j < |jobs| && j != i :: q.scans[j] == p.scans[j] && q.slots[j] == p.slots[j];
    if AnyFailed(p) {
      var j :| 0 <= j < |p.scans| && p.scans[j].status == Failed;
      assert q.scans[j].status == Failed;
    }
    if mv.Fail? { assert q.scans[i].status == Failed; }
  }

  lemma StartInv<A>(jobs: seq<Job<A>>)
    ensures PassInv(jobs, Start(jobs)) && !AnyFailed(Start(jobs))
  {
    forall i | 0 <= i < |jobs| ensures ScanInv(jobs[i], Start(jobs).scans[i], Start(jobs).slots[i]) { }
  }

  predicate HasFail(moves: seq<Move>) {
    exists mv | mv in moves :: mv.Fail?
  }

  lemma {:induction false} ScheduleInv<A>(jobs: seq<Job<A>>, p: Pass<A>, moves: seq<Move>)
    requires PassInv(jobs, p) && Schedule(jobs, p, moves).Some?
    ensures PassInv(jobs, Schedule(jobs, p, moves).value)
    ensures AnyFailed(Schedule(jobs, p, moves).value) <==> AnyFailed(p) || HasFail(moves)
    decreases |moves|
  {
    if moves != [] {
      MoveKeepsInv(jobs, p, moves[0]);
      ScheduleInv(jobs, Moved(jobs, p, moves[0]), moves[1..]);
      assert moves == [moves[0]] + moves[1..];
    }
  }

  /** What the workers leave in the slots once all have stopped without failing. */
  lemma StoppedSlots<A>(jobs: seq<Job<A>>, p: Pass<A>)
    requires PassInv(jobs, p) && Stopped(p) && !AnyFailed(p)
    ensures forall i | 0 <= i < |jobs| :: p.slots[i] == Some(Whole(jobs[i]))
  {
    forall i | 0 <= i < |jobs| ensures p.slots[i] == Some(Whole(jobs[i])) {
      assert ScanInv(jobs[i], p.scans[i], p.slots[i]);
    }
  }

  /** Any two complete schedules without failures leave the same slots: those of the workers run one by one. */
  lemma {:induction false} ScheduleIrrelevant<A>(jobs: seq<Job<A>>, moves: seq<Move>)
    requires Schedule(jobs, Start(jobs), moves).Some? && Stopped(Schedule(jobs, Start(jobs), moves).value)
    requires !HasFail(moves)
    ensures Schedule(jobs, Start(jobs), moves).value.slots == Outcomes(jobs)
  {
    StartInv(jobs);
    ScheduleInv(jobs, Start(jobs), moves);
    StoppedSlots(jobs, Schedule(jobs, Start(jobs), moves).value);
  }

  // ---------------------------------------------------------------- every schedule ends

  /** The moves a worker still has at most. */
  function Left<A>(job: Job<A>, s: Scan<A>): int {
    if s.status == Running then |job.lines| - s.pos + 1 else 0
  }

  function TotalLeft<A>(jobs: seq<Job<A>>, scans: seq<Scan<A>>): int
    requires |jobs| == |scans|
  {
    if jobs == [] then 0
    else Left(jobs[0], scans[0]) + TotalLeft(jobs[1..], scans[1..])
  }

  lemma {:induction false} TotalLeftUpdate<A>(jobs: seq<Job<A>>, scans: seq<Scan<A>>, i: nat, s: Scan<A>)
    requires |jobs| == |scans| && i < |jobs|
    ensures TotalLeft(jobs, scans[i := s]) == TotalLeft(jobs, scans) - Left(jobs[i], scans[i]) + Left(jobs[i], s)
  {
    if i == 0 {
      assert scans[i := s][1..] == scans[1..];
    } else {
      assert scans[i := s][1..] == scans[1..][i - 1 := s];
      TotalLeftUpdate(jobs[1..], scans[1..], i - 1, s);
    }
  }

  lemma {:induction false} TotalLeftNonNegative<A>(jobs: seq<Job<A>>, scans: seq<Scan<A>>)
    requires |jobs| == |scans| && forall i | 0 <= i < |jobs| :: scans[i].pos <= |jobs[i].lines|
    ensures TotalLeft(jobs, scans) >= 0
  {
    if jobs != [] { TotalLeftNonNegative(jobs[1..], scans[1..]); }
  }

  /** No schedule is longer than the lines of all files plus one move per worker: no livelock. */
  lemma {:induction false} SchedulesAreFinite<A>(jobs: seq<Job<A>>, p: Pass<A>, moves: seq<Move>)
    requires PassInv(jobs, p) && Schedule(jobs, p, moves).Some?
    ensures |moves| <= TotalLeft(jobs, p.scans)
    decreases |moves|
  {
    assert forall i | 0 <= i < |jobs| :: ScanInv(jobs[i], p.scans[i], p.slots[i]);
    if moves == [] {
      TotalLeftNonNegative(jobs, p.scans);
    } else {
      var q := Moved(jobs, p, moves[0]);
      MoveKeepsInv(jobs, p, moves[0]);
      SchedulesAreFinite(jobs, q, moves[1..]);
      TotalLeftUpdate(jobs, p.scans, moves[0].worker, q.scans[moves[0].worker]);
    }
  }

  /** While a worker runs, some worker can move on without failing: no deadlock. */
  lemma SomeWorkerCanMove<A>(jobs: seq<Job<A>>, p: Pass<A>) returns (mv: Move)
    requires PassInv(jobs, p) && !Stopped(p)
    ensures Enabled(jobs, p, mv) && !mv.Fail?
  {
    var i :| 0 <= i < |p.scans| && p.scans[i].status == Running;
    assert ScanInv(jobs[i], p.scans[i], p.slots[i]);
    mv := if p.scans[i].pos < |jobs[i].lines| then Read(i) else Finish(i);
  }

  // ---------------------------------------------------------------- the two passes

  function FilterJobs<F>(b: Bloom<F>, files: seq<seq<string>>): seq<Job<F>> {
    seq(|files|, i requires 0 <= i < |files| => Job(AddEligible(b), b.empty, files[i]))
  }

  function CandidateJobs<F>(b: Bloom<F>, filters: seq<F>, files: seq<seq<string>>): seq<Job<map<string, nat>>> {
    seq(|files|, i requires 0 <= i < |files| => Job(Mark(b, filters, i), map[], files[i]))
  }

  datatype Pipeline<F> =
    | Building(p: Pass<F>)
    | Matching(filters: seq<Option<F>>, q: Pass<map<string, nat>>)
    | Ended(result: Result<set<string>, ()>)

  /** A worker's move, or the main goroutine passing the barrier. */
  datatype Event = Worker(mv: Move) | Barrier

  /** The filters pass 2 consults: the published slots. */
  function Published<A>(slots: seq<Option<A>>, default: A): seq<A> {
    seq(|slots|, i requires 0 <= i < |slots| => if slots[i].Some? then slots[i].value else default)
  }

  function Next<F>(b: Bloom<F>, files: seq<seq<string>>, s: Pipeline<F>, ev: Event): Option<Pipeline<F>> {
    match (s, ev)
    case (Building(p), Worker(mv)) =>
      var jobs := FilterJobs(b, files);
      if Enabled(jobs, p, mv) then Some(Building(Moved(jobs, p, mv))) else None
    case (Building(p), Barrier) =>
      if !Stopped(p) then None
      else if AnyFailed(p) then Some(Ended(Err(())))
      else Some(Matching(p.slots, Start(CandidateJobs(b, Published(p.slots, b.empty), files))))
    case (Matching(slots, q), Worker(mv)) =>
      var jobs := CandidateJobs(b, Published(slots, b.empty), files);
      if Enabled(jobs, q, mv) then Some(Matching(slots, Moved(jobs, q, mv))) else None
    case (Matching(slots, q), Barrier) =>
      if !Stopped(q) then None
      else if AnyFailed(q) then Some(Ended(Err(())))
      else Some(Ended(Ok(Valid(Published(q.slots, map[])))))
    case (Ended(_), _) => None
  }

  function RunPipeline<F>(b: Bloom<F>, files: seq<seq<string>>, s: Pipeline<F>, evs: seq<Event>): Option<Pipeline<F>>
    decreases |evs|
  {
    if evs == [] then Some(s)
    else
      var next := Next(b, files, s, evs[0]);
      if next.None? then None else RunPipeline(b, files, next.value, evs[1..])
  }

  predicate Failing(evs: seq<Event>) {
    exists ev | ev in evs :: ev.Worker? && ev.mv.Fail?
  }

  /** What the slots of the first pass hold at the barrier: every file's whole filter. */
  function FinishedFilters<F>(b: Bloom<F>, files: seq<seq<string>>): seq<Option<F>> {
    seq(|files|, i requires 0 <= i < |files| => Some(FilterOf(b, files[i])))
  }

  /** `failed` says whether a worker has failed so far. */
  ghost predicate PipelineInv<F>(b: Bloom<F>, files: seq<seq<string>>, s: Pipeline<F>, failed: bool) {
    match s
    case Building(p) => PassInv(FilterJobs(b, files), p) && AnyFailed(p) == failed
    case Matching(slots, q) =>
      && slots == FinishedFilters(b, files)
      && PassInv(CandidateJobs(b, FiltersOf(b, files), files), q) && AnyFailed(q) == failed
    case Ended(r) => if failed then r.Err? else r == Ok(ValidCodes(b, files))
  }

  lemma {:induction false} PublishedFilters<F>(b: Bloom<F>, files: seq<seq<string>>, slots: seq<Option<F>>)
    requires slots == FinishedFilters(b, files)
    ensures Published(slots, b.empty) == FiltersOf(b, files)
  {
  }

  lemma {:induction false} BuildBarrier<F>(b: Bloom<F>, files: seq<seq<string>>, p: Pass<F>)
    requires PassInv(FilterJobs(b, files), p) && Stopped(p) && !AnyFailed(p)
    ensures p.slots == FinishedFilters(b, files)
  {
    var jobs := FilterJobs(b, files);
    StoppedSlots(jobs, p);
    assert forall i | 0 <= i < |files| :: Whole(jobs[i]) == FilterOf(b, files[i]);
  }

  lemma {:induction false} MatchBarrier<F>(b: Bloom<F>, files: seq<seq<string>>, q: Pass<map<string, nat>>)
    requires PassInv(CandidateJobs(b, FiltersOf(b, files), files), q) && Stopped(q) && !AnyFailed(q)
    ensures Published(q.slots, map[]) == AllCandidates(b, FiltersOf(b, files), files)
  {
    var filters := FiltersOf(b, files);
    var jobs := CandidateJobs(b, filters, files);
    StoppedSlots(jobs, q);
    assert forall i | 0 <= i < |files| :: Whole(jobs[i]) == Candidates(b, filters, i, files[i]);
  }

  lemma {:induction false} NextKeepsInv<F>(b: Bloom<F>, files: seq<seq<string>>, s: Pipeline<F>, ev: Event,
                                                failed: bool)
    requires PipelineInv(b, files, s, failed) && Next(b, files, s, ev).Some?
    ensures PipelineInv(b, files, Next(b, files, s, ev).value, failed || (ev.Worker? && ev.mv.Fail?))
  {
    match (s, ev)
    case (Building(p), Worker(mv)) =>
      MoveKeepsInv(FilterJobs(b, files), p, mv);
    case (Building(p), Barrier) =>
      if !AnyFailed(p) {
        BuildBarrier(b, files, p);
        PublishedFilters(b, files, p.slots);
        StartInv(CandidateJobs(b, FiltersOf(b, files), files));
      }
    case (Matching(slots, q), Worker(mv)) =>
      PublishedFilters(b, files, slots);
      MoveKeepsInv(CandidateJobs(b, FiltersOf(b, files), files), q, mv);
    case (Matching(slots, q), Barrier) =>
      PublishedFilters(b, files, slots);
      if !AnyFailed(q) { MatchBarrier(b, files, q); }
    case (Ended(_), _) =>
  }

  lemma {:induction false} PipelineRun<F>(b: Bloom<F>, files: seq<seq<string>>, s: Pipeline<F>, evs: seq<Event>,
                                               failed: bool)
    requires PipelineInv(b, files, s, failed) && RunPipeline(b, files, s, evs).Some?
    ensures PipelineInv(b, files, RunPipeline(b, files, s, evs).value, failed || Failing(evs))
    decreases |evs|
  {
    if evs != [] {
      NextKeepsInv(b, files, s, evs[0], failed);
      PipelineRun(b, files, Next(b, files, s, evs[0]).value, evs[1..], failed || (evs[0].Worker? && evs[0].mv.Fail?));
      assert evs == [evs[0]] + evs[1..];
    }
  }

  function Launch<F>(b: Bloom<F>, files: seq<seq<string>>): Pipeline<F> {
    Building(Start(FilterJobs(b, files)))
  }

  /**
   Every interleaving of the whole pipeline: if it ends without a failure it ends with exactly
   the eligible codes shared by two files, and after any failure it ends with no codes.
   */
  lemma {:induction false} InterleavingExact<F(!new)>(b: Bloom<F>, files: seq<seq<string>>, evs: seq<Event>,
                                                           code: string)
    requires NoFalseNegatives(b)
    requires RunPipeline(b, files, Launch(b, files), evs).Some?
    requires RunPipeline(b, files, Launch(b, files), evs).value.Ended?
    ensures var r := RunPipeline(b, files, Launch(b, files), evs).value.result;
            && (r.Err? <==> Failing(evs))
            && (r.Ok? ==> (code in r.value <==> 8 <= |code| <= 10 && InSomeTwo(FirstFiles(files), code)))
  {
    StartInv(FilterJobs(b, files));
    PipelineRun(b, files, Launch(b, files), evs, false);
    LostBit(b, files, code);
  }

  /** No step of the second pass ever sees a filter that is missing or unfinished. */
  lemma {:induction false} FiltersFinished<F>(b: Bloom<F>, files: seq<seq<string>>, evs: seq<Event>)
    requires RunPipeline(b, files, Launch(b, files), evs).Some?
    requires RunPipeline(b, files, Launch(b, files), evs).value.Matching?
    ensures RunPipeline(b, files, Launch(b, files), evs).value.filters
         == FinishedFilters(b, files)
  {
    StartInv(FilterJobs(b, files));
    PipelineRun(b, files, Launch(b, files), evs, false);
  }
}
