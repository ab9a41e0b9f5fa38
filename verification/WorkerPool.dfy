/** The worker pool of test.py as a transition system: the main thread dispatches jobs and shutdown
    tokens through a FIFO queue, worker threads take them and report through a second queue, and
    SIGINT may set `thread_exit` at any moment. Every interleaving is a sequence of `Step`s. */
module WorkerPool {
  import opened Common

  /** A job reduced to its flags and return code. `id` numbers the jobs in the order they are queued. */
  datatype Job = Job(id: nat, isBreak: bool, isSkip: bool, returncode: int)

  /** Where a worker is in `worker_thread.run`, with the job object it holds. */
  datatype Worker =
    | Idle
    | Got(job: Job)
    | Running(job: Job)
    | Reporting(job: Job)
    | Exited(job: Job)

  /** Where the main thread is in `run_tests`. */
  datatype Main =
    | Dispatching(next: nat)
    | Stopping(sent: nat)
    | Collecting(taken: nat)
    | Joining(joined: nat)
    | Returned(code: int)

  datatype Tally = Tally(passed: nat, failed: nat, valgrind: nat, crashed: nat, skipped: nat)

  /** `skips[i]` says whether test `i` is queued to be skipped; `processors` is the number of workers. */
  datatype Config = Config(skips: seq<bool>, processors: nat)

  /** `collected` records the jobs the main thread has taken back; the program does not keep it. */
  datatype State = State(main: Main, input: seq<Job>, output: seq<Job>, workers: seq<Worker>,
                         threadExit: bool, jobs: nat, totalTests: nat, tally: Tally, collected: seq<Job>)

  /** One atomic step of one thread, or the signal. `returncode` is what a finished test run returned. */
  datatype Step = MainStep | WorkerStep(worker: nat, returncode: int) | Interrupt

  function Init(c: Config): State {
    State(Dispatching(0), [], [], seq(c.processors, _ => Idle), false, 0, 0, Tally(0, 0, 0, 0, 0), [])
  }

  /** test.py:1448-1471; an interrupted job is taken and not counted. */
  function Count(t: Tally, job: Job): Tally {
    if job.isBreak then t
    else if job.isSkip then t.(skipped := t.skipped + 1)
    else if job.returncode == 0 then t.(passed := t.passed + 1)
    else if job.returncode == 1 then t.(failed := t.failed + 1)
    else if job.returncode == 2 then t.(valgrind := t.valgrind + 1)
    else t.(crashed := t.crashed + 1)
  }

  /** The thread the step belongs to can move: it has not ended and is not waiting on an empty
      queue or for a worker to exit. */
  predicate Enabled(c: Config, s: State, step: Step) {
    match step
    case Interrupt => true
    case WorkerStep(w, _) =>
      w < |s.workers| && !s.workers[w].Exited? && (s.workers[w].Idle? ==> s.input != [])
    case MainStep =>
      match s.main
      case Dispatching(_) => true
      case Stopping(_) => true
      case Collecting(i) => i < s.jobs ==> s.output != []
      case Joining(j) => j < |s.workers| ==> s.workers[j].Exited?
      case Returned(_) => false
  }

  /** test.py:1191-1232 with 1201-1421 abstracted to the list of tests, then 1427-1430, 1442-1471,
      1585-1586 and 1638-1641. */
  function MainNext(c: Config, s: State): State
    requires Enabled(c, s, MainStep)
  {
    match s.main
    case Dispatching(n) =>
      if n < |c.skips| then
        s.(main := Dispatching(n + 1), input := s.input + [Job(n, false, c.skips[n], 0)],
           jobs := s.jobs + 1, totalTests := s.totalTests + 1)
      else s.(main := Stopping(0))
    case Stopping(k) =>
      if k < c.processors then
        s.(main := Stopping(k + 1), input := s.input + [Job(|c.skips| + k, true, false, 0)])
      else s.(main := Collecting(0))
    case Collecting(i) =>
      if i < s.jobs then
        s.(main := Collecting(i + 1), output := s.output[1..],
           tally := Count(s.tally, s.output[0]), collected := s.collected + [s.output[0]])
      else s.(main := Joining(0))
    case Joining(j) =>
      if j < |s.workers| then s.(main := Joining(j + 1))
      else s.(main := Returned(if s.tally.passed + s.tally.skipped == s.totalTests then 0 else 1))
  }

  /** test.py:849-917. */
  function WorkerNext(c: Config, s: State, w: nat, returncode: int): State
    requires Enabled(c, s, WorkerStep(w, returncode))
  {
    match s.workers[w]
    case Idle =>
      s.(input := s.input[1..], workers := s.workers[w := Got(s.input[0])])
    case Got(job) =>
      s.(workers := s.workers[w :=
        if job.isBreak then Exited(job)
        else if s.threadExit then Reporting(job.(isBreak := true))
        else if job.isSkip then Reporting(job)
        else Running(job)])
    case Running(job) =>
      s.(workers := s.workers[w := Reporting(job.(returncode := returncode))])
    case Reporting(job) =>
      s.(workers := s.workers[w := Idle], output := s.output + [job])
  }

  function Next(c: Config, s: State, step: Step): State
    requires Enabled(c, s, step)
  {
    match step
    case MainStep => MainNext(c, s)
    case WorkerStep(w, rc) => WorkerNext(c, s, w, rc)
    case Interrupt => s.(threadExit := true)
  }

  /** The state a schedule leads to, if each of its steps is possible in turn. */
  function After(c: Config, steps: seq<Step>): Option<State> {
    if steps == [] then Some(Init(c))
    else
      var before := After(c, steps[..|steps|-1]);
      if before.Some? && Enabled(c, before.value, steps[|steps|-1])
      then Some(Next(c, before.value, steps[|steps|-1])) else None
  }

  ghost predicate Reachable(c: Config, s: State) {
    exists steps :: After(c, steps) == Some(s)
  }

  // ----- where the jobs are

  /** How many jobs of a queue have this id. */
  function Occurs(jobs: seq<Job>, id: nat): nat {
    if jobs == [] then 0
    else Occurs(jobs[..|jobs|-1], id) + if jobs[|jobs|-1].id == id then 1 else 0
  }

  /** How many workers hold a job with an id in [lo, hi). */
  function Holders(ws: seq<Worker>, lo: nat, hi: nat): nat {
    if ws == [] then 0
    else Holders(ws[..|ws|-1], lo, hi) + Holding(ws[|ws|-1], lo, hi)
  }

  function Holding(w: Worker, lo: nat, hi: nat): nat {
    if !w.Idle? && lo <= w.job.id < hi then 1 else 0
  }

  /** How many jobs and tokens the main thread has queued so far. */
  function Issued(c: Config, s: State): nat {
    match s.main
    case Dispatching(n) => n
    case Stopping(k) => |c.skips| + k
    case _ => |c.skips| + c.processors
  }

  /** How many of them the workers have taken. */
  function Taken(c: Config, s: State): int {
    Issued(c, s) - |s.input|
  }

  function Tallied(jobs: seq<Job>): Tally {
    if jobs == [] then Tally(0, 0, 0, 0, 0) else Count(Tallied(jobs[..|jobs|-1]), jobs[|jobs|-1])
  }

  // ----- the invariant

  /** A job object as the main thread made it: break flag set exactly on the shutdown tokens. */
  predicate Fresh(c: Config, job: Job) {
    && (job.isBreak <==> job.id >= |c.skips|)
    && (job.id < |c.skips| ==> job.isSkip == c.skips[job.id])
  }

  /** A real job on its way back; only an interrupt marks it. */
  predicate Reported(c: Config, interrupted: bool, job: Job) {
    && job.id < |c.skips| && job.isSkip == c.skips[job.id]
    && (job.isBreak ==> interrupted)
  }

  predicate WorkerOk(c: Config, taken: int, interrupted: bool, w: Worker) {
    match w
    case Idle => true
    case Got(job) => Fresh(c, job) && job.id < taken
    case Running(job) => Fresh(c, job) && !job.isBreak && !job.isSkip && job.id < taken
    case Reporting(job) => Reported(c, interrupted, job) && job.id < taken
    case Exited(job) => Fresh(c, job) && job.isBreak && job.id < taken
  }

  /** Each thread is where its job objects say it is. */
  predicate Shapes(c: Config, s: State) {
    && |s.workers| == c.processors
    && |s.input| <= Issued(c, s)
    && (forall i :: 0 <= i < |s.input| ==> s.input[i].id == Taken(c, s) + i && Fresh(c, s.input[i]))
    && (forall w :: 0 <= w < |s.workers| ==> WorkerOk(c, Taken(c, s), s.threadExit, s.workers[w]))
    && (forall i :: 0 <= i < |s.output| ==> Reported(c, s.threadExit, s.output[i]))
    && (forall i :: 0 <= i < |s.collected| ==> Reported(c, s.threadExit, s.collected[i]))
  }

  predicate MainOk(c: Config, s: State) {
    && s.jobs == s.totalTests == Min(Issued(c, s), |c.skips|)
    && s.tally == Tallied(s.collected)
    && match s.main
       case Dispatching(n) => n <= |c.skips| && s.collected == []
       case Stopping(k) => k <= c.processors && s.collected == []
       case Collecting(i) => i == |s.collected| <= s.jobs
       case Joining(j) =>
         && |s.collected| == s.jobs && j <= |s.workers|
         && (forall w :: 0 <= w < j ==> s.workers[w].Exited?)
       case Returned(code) =>
         && |s.collected| == s.jobs
         && (forall w :: 0 <= w < |s.workers| ==> s.workers[w].Exited?)
         && (code == if s.tally.passed + s.tally.skipped == s.totalTests then 0 else 1)
  }

  /** In how many places a job or token is: input queue, some worker, output queue, collected. */
  function Places(s: State, id: nat): nat {
    Occurs(s.input, id) + Holders(s.workers, id, id + 1) + Occurs(s.output, id) + Occurs(s.collected, id)
  }

  /** Every id queued so far is in exactly one place, and nothing else is anywhere. */
  ghost predicate Conserved(c: Config, s: State) {
    forall id: nat :: Places(s, id) == if id < Issued(c, s) then 1 else 0
  }

  /** How many tokens and how many real jobs have left the input queue. */
  predicate Counted(c: Config, s: State) {
    && Holders(s.workers, |c.skips|, |c.skips| + c.processors) == Max(0, Taken(c, s) - |c.skips|)
    && Holders(s.workers, 0, |c.skips|) + |s.output| + |s.collected| == Min(Taken(c, s), |c.skips|)
  }

  ghost predicate Inv(c: Config, s: State) {
    Shapes(c, s) && MainOk(c, s) && Conserved(c, s) && Counted(c, s)
  }

  // ----- every step keeps the invariant

  lemma {:induction false} HoldersUpdate(ws: seq<Worker>, i: nat, w: Worker, lo: nat, hi: nat)
    requires i < |ws|
    ensures Holders(ws[i := w], lo, hi) + Holding(ws[i], lo, hi) == Holders(ws, lo, hi) + Holding(w, lo, hi)
    decreases |ws|
  {
    var n := |ws| - 1;
    if i < n {
      HoldersUpdate(ws[..n], i, w, lo, hi);
      assert ws[i := w][..n] == ws[..n][i := w];
    } else {
      assert ws[i := w][..n] == ws[..n];
    }
  }

  lemma {:induction false} OccursHead(jobs: seq<Job>, id: nat)
    requires jobs != []
    ensures Occurs(jobs, id) == (if jobs[0].id == id then 1 else 0) + Occurs(jobs[1..], id)
    decreases |jobs|
  {
    var n := |jobs| - 1;
    if n > 0 {
      OccursHead(jobs[..n], id);
      assert jobs[1..][..n-1] == jobs[..n][1..];
    }
  }

  lemma InitInv(c: Config)
    ensures Inv(c, Init(c))
  {
    NobodyHolds(Init(c).workers, 0, |c.skips|);
    NobodyHolds(Init(c).workers, |c.skips|, |c.skips| + c.processors);
    forall id: nat ensures Places(Init(c), id) == 0 {
      NobodyHolds(Init(c).workers, id, id + 1);
    }
  }

  lemma {:induction false} NobodyHolds(ws: seq<Worker>, lo: nat, hi: nat)
    requires forall w :: 0 <= w < |ws| ==> ws[w].Idle?
    ensures Holders(ws, lo, hi) == 0
    decreases |ws|
  {
    if ws != [] {
      NobodyHolds(ws[..|ws|-1], lo, hi);
    }
  }

  lemma MainKeepsInv(c: Config, s: State)
    requires Inv(c, s) && Enabled(c, s, MainStep)
    ensures Inv(c, MainNext(c, s))
  {
    MainKeepsShapes(c, s);
    MainKeepsConserved(c, s);
    MainKeepsCounted(c, s);
  }

  /** What a step of the main thread does to the queues: it appends the next job to the input queue, takes
      the first from the output queue, or leaves both. */
  lemma MainQueues(c: Config, s: State)
    requires MainOk(c, s) && Enabled(c, s, MainStep)
    ensures var s' := MainNext(c, s);
      && s'.workers == s.workers && s'.threadExit == s.threadExit && Taken(c, s') == Taken(c, s)
      && ((s'.input == s.input && Issued(c, s') == Issued(c, s))
          || (|s'.input| == |s.input| + 1 && s'.input == s.input + [s'.input[|s.input|]]
              && Fresh(c, s'.input[|s.input|]) && s'.input[|s.input|].id == Issued(c, s) == Issued(c, s') - 1))
      && ((s'.output == s.output && s'.collected == s.collected)
          || (s.output != [] && s'.output == s.output[1..] && s'.collected == s.collected + [s.output[0]]))
  {
    hide Count, Tallied;
  }

  lemma MainKeepsShapes(c: Config, s: State)
    requires Shapes(c, s) && MainOk(c, s) && Enabled(c, s, MainStep)
    ensures Shapes(c, MainNext(c, s))
  {
    MainQueues(c, s);
    hide MainNext, MainOk, WorkerOk, Reported, Fresh, Issued;
  }

  lemma MainKeepsConserved(c: Config, s: State)
    requires MainOk(c, s) && Conserved(c, s) && Enabled(c, s, MainStep)
    ensures Conserved(c, MainNext(c, s))
  {
    forall id: nat ensures Places(MainNext(c, s), id) == if id < Issued(c, MainNext(c, s)) then 1 else 0 {
      assert Places(s, id) == if id < Issued(c, s) then 1 else 0;
      MainMoves(c, s, id);
    }
  }

  lemma MainMoves(c: Config, s: State, id: nat)
    requires Enabled(c, s, MainStep) && MainOk(c, s)
    ensures Places(MainNext(c, s), id) == Places(s, id)
      + if Issued(c, s) == id < Issued(c, MainNext(c, s)) then 1 else 0
  {
    var s' := MainNext(c, s);
    MainQueues(c, s);
    hide MainNext, MainOk, Issued, Fresh, Occurs, Holders;
    if s.output != [] {
      OccursHead(s.output, id);
    }
  }

  lemma MainKeepsCounted(c: Config, s: State)
    requires MainOk(c, s) && Counted(c, s) && Enabled(c, s, MainStep)
    ensures Counted(c, MainNext(c, s))
  {
    hide Tallied, Count, Holders;
  }

  lemma WorkerKeepsInv(c: Config, s: State, w: nat, returncode: int)
    requires Inv(c, s) && Enabled(c, s, WorkerStep(w, returncode))
    ensures Inv(c, WorkerNext(c, s, w, returncode))
  {
    WorkerKeepsShapes(c, s, w, returncode);
    WorkerKeepsConserved(c, s, w, returncode);
    WorkerKeepsCounted(c, s, w, returncode);
  }

  lemma WorkerKeepsShapes(c: Config, s: State, w: nat, returncode: int)
    requires Shapes(c, s) && Enabled(c, s, WorkerStep(w, returncode))
    ensures Shapes(c, WorkerNext(c, s, w, returncode))
  {
    assert WorkerOk(c, Taken(c, s), s.threadExit, s.workers[w]);
    if s.workers[w].Idle? {
      TakeKeepsShapes(c, s, w, returncode);
    } else {
      WorkKeepsShapes(c, s, w, returncode);
    }
  }

  /** Taking the head of the input queue. */
  lemma TakeKeepsShapes(c: Config, s: State, w: nat, returncode: int)
    requires Shapes(c, s) && Enabled(c, s, WorkerStep(w, returncode)) && s.workers[w].Idle?
    ensures Shapes(c, WorkerNext(c, s, w, returncode))
  {
    hide Fresh, Reported;
    assert s.input[0].id == Taken(c, s) && Fresh(c, s.input[0]);
  }

  /** Everything a worker does with the job it holds. */
  lemma WorkKeepsShapes(c: Config, s: State, w: nat, returncode: int)
    requires Shapes(c, s) && Enabled(c, s, WorkerStep(w, returncode)) && !s.workers[w].Idle?
    ensures Shapes(c, WorkerNext(c, s, w, returncode))
  {
    assert WorkerOk(c, Taken(c, s), s.threadExit, s.workers[w]);
  }

  lemma WorkerKeepsConserved(c: Config, s: State, w: nat, returncode: int)
    requires Conserved(c, s) && Enabled(c, s, WorkerStep(w, returncode))
    ensures Conserved(c, WorkerNext(c, s, w, returncode))
  {
    forall id: nat ensures Places(WorkerNext(c, s, w, returncode), id) == if id < Issued(c, s) then 1 else 0 {
      assert Places(s, id) == if id < Issued(c, s) then 1 else 0;
      WorkerMoves(c, s, w, returncode, id);
    }
  }

  lemma WorkerMoves(c: Config, s: State, w: nat, returncode: int, id: nat)
    requires Enabled(c, s, WorkerStep(w, returncode))
    ensures Places(WorkerNext(c, s, w, returncode), id) == Places(s, id)
  {
    HoldersUpdate(s.workers, w, WorkerNext(c, s, w, returncode).workers[w], id, id + 1);
    hide Holders;
    match s.workers[w]
    case Idle => OccursHead(s.input, id);
    case Got(job) =>
    case Running(job) =>
    case Reporting(job) => 
  }

  lemma WorkerKeepsCounted(c: Config, s: State, w: nat, returncode: int)
    requires Shapes(c, s) && MainOk(c, s) && Counted(c, s) && Enabled(c, s, WorkerStep(w, returncode))
    ensures Counted(c, WorkerNext(c, s, w, returncode))
  {
    var after, tests, all := WorkerNext(c, s, w, returncode), |c.skips|, |c.skips| + c.processors;
    assert Issued(c, s) <= all;
    hide Holders, Holding, MainOk, Shapes, WorkerNext, Taken, Issued, Max, Min;
    HoldingStep(c, s, w, returncode);
    HoldersUpdate(s.workers, w, after.workers[w], 0, tests);
    HoldersUpdate(s.workers, w, after.workers[w], tests, all);
  }

  /** What a step changes in the two counts: taking adds one holder, reporting moves one to the
      output queue, everything else keeps the holder. */
  lemma HoldingStep(c: Config, s: State, w: nat, returncode: int)
    requires Shapes(c, s) && Enabled(c, s, WorkerStep(w, returncode)) && Issued(c, s) <= |c.skips| + c.processors
    ensures var after, tests, all := WorkerNext(c, s, w, returncode), |c.skips|, |c.skips| + c.processors;
      var token, test := Holding(after.workers[w], tests, all) - Holding(s.workers[w], tests, all),
                         Holding(after.workers[w], 0, tests) - Holding(s.workers[w], 0, tests);
      && after.collected == s.collected && after.workers == s.workers[w := after.workers[w]]
      && token == Max(0, Taken(c, after) - tests) - Max(0, Taken(c, s) - tests)
      && test + |after.output| - |s.output| == Min(Taken(c, after), tests) - Min(Taken(c, s), tests)
  {
    assert WorkerOk(c, Taken(c, s), s.threadExit, s.workers[w]);
    if s.workers[w].Idle? {
      assert s.input[0].id == Taken(c, s);
    }
    hide Shapes, Issued;
  }

  lemma InterruptKeepsShapes(c: Config, s: State)
    requires Shapes(c, s)
    ensures Shapes(c, s.(threadExit := true))
  {
    hide Fresh;
  }

  lemma InterruptKeepsCounts(c: Config, s: State)
    requires MainOk(c, s) && Counted(c, s) && Conserved(c, s)
    ensures MainOk(c, s.(threadExit := true)) && Counted(c, s.(threadExit := true))
      && Conserved(c, s.(threadExit := true))
  {
    hide Tallied, Holders, Occurs;
    forall id: nat ensures Places(s.(threadExit := true), id) == if id < Issued(c, s) then 1 else 0 {
      assert Places(s, id) == if id < Issued(c, s) then 1 else 0;
    }
  }

  lemma StepKeepsInv(c: Config, s: State, step: Step)
    requires Inv(c, s) && Enabled(c, s, step)
    ensures Inv(c, Next(c, s, step))
  {
    hide Shapes, MainOk, Counted, Conserved, MainNext, WorkerNext;
    match step
    case MainStep => MainKeepsInv(c, s);
    case WorkerStep(w, rc) => WorkerKeepsInv(c, s, w, rc);
    case Interrupt =>
      InterruptKeepsShapes(c, s);
      InterruptKeepsCounts(c, s);
  }

  lemma {:induction false} InvAlways(c: Config, steps: seq<Step>)
    ensures After(c, steps).Some? ==> Inv(c, After(c, steps).value)
    decreases |steps|
  {
    if steps == [] {
      InitInv(c);
    } else {
      var last := |steps| - 1;
      InvAlways(c, steps[..last]);
      if After(c, steps).Some? {
        StepKeepsInv(c, After(c, steps[..last]).value, steps[last]);
      }
    }
  }

  lemma ReachableInv(c: Config, s: State)
    requires Reachable(c, s)
    ensures Inv(c, s)
  {
    var steps :| After(c, steps) == Some(s);
    InvAlways(c, steps);
  }
}
