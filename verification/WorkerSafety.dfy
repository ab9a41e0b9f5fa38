/** What follows for every reachable state of the worker pool: safety, the verdict, freedom from deadlock
    and termination. */
module WorkerSafety {
  import opened Common
  import opened WorkerPool

  // ----- safety over all interleavings

  /** In every reachable state each job and each token queued so far is in exactly one place. */
  lemma ExactlyOnePlace(c: Config, s: State, id: nat)
    requires Reachable(c, s)
    ensures Places(s, id) == if id < Issued(c, s) then 1 else 0
  {
    ReachableInv(c, s);
  }

  /** A worker that has exited took a real shutdown token, never an interrupted test, and it did so
      after every test had left the input queue. */
  lemma ShutdownSafe(c: Config, s: State, w: nat)
    requires Reachable(c, s) && w < |s.workers| && s.workers[w].Exited?
    ensures s.workers[w].job.id >= |c.skips|
    ensures forall i :: 0 <= i < |s.input| ==> s.input[i].id >= |c.skips| && s.input[i].isBreak
  {
    ReachableInv(c, s);
    assert WorkerOk(c, Taken(c, s), s.threadExit, s.workers[w]);
  }

  /** Without an interrupt no test is ever marked; a token never comes back through the output queue. */
  lemma OnlyInterruptsMark(c: Config, s: State, i: nat)
    requires Reachable(c, s) && i < |s.collected|
    ensures s.collected[i].id < |c.skips| && (s.collected[i].isBreak ==> s.threadExit)
  {
    ReachableInv(c, s);
    assert Reported(c, s.threadExit, s.collected[i]);
  }

  // ----- the verdict

  function Interrupted(jobs: seq<Job>): nat {
    if jobs == [] then 0 else Interrupted(jobs[..|jobs|-1]) + if jobs[|jobs|-1].isBreak then 1 else 0
  }

  /** A job counts as a success when it was skipped or returned 0, and was not interrupted. */
  predicate Success(job: Job) {
    !job.isBreak && (job.isSkip || job.returncode == 0)
  }

  lemma {:induction false} TallyAddsUp(jobs: seq<Job>)
    ensures var t := Tallied(jobs);
            t.passed + t.failed + t.valgrind + t.crashed + t.skipped + Interrupted(jobs) == |jobs|
    ensures Tallied(jobs).passed + Tallied(jobs).skipped <= |jobs|
    ensures Tallied(jobs).passed + Tallied(jobs).skipped == |jobs| <==> forall i :: 0 <= i < |jobs| ==> Success(jobs[i])
    decreases |jobs|
  {
    if jobs != [] {
      TallyAddsUp(jobs[..|jobs|-1]);
    }
  }

  lemma {:induction false} Absent(jobs: seq<Job>, id: nat)
    requires forall i :: 0 <= i < |jobs| ==> jobs[i].id != id
    ensures Occurs(jobs, id) == 0
    decreases |jobs|
  {
    if jobs != [] {
      Absent(jobs[..|jobs|-1], id);
    }
  }

  lemma {:induction false} HoldersSubrange(ws: seq<Worker>, lo: nat, hi: nat, lo': nat, hi': nat)
    ensures lo' <= lo && hi <= hi' ==> Holders(ws, lo, hi) <= Holders(ws, lo', hi')
    decreases |ws|
  {
    if ws != [] {
      HoldersSubrange(ws[..|ws|-1], lo, hi, lo', hi');
    }
  }

  /** When `run_tests` returns, every test has been collected exactly once, the counters account for
      all of them, all workers have exited, and the result is 0 exactly when every test succeeded. */
  lemma Verdict(c: Config, s: State)
    requires Reachable(c, s) && s.main.Returned?
    ensures forall w :: 0 <= w < |s.workers| ==> s.workers[w].Exited?
    ensures s.totalTests == |c.skips| == |s.collected|
    ensures forall id: nat :: Occurs(s.collected, id) == if id < |c.skips| then 1 else 0
    ensures s.tally.passed + s.tally.failed + s.tally.valgrind + s.tally.crashed + s.tally.skipped
            + Interrupted(s.collected) == s.totalTests
    ensures s.main.code == 0 <==> forall i :: 0 <= i < |s.collected| ==> Success(s.collected[i])
  {
    ReachableInv(c, s);
    TallyAddsUp(s.collected);
    forall id: nat ensures Occurs(s.collected, id) == if id < |c.skips| then 1 else 0 {
      CollectedOnce(c, s, id);
    }
    hide Occurs, Tallied, Success, Shapes, Conserved, Counted;
  }

  lemma CollectedOnce(c: Config, s: State, id: nat)
    requires Inv(c, s) && s.main.Returned?
    ensures Occurs(s.collected, id) == if id < |c.skips| then 1 else 0
  {
    assert Places(s, id) == if id < Issued(c, s) then 1 else 0;
    assert Counted(c, s) && MainOk(c, s) && forall i :: 0 <= i < |s.input| ==> s.input[i].id == Taken(c, s) + i;
    assert forall i :: 0 <= i < |s.collected| ==> Reported(c, s.threadExit, s.collected[i]);
    HoldersSubrange(s.workers, id, id + 1, 0, |c.skips|);
    hide Inv, Shapes, Conserved, Tallied, Occurs, Holders;
    if id < |c.skips| {
      Absent(s.input, id);
    } else {
      Absent(s.collected, id);
    }
  }

  // ----- no deadlock

  /** How many workers hold a job in the range, when nobody is between idle and exited. */
  lemma {:induction false} ParkedHolders(ws: seq<Worker>, lo: nat, hi: nat)
    requires forall w :: 0 <= w < |ws| ==> ws[w].Idle? || ws[w].Exited?
    ensures (forall w :: 0 <= w < |ws| ==> ws[w].Exited? && lo <= ws[w].job.id < hi) <==> Holders(ws, lo, hi) == |ws|
    ensures (forall w :: 0 <= w < |ws| ==> ws[w].Idle? || !(lo <= ws[w].job.id < hi)) ==> Holders(ws, lo, hi) == 0
    ensures Holders(ws, lo, hi) <= |ws|
    decreases |ws|
  {
    if ws != [] {
      ParkedHolders(ws[..|ws|-1], lo, hi);
    }
  }

  /** Some thread other than the signal can move. */
  ghost predicate CanMove(c: Config, s: State) {
    Enabled(c, s, MainStep) || exists w: nat :: Enabled(c, s, WorkerStep(w, 0))
  }

  /** With at least one worker, or nothing to run, no interleaving gets stuck before `run_tests`
      returns: the main thread gets its last result and every join succeeds. */
  lemma NeverStuck(c: Config, s: State)
    requires Reachable(c, s) && (c.processors >= 1 || c.skips == []) && !s.main.Returned?
    ensures CanMove(c, s)
  {
    ReachableInv(c, s);
    if !CanMove(c, s) {
      StuckParked(c, s);
      hide Conserved;
      assert false;
    }
  }

  /** If nobody can move, every worker has exited with a token or is idle on an empty queue. */
  lemma StuckParked(c: Config, s: State)
    requires Shapes(c, s) && MainOk(c, s) && !CanMove(c, s)
    ensures Holders(s.workers, 0, |c.skips|) == 0
    ensures s.input != [] ==> Holders(s.workers, |c.skips|, |c.skips| + c.processors) == |s.workers|
    ensures (forall w :: 0 <= w < |s.workers| ==> s.workers[w].Exited?)
            <==> Holders(s.workers, |c.skips|, |c.skips| + c.processors) == |s.workers|
  {
    forall w | 0 <= w < |s.workers| ensures (s.workers[w].Idle? && s.input == []) || s.workers[w].Exited? {
      assert !Enabled(c, s, WorkerStep(w, 0));
    }
    forall w | 0 <= w < |s.workers| && s.workers[w].Exited?
      ensures |c.skips| <= s.workers[w].job.id < |c.skips| + c.processors
    {
      assert WorkerOk(c, Taken(c, s), s.threadExit, s.workers[w]);
    }
    ParkedHolders(s.workers, 0, |c.skips|);
    ParkedHolders(s.workers, |c.skips|, |c.skips| + c.processors);
  }

  /** Without workers the main thread waits for ever for the first result, so the condition of
      `NeverStuck` is exact. */
  lemma StuckWithoutWorkers(c: Config)
    requires c.processors == 0 && c.skips != []
    ensures exists s :: Reachable(c, s) && !s.main.Returned? && !CanMove(c, s)
  {
    var steps, s := DispatchAll(c, |c.skips|);
    var s1 := Next(c, s, MainStep);
    var s2 := Next(c, s1, MainStep);
    assert (steps + [MainStep])[..|steps|] == steps;
    assert After(c, steps + [MainStep]) == Some(s1);
    assert (steps + [MainStep] + [MainStep])[..|steps| + 1] == steps + [MainStep];
    assert After(c, steps + [MainStep] + [MainStep]) == Some(s2);
    assert Reachable(c, s2);
  }

  lemma {:induction false} DispatchAll(c: Config, n: nat) returns (steps: seq<Step>, s: State)
    requires c.processors == 0 && n <= |c.skips|
    ensures After(c, steps) == Some(s) && s.main == Dispatching(n) && s.output == [] && s.workers == [] && s.jobs == n
    decreases n
  {
    if n == 0 {
      return [], Init(c);
    }
    steps, s := DispatchAll(c, n - 1);
    assert (steps + [MainStep])[..|steps|] == steps;
    steps, s := steps + [MainStep], Next(c, s, MainStep);
  }

  // ----- termination

  /** What is left of one job's way through the pool. */
  function WorkLeft(w: Worker): nat {
    match w
    case Idle => 0
    case Got(_) => 3
    case Running(_) => 2
    case Reporting(_) => 1
    case Exited(_) => 0
  }

  function WorkersLeft(ws: seq<Worker>): nat {
    if ws == [] then 0 else WorkersLeft(ws[..|ws|-1]) + WorkLeft(ws[|ws|-1])
  }

  function MainLeft(c: Config, s: State): int {
    match s.main
    case Dispatching(_) => |c.skips| + c.processors + 4
    case Stopping(_) => |c.skips| + c.processors + 3
    case Collecting(i) => |c.skips| - i + c.processors + 2
    case Joining(j) => c.processors - j + 1
    case Returned(_) => 0
  }

  /** An upper bound on the steps the threads can still make. */
  function StepsLeft(c: Config, s: State): int {
    5 * (|c.skips| + c.processors - Issued(c, s)) + 4 * |s.input| + WorkersLeft(s.workers) + MainLeft(c, s)
  }

  lemma {:induction false} WorkersLeftUpdate(ws: seq<Worker>, i: nat, w: Worker)
    requires i < |ws|
    ensures WorkersLeft(ws[i := w]) + WorkLeft(ws[i]) == WorkersLeft(ws) + WorkLeft(w)
    decreases |ws|
  {
    var n := |ws| - 1;
    if i < n {
      WorkersLeftUpdate(ws[..n], i, w);
      assert ws[i := w][..n] == ws[..n][i := w];
    } else {
      assert ws[i := w][..n] == ws[..n];
    }
  }

  lemma StepsLeftDrops(c: Config, s: State, step: Step)
    requires Inv(c, s) && Enabled(c, s, step)
    ensures StepsLeft(c, Next(c, s, step)) + (if step.Interrupt? then 0 else 1) <= StepsLeft(c, s)
  {
    match step
    case Interrupt =>
    case MainStep => 
    case WorkerStep(w, rc) => WorkerStepCounts(c, s, w, rc);
  }

  lemma WorkerStepCounts(c: Config, s: State, w: nat, returncode: int)
    requires Enabled(c, s, WorkerStep(w, returncode))
    ensures StepsLeft(c, WorkerNext(c, s, w, returncode)) < StepsLeft(c, s)
  {
    WorkersLeftUpdate(s.workers, w, WorkerNext(c, s, w, returncode).workers[w]);
    hide WorkersLeft;
  }

  lemma StepsLeftNonNegative(c: Config, s: State)
    requires Inv(c, s)
    ensures 0 <= StepsLeft(c, s)
  {
  }

  function ThreadSteps(steps: seq<Step>): nat {
    if steps == [] then 0
    else ThreadSteps(steps[..|steps|-1]) + if steps[|steps|-1].Interrupt? then 0 else 1
  }

  /** Every schedule is finite: the threads make a bounded number of steps, however they interleave
      and whenever the signal arrives. With `NeverStuck`, they can only stop after returning. */
  lemma {:induction false} EveryRunEnds(c: Config, steps: seq<Step>)
    requires After(c, steps).Some?
    ensures ThreadSteps(steps) + StepsLeft(c, After(c, steps).value) <= 6 * (|c.skips| + c.processors) + 4
    ensures 0 <= StepsLeft(c, After(c, steps).value)
    decreases |steps|
  {
    if steps == [] {
      NothingHeld(Init(c).workers);
    } else {
      var last := |steps| - 1;
      EveryRunEnds(c, steps[..last]);
      InvAlways(c, steps[..last]);
      StepsLeftDrops(c, After(c, steps[..last]).value, steps[last]);
    }
    InvAlways(c, steps);
    StepsLeftNonNegative(c, After(c, steps).value);
  }

  lemma {:induction false} NothingHeld(ws: seq<Worker>)
    requires forall w :: 0 <= w < |ws| ==> ws[w].Idle?
    ensures WorkersLeft(ws) == 0
    decreases |ws|
  {
    if ws != [] {
      NothingHeld(ws[..|ws|-1]);
    }
  }
}
