/** What the workers of test.py do with the tests themselves: which are run, how often, and what
    becomes of the return codes. */
module WorkerRuns {
  import opened Common
  import opened WorkerPool
  import opened WorkerSafety

  /** The return code of every test that has been run, by id, along a schedule. */
  function Runs(c: Config, steps: seq<Step>): map<nat, int> {
    if steps == [] then map[]
    else
      var before, step := After(c, steps[..|steps|-1]), steps[|steps|-1];
      var runs := Runs(c, steps[..|steps|-1]);
      if before.Some? && Finishes(before.value, step)
      then runs[before.value.workers[step.worker].job.id := step.returncode] else runs
  }

  /** The step is a worker coming back from `run_job_synchronously`. */
  predicate Finishes(s: State, step: Step) {
    step.WorkerStep? && step.worker < |s.workers| && s.workers[step.worker].Running?
  }

  /** A job on its way back tells the truth about its run: interrupted and skipped tests were not
      run, any other was and carries the code its run returned. */
  predicate Told(runs: map<nat, int>, job: Job) {
    if job.isBreak || job.isSkip then job.id !in runs else job.id in runs && runs[job.id] == job.returncode
  }

  predicate WorkerTold(runs: map<nat, int>, w: Worker) {
    match w
    case Got(job) => job.id !in runs
    case Running(job) => job.id !in runs
    case Reporting(job) => Told(runs, job)
    case _ => true
  }

  predicate AllTold(c: Config, s: State, runs: map<nat, int>) {
    && (forall i :: 0 <= i < |s.input| ==> s.input[i].id !in runs)
    && (forall w :: 0 <= w < |s.workers| ==> WorkerTold(runs, s.workers[w]))
    && (forall i :: 0 <= i < |s.output| ==> Told(runs, s.output[i]))
    && (forall i :: 0 <= i < |s.collected| ==> Told(runs, s.collected[i]))
    && (forall id :: id in runs ==> id < |c.skips| && !c.skips[id] && id < Taken(c, s))
  }

  // ----- a job held by one worker is nowhere else

  lemma {:induction false} OneHolder(ws: seq<Worker>, w: nat, id: nat)
    requires w < |ws| && !ws[w].Idle? && ws[w].job.id == id
    ensures Holders(ws, id, id + 1) >= 1
    decreases |ws|
  {
    if w < |ws| - 1 {
      OneHolder(ws[..|ws|-1], w, id);
    }
  }

  lemma {:induction false} TwoHolders(ws: seq<Worker>, v: nat, w: nat, id: nat)
    requires v < w < |ws| && !ws[v].Idle? && !ws[w].Idle? && ws[v].job.id == id == ws[w].job.id
    ensures Holders(ws, id, id + 1) >= 2
    decreases |ws|
  {
    var n := |ws| - 1;
    if w < n {
      TwoHolders(ws[..n], v, w, id);
    } else {
      OneHolder(ws[..n], v, id);
    }
  }

  lemma {:induction false} Present(jobs: seq<Job>, i: nat, id: nat)
    requires i < |jobs| && jobs[i].id == id
    ensures Occurs(jobs, id) >= 1
    decreases |jobs|
  {
    if i < |jobs| - 1 {
      Present(jobs[..|jobs|-1], i, id);
    }
  }

  lemma Alone(c: Config, s: State, w: nat)
    requires Conserved(c, s) && w < |s.workers| && !s.workers[w].Idle?
    ensures var id := s.workers[w].job.id;
      && (forall v :: 0 <= v < |s.workers| && v != w && !s.workers[v].Idle? ==> s.workers[v].job.id != id)
      && (forall i :: 0 <= i < |s.input| ==> s.input[i].id != id)
      && (forall i :: 0 <= i < |s.output| ==> s.output[i].id != id)
      && (forall i :: 0 <= i < |s.collected| ==> s.collected[i].id != id)
  {
    var id := s.workers[w].job.id;
    OneHolder(s.workers, w, id);
    assert Places(s, id) <= 1;
    forall v | 0 <= v < |s.workers| && v != w && !s.workers[v].Idle? ensures s.workers[v].job.id != id {
      if s.workers[v].job.id == id {
        TwoHolders(s.workers, if v < w then v else w, if v < w then w else v, id);
      }
    }
    Elsewhere(s.input, id);
    Elsewhere(s.output, id);
    Elsewhere(s.collected, id);
  }

  lemma Elsewhere(jobs: seq<Job>, id: nat)
    ensures Occurs(jobs, id) == 0 ==> forall i :: 0 <= i < |jobs| ==> jobs[i].id != id
  {
    forall i | 0 <= i < |jobs| && jobs[i].id == id ensures Occurs(jobs, id) >= 1 {
      Present(jobs, i, id);
    }
  }

  // ----- every schedule

  lemma StepTold(c: Config, s: State, runs: map<nat, int>, step: Step)
    requires Inv(c, s) && AllTold(c, s, runs) && Enabled(c, s, step)
    ensures AllTold(c, Next(c, s, step),
      if Finishes(s, step) then runs[s.workers[step.worker].job.id := step.returncode] else runs)
  {
    match step
    case Interrupt =>
    case MainStep => MainTold(c, s, runs);
    case WorkerStep(w, rc) =>
      if s.workers[w].Running? {
        RunTold(c, s, runs, w, rc);
      } else {
        WorkerStepTold(c, s, runs, w, rc);
      }
  }

  lemma MainTold(c: Config, s: State, runs: map<nat, int>)
    requires MainOk(c, s) && AllTold(c, s, runs) && Enabled(c, s, MainStep)
    requires Shapes(c, s)
    ensures AllTold(c, MainNext(c, s), runs)
  {
    MainQueues(c, s);
    hide MainNext, MainOk, Fresh, WorkerTold, Told, Issued;
  }

  lemma WorkerStepTold(c: Config, s: State, runs: map<nat, int>, w: nat, rc: int)
    requires Shapes(c, s) && AllTold(c, s, runs) && Enabled(c, s, WorkerStep(w, rc)) && !s.workers[w].Running?
    ensures AllTold(c, WorkerNext(c, s, w, rc), runs)
  {
    assert WorkerOk(c, Taken(c, s), s.threadExit, s.workers[w]) && WorkerTold(runs, s.workers[w]);
  }

  lemma RunTold(c: Config, s: State, runs: map<nat, int>, w: nat, rc: int)
    requires Inv(c, s) && AllTold(c, s, runs) && Enabled(c, s, WorkerStep(w, rc)) && s.workers[w].Running?
    ensures AllTold(c, WorkerNext(c, s, w, rc), runs[s.workers[w].job.id := rc])
  {
    Alone(c, s, w);
    assert WorkerOk(c, Taken(c, s), s.threadExit, s.workers[w]);
    hide Conserved, Counted, MainOk;
  }

  lemma {:induction false} AlwaysTold(c: Config, steps: seq<Step>)
    requires After(c, steps).Some?
    ensures AllTold(c, After(c, steps).value, Runs(c, steps))
    decreases |steps|
  {
    if steps != [] {
      var last := |steps| - 1;
      AlwaysTold(c, steps[..last]);
      InvAlways(c, steps[..last]);
      StepTold(c, After(c, steps[..last]).value, Runs(c, steps[..last]), steps[last]);
    }
  }

  /** No test is run twice. */
  lemma RunOnce(c: Config, steps: seq<Step>, step: Step)
    requires After(c, steps).Some? && Finishes(After(c, steps).value, step)
    ensures After(c, steps).value.workers[step.worker].job.id !in Runs(c, steps)
  {
    AlwaysTold(c, steps);
    assert WorkerTold(Runs(c, steps), After(c, steps).value.workers[step.worker]);
  }

  /** The test was not interrupted, and it was to be skipped or its run returned 0. */
  predicate Succeeded(c: Config, runs: map<nat, int>, job: Job) {
    !job.isBreak && job.id < |c.skips| && (c.skips[job.id] || (job.id in runs && runs[job.id] == 0))
  }

  /** `run_tests` returns 0 exactly when no test was interrupted and every test not skipped was run
      and returned 0. */
  lemma VerdictOfRuns(c: Config, steps: seq<Step>)
    requires After(c, steps).Some? && After(c, steps).value.main.Returned?
    ensures var s := After(c, steps).value;
      s.main.code == 0 <==> forall i :: 0 <= i < |s.collected| ==> Succeeded(c, Runs(c, steps), s.collected[i])
  {
    var s, runs := After(c, steps).value, Runs(c, steps);
    assert Reachable(c, s);
    Verdict(c, s);
    ReachableInv(c, s);
    AlwaysTold(c, steps);
    hide Conserved, Counted, MainOk, Runs, After, Tallied;
    forall i | 0 <= i < |s.collected| ensures Success(s.collected[i]) <==> Succeeded(c, runs, s.collected[i]) {
      assert Reported(c, s.threadExit, s.collected[i]) && Told(runs, s.collected[i]);
    }
  }

  // ----- what an interrupt does

  ghost predicate RunningIn(s: State, id: nat) {
    exists w :: 0 <= w < |s.workers| && s.workers[w].Running? && s.workers[w].job.id == id
  }

  /** The test is past the check of `thread_exit`: it is being run, or on its way back, or collected. */
  ghost predicate PastCheck(s: State, id: nat) {
    || RunningIn(s, id)
    || (exists w :: 0 <= w < |s.workers| && s.workers[w].Reporting? && s.workers[w].job.id == id)
    || (exists i :: 0 <= i < |s.output| && s.output[i].id == id)
    || (exists i :: 0 <= i < |s.collected| && s.collected[i].id == id)
  }

  ghost predicate MarkedOrPast(s0: State, job: Job) {
    job.isBreak || PastCheck(s0, job.id)
  }

  /** Since the state `s0` no test has been started, and all others have been marked. */
  ghost predicate StoppedSince(s0: State, s: State) {
    && s.threadExit
    && (forall w :: 0 <= w < |s.workers| && s.workers[w].Running? ==> RunningIn(s0, s.workers[w].job.id))
    && (forall w :: 0 <= w < |s.workers| && s.workers[w].Reporting? ==> MarkedOrPast(s0, s.workers[w].job))
    && (forall i :: 0 <= i < |s.output| ==> MarkedOrPast(s0, s.output[i]))
    && (forall i :: 0 <= i < |s.collected| ==> MarkedOrPast(s0, s.collected[i]))
  }

  lemma StepStopped(c: Config, s0: State, s: State, step: Step)
    requires StoppedSince(s0, s) && Enabled(c, s, step)
    ensures StoppedSince(s0, Next(c, s, step))
  {
    hide PastCheck, RunningIn, Count;
    match step
    case WorkerStep(w, rc) =>
      if s.workers[w].Running? {
        RunningIsPast(s0, s.workers[w].job.id);
      }
    case _ =>
  }

  lemma RunningIsPast(s: State, id: nat)
    ensures RunningIn(s, id) ==> PastCheck(s, id)
  {
  }

  /** What has been run since `s0` was being run then. */
  ghost predicate RunsFrom(s0: State, runs0: map<nat, int>, runs: map<nat, int>) {
    forall id :: id in runs ==> id in runs0 || RunningIn(s0, id)
  }

  lemma {:induction false} StoppedAfter(c: Config, before: seq<Step>, later: seq<Step>)
    requires After(c, before + later).Some? && After(c, before).Some? && After(c, before).value.threadExit
    ensures StoppedSince(After(c, before).value, After(c, before + later).value)
    ensures RunsFrom(After(c, before).value, Runs(c, before), Runs(c, before + later))
    decreases |later|
  {
    if later == [] {
      assert before + later == before;
    } else {
      var n := |later| - 1;
      assert before + later == before + later[..n] + [later[n]];
      OneStepMore(c, before + later[..n], later[n], After(c, before).value);
      hide *;
      StoppedAfter(c, before, later[..n]);
      StepStopped(c, After(c, before).value, After(c, before + later[..n]).value, later[n]);
      RunsGrow(After(c, before).value, Runs(c, before), Runs(c, before + later[..n]), Runs(c, before + later));
    }
  }

  lemma RunsGrow(s0: State, runs0: map<nat, int>, runs: map<nat, int>, more: map<nat, int>)
    requires RunsFrom(s0, runs0, runs) && forall id :: id in more ==> id in runs || RunningIn(s0, id)
    ensures RunsFrom(s0, runs0, more)
  {
  }

  lemma OneStepMore(c: Config, steps: seq<Step>, step: Step, s0: State)
    requires After(c, steps + [step]).Some?
    ensures After(c, steps).Some? && Enabled(c, After(c, steps).value, step)
    ensures After(c, steps + [step]) == Some(Next(c, After(c, steps).value, step))
    ensures StoppedSince(s0, After(c, steps).value) ==>
      forall id :: id in Runs(c, steps + [step]) ==> id in Runs(c, steps) || RunningIn(s0, id)
  {
    assert (steps + [step])[..|steps|] == steps;
    hide RunningIn, MarkedOrPast, Enabled, Next;
  }

  /** `thread_exit` is set if and only if the signal has come. */
  lemma {:induction false} FlagSet(c: Config, steps: seq<Step>)
    requires After(c, steps).Some?
    ensures After(c, steps).value.threadExit <==> Interrupt in steps
    decreases |steps|
  {
    if steps != [] {
      var n := |steps| - 1;
      FlagSet(c, steps[..n]);
      assert steps == steps[..n] + [steps[n]];
      hide Count;
    }
  }

  /** Once the signal has come, only tests that were being run at that moment finish a run, and every test that
      was not past the check comes back marked. */
  lemma InterruptStops(c: Config, before: seq<Step>, later: seq<Step>)
    requires After(c, before + later).Some? && After(c, before).Some? && Interrupt in before
    ensures RunsFrom(After(c, before).value, Runs(c, before), Runs(c, before + later))
    ensures var collected := After(c, before + later).value.collected;
      forall i :: 0 <= i < |collected| ==> collected[i].isBreak || PastCheck(After(c, before).value, collected[i].id)
  {
    FlagSet(c, before);
    hide After, Runs, PastCheck;
    StoppedAfter(c, before, later);
  }

  /** So `run_tests` returns 1 if some test, skipped or not, was not past the check when the signal had come. */
  lemma InterruptFails(c: Config, before: seq<Step>, later: seq<Step>, id: nat)
    requires After(c, before + later).Some? && After(c, before).Some? && Interrupt in before
    requires After(c, before + later).value.main.Returned?
    requires id < |c.skips| && !PastCheck(After(c, before).value, id)
    ensures After(c, before + later).value.main.code == 1
  {
    var s := After(c, before + later).value;
    assert Reachable(c, s);
    Verdict(c, s);
    InterruptStops(c, before, later);
    ReachableInv(c, s);
    assert MainOk(c, s);
    hide After, Runs, PastCheck, Inv, Tallied, Reachable;
    if forall i :: 0 <= i < |s.collected| ==> s.collected[i].id != id {
      Absent(s.collected, id);
    } else {
      var i :| 0 <= i < |s.collected| && s.collected[i].id == id;
      assert s.collected[i].isBreak && !Success(s.collected[i]);
    }
  }

  // ----- the counters

  function Matching(jobs: seq<Job>, p: Job -> bool): nat {
    if jobs == [] then 0 else Matching(jobs[..|jobs|-1], p) + if p(jobs[|jobs|-1]) then 1 else 0
  }

  function Ran(code: int -> bool): Job -> bool {
    (job: Job) => !job.isBreak && !job.isSkip && code(job.returncode)
  }

  /** Each counter is the number of collected jobs of its kind. */
  lemma {:induction false} CountersMean(jobs: seq<Job>)
    ensures Tallied(jobs).skipped == Matching(jobs, (job: Job) => !job.isBreak && job.isSkip)
    ensures Tallied(jobs).passed == Matching(jobs, Ran(code => code == 0))
    ensures Tallied(jobs).failed == Matching(jobs, Ran(code => code == 1))
    ensures Tallied(jobs).valgrind == Matching(jobs, Ran(code => code == 2))
    ensures Tallied(jobs).crashed == Matching(jobs, Ran(code => code !in {0, 1, 2}))
    decreases |jobs|
  {
    if jobs != [] {
      CountersMean(jobs[..|jobs|-1]);
    }
  }
}
