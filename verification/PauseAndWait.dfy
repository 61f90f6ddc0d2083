/** Reaching a pause, and waiting for a stage whose pause request was never met. */
module PauseAndWait {
  import opened PauseProtocol
  import opened PauseRuns

  // A run of one event after another.
  lemma RunThen(s: Stage, es: seq<Event>, t: Stage, e: Event)
    requires Run(s, es) == t
    ensures Run(s, es + [e]) == Step(t, e)
  {
    RunConcat(s, es, [e]);
    RunOne(t, e);
  }

  // ---------------------------------------------------------------- a pause is reached

  // The stage when k workers have been started.
  function StartedUpTo(n: nat, hasFetch: bool, hasThrow: bool, k: nat): Stage {
    Init(n, hasFetch, hasThrow).(ctl := Starting(k), doLoop := true,
                                 workers := seq(n, i => Worker(if i < k then Top else Unborn, 0)))
  }

  lemma {:induction false} StartUpTo(n: nat, hasFetch: bool, hasThrow: bool, k: nat) returns (es: seq<Event>)
    requires k <= n
    ensures Run(Init(n, hasFetch, hasThrow), es) == StartedUpTo(n, hasFetch, hasThrow, k)
  {
    var s0 := Init(n, hasFetch, hasThrow);
    if k == 0 {
      RunThen(s0, [], s0, StartCall);
      es := [] + [StartCall];
      assert s0.workers == StartedUpTo(n, hasFetch, hasThrow, 0).workers;
    } else {
      es := StartUpTo(n, hasFetch, hasThrow, k - 1);
      var s := StartedUpTo(n, hasFetch, hasThrow, k - 1);
      RunThen(s0, es, s, StartWorker);
      es := es + [StartWorker];
      assert Step(s, StartWorker).workers == StartedUpTo(n, hasFetch, hasThrow, k).workers;
    }
  }

  // A pause has been requested of a stage that was just started.
  lemma PauseRequested(n: nat, hasFetch: bool, hasThrow: bool) returns (es: seq<Event>)
    ensures Run(Init(n, hasFetch, hasThrow), es) == StartedUpTo(n, hasFetch, hasThrow, n)
      .(status := Started, pauseRequested := true, ctl := PauseWaiting)
  {
    var s0 := Init(n, hasFetch, hasThrow);
    es := StartUpTo(n, hasFetch, hasThrow, n);
    var s1 := StartedUpTo(n, hasFetch, hasThrow, n);
    var s2 := s1.(status := Started, ctl := Free);
    RunThen(s0, es, s1, StartDone);
    es := es + [StartDone];
    PauseSteps(s2);
    RunThen(s0, es, s2, PauseCall);
    es := es + [PauseCall];
    PauseSteps(s2.(ctl := PauseChecked));
    RunThen(s0, es, s2.(ctl := PauseChecked), PauseRequest);
    es := es + [PauseRequest];
  }

  /** For any number of workers there is a run in which a pause succeeds. */
  lemma PauseReached(n: nat, hasFetch: bool, hasThrow: bool) returns (es: seq<Event>)
    requires n > 0
    ensures var s := Run(Init(n, hasFetch, hasThrow), es); Inv(s) && s.ctl == Free && s.status == Paused
  {
    var s0 := Init(n, hasFetch, hasThrow);
    es := PauseRequested(n, hasFetch, hasThrow);
    var s1 := Run(s0, es);
    InitInv(n, hasFetch, hasThrow);
    RunKeeps(s0, es);
    assert Gathering(s1, 0);
    var fs := Gather(s1, 0);
    RunConcat(s0, es, fs);
    var s2 := Run(s1, fs);
    RunThen(s0, es + fs, s2, PauseRecheck);
    es := es + fs + [PauseRecheck];
    assert Step(s2, PauseRecheck) == s2.(ctl := Free);
    RunKeeps(s0, es);
  }

  /** So the race of a resume and a pause does leave a stage behind, whatever happens after the two calls. */
  lemma RaceReached(n: nat, hasFetch: bool, hasThrow: bool) returns (es: seq<Event>)
    requires n > 0
    ensures forall fs :: LeftBehind(Run(Run(Init(n, hasFetch, hasThrow), es), fs))
  {
    var s0 := Init(n, hasFetch, hasThrow);
    es := PauseReached(n, hasFetch, hasThrow);
    var s := Run(s0, es);
    var calls := [ResumeCall, ResumeClear, ResumeDone, PauseCall, PauseRequest];
    RunConcat(s0, es, calls);
    forall fs
      ensures LeftBehind(Run(Run(s0, es + calls), fs))
    {
      ResumeThenPause(s, calls, fs);
      RunConcat(s, calls, fs);
    }
    es := es + calls;
  }

  // ---------------------------------------------------------------- waiting with a pause request pending

  lemma ShutdownSteps(s: Stage)
    requires s.status == Started
    ensures s.ctl == Free ==> Step(s, ShutdownCall) == s.(ctl := ShutdownChecked)
    ensures s.ctl == ShutdownChecked ==> Step(s, ShutdownLook) == s.(ctl := LevelPending)
    ensures s.ctl == LevelPending ==> Step(s, ShutdownLevel) == s.(graceful := true, ctl := Free)
    ensures s.ctl == Free ==> Step(s, WaitCall) == s.(ctl := Waiting)
  {}

  /** A shutdown of a stage that is not paused leaves the request of a pause that timed out where it is. */
  lemma ShutdownKeepsRequest(s: Stage) returns (es: seq<Event>)
    requires s.ctl == Free && s.status == Started
    ensures Run(s, es) == s.(graceful := true, ctl := Waiting)
  {
    es := [];
    ShutdownSteps(s);
    ShutdownSteps(s.(ctl := ShutdownChecked));
    ShutdownSteps(s.(ctl := LevelPending));
    ShutdownSteps(s.(graceful := true));
    RunThen(s, es, s, ShutdownCall);
    es := es + [ShutdownCall];
    RunThen(s, es, s.(ctl := ShutdownChecked), ShutdownLook);
    es := es + [ShutdownLook];
    RunThen(s, es, s.(ctl := LevelPending), ShutdownLevel);
    es := es + [ShutdownLevel];
    RunThen(s, es, s.(graceful := true), WaitCall);
    es := es + [WaitCall];
  }

  ghost predicate CanEnd(s: Stage) {
    exists es :: Run(s, es).status == Shutdown
  }

  // Worker w has left, or can leave without coming past the test of the request.
  predicate MayLeave(s: Stage, w: Worker) {
    || w.pc == Done || w.pc == Fetching || w.pc == Running || w.pc == Throwing
    || (w.pc == Top && (w.st < 0 || (w.st == 0 && s.graceful)))
  }

  // The stage lock is held by a wait, and worker i will meet a request that nobody can clear.
  predicate Caught(s: Stage, i: nat) {
    && s.ctl == Waiting && s.pauseRequested && s.doLoop && s.status != Shutdown
    && i < |s.workers| && s.workers[i].pc != Unborn && !MayLeave(s, s.workers[i])
  }

  lemma CaughtWorker(s: Stage, i: nat, e: Event)
    requires Caught(s, i) && IsWorkerEvent(e)
    ensures Caught(Step(s, e), i)
  {}

  lemma CaughtStep(s: Stage, i: nat, e: Event)
    requires Caught(s, i)
    ensures Caught(Step(s, e), i)
  {
    if IsWorkerEvent(e) {
      CaughtWorker(s, i, e);
    } else {
      assert s.workers[i].pc != Done;
      assert Step(s, e) == s;
    }
  }

  lemma {:induction false} CaughtForever(s: Stage, i: nat, es: seq<Event>)
    requires Caught(s, i)
    ensures Caught(Run(s, es), i)
    decreases |es|
  {
    if es == [] {
    } else {
      CaughtStep(s, i, es[0]);
      CaughtForever(Step(s, es[0]), i, es[1..]);
    }
  }

  // How far worker w still is from having left, and the step that brings it nearer.
  function ToGo(w: Worker): nat {
    match w.pc
    case Done => 0
    case Top => 3
    case Check => 2
    case Past => 4
    case Awake => 4
    case _ => 1
  }

  function Nearer(w: Worker, i: nat): Event {
    match w.pc
    case Top => LoopTest(i)
    case Check => FlagTest(i)
    case Past => Pass(i)
    case Awake => Recheck(i)
    case _ => Return(i, -1)
  }

  // The first k workers have left, and nothing keeps the others.
  predicate Leaving(s: Stage, k: nat) {
    && Inv(s) && s.ctl == Waiting && k <= |s.workers|
    && (s.pauseRequested ==> forall i :: 0 <= i < |s.workers| ==> MayLeave(s, s.workers[i]))
    && (forall i :: 0 <= i < k ==> s.workers[i].pc == Done)
  }

  lemma NearerEnabled(s: Stage, k: nat)
    requires Leaving(s, k) && k < |s.workers| && s.workers[k].pc != Done
    ensures var e := Nearer(s.workers[k], k);
      && Enabled(s, e) && IsWorkerEvent(e) && !e.Release? && !e.Lead? && e.i == k
      && var w := Step(s, e).workers[k]; ToGo(w) < ToGo(s.workers[k]) && (s.pauseRequested ==> MayLeave(s, w))
  {
    assert WorkerOk(s, k);
  }

  lemma NearerStep(s: Stage, k: nat) returns (w: Worker)
    requires Leaving(s, k) && k < |s.workers| && s.workers[k].pc != Done
    ensures var e := Nearer(s.workers[k], k);
      && Step(s, e) == s.(workers := s.workers[k := w]) && Inv(Step(s, e))
      && ToGo(w) < ToGo(s.workers[k]) && (s.pauseRequested ==> MayLeave(s, w))
  {
    var e := Nearer(s.workers[k], k);
    NearerEnabled(s, k);
    StepKeeps(s, e);
    w := OwnStep(s, e);
    assert w == Step(s, e).workers[k];
  }

  lemma LeavingStep(s: Stage, k: nat)
    requires Leaving(s, k) && k < |s.workers| && s.workers[k].pc != Done
    ensures var s' := Step(s, Nearer(s.workers[k], k)); Leaving(s', k) && ToGo(s'.workers[k]) < ToGo(s.workers[k])
  {
    var w := NearerStep(s, k);
  }

  // A run in which every worker leaves and the wait ends.
  lemma LeaveAll(s: Stage, k: nat) returns (es: seq<Event>)
    requires Leaving(s, k)
    ensures Run(s, es).status == Shutdown
    decreases |s.workers| - k, if k < |s.workers| then ToGo(s.workers[k]) else 0
  {
    if k == |s.workers| {
      es := [WaitDone];
      RunOne(s, WaitDone);
    } else if s.workers[k].pc == Done {
      es := LeaveAll(s, k + 1);
    } else {
      var e := Nearer(s.workers[k], k);
      LeavingStep(s, k);
      var rest := LeaveAll(Step(s, e), k);
      es := [e] + rest;
      assert es[1..] == rest;
    }
  }

  /**
   * A wait, which holds the stage lock, can still end if and only if no pause is requested, or if every worker
   * has left or can leave before it tests the request; otherwise, as after a pause that timed out, the stage
   * is never shut down.
   */
  lemma WaitCanEndExactly(s: Stage)
    requires Inv(s) && s.ctl == Waiting
    ensures CanEnd(s) <==> !s.pauseRequested || forall i :: 0 <= i < |s.workers| ==> MayLeave(s, s.workers[i])
  {
    assert WorkerOk(s, 0);
    if s.pauseRequested && exists i :: 0 <= i < |s.workers| && !MayLeave(s, s.workers[i]) {
      var i :| 0 <= i < |s.workers| && !MayLeave(s, s.workers[i]);
      assert WorkerOk(s, i);
      forall es
        ensures Run(s, es).status != Shutdown
      {
        CaughtForever(s, i, es);
      }
    } else {
      var es := LeaveAll(s, 0);
    }
  }

  // ---------------------------------------------------------------- what a call has done when it returns

  // The state in which the stage lock is free again, or that at the end of the run.
  function FirstFree(s: Stage, es: seq<Event>): Stage
    decreases |es|
  {
    if s.ctl == Free || es == [] then s else FirstFree(Step(s, es[0]), es[1..])
  }

  // A shutdown that found the stage paused, before and after it has cleared the request.
  predicate ShuttingDownPaused(s: Stage) {
    || ((s.ctl == ShutdownChecked || s.ctl == ShutdownResumes) && s.status == Paused && s.pauseRequested)
    || (s.ctl == ShutdownCleared && s.status == Paused && !s.pauseRequested)
    || (s.ctl == LevelPending && s.status == Started && !s.pauseRequested)
  }

  lemma NobodyLeads(s: Stage)
    requires Inv(s) && (ShuttingDownPaused(s) || ResumingPaused(s))
    ensures !Some(s.workers, Leading)
  {
    assert forall i :: 0 <= i < |s.workers| ==> WorkerOk(s, i);
  }

  // As long as no worker leads, the workers leave the fields of the stage alone.
  lemma WorkersOnly(s: Stage, e: Event)
    requires IsWorkerEvent(e) && !Some(s.workers, Leading)
    ensures var s' := Step(s, e);
      s'.ctl == s.ctl && s'.status == s.status && s'.pauseRequested == s.pauseRequested
  {}

  lemma ShuttingDownStep(s: Stage, e: Event)
    requires Inv(s) && ShuttingDownPaused(s)
    ensures var s' := Step(s, e);
      if s'.ctl == Free then s'.graceful && !s'.pauseRequested && s'.status == Started else ShuttingDownPaused(s')
  {
    if IsWorkerEvent(e) {
      NobodyLeads(s);
      WorkersOnly(s, e);
    }
  }

  lemma {:induction false} ShuttingDownRun(s: Stage, es: seq<Event>)
    requires Inv(s) && ShuttingDownPaused(s)
    ensures var t := FirstFree(s, es);
      Inv(t) && (t.ctl == Free ==> t.graceful && !t.pauseRequested && t.status == Started)
    decreases |es|
  {
    if es == [] {
    } else {
      StepKeeps(s, es[0]);
      ShuttingDownStep(s, es[0]);
      if Step(s, es[0]).ctl != Free {
        ShuttingDownRun(Step(s, es[0]), es[1..]);
      }
    }
  }

  /**
   * A shutdown of a paused stage, whatever the workers do meanwhile, has resumed them when it returns: no pause
   * is requested, nobody is left asleep, and a wait called then can end.
   */
  lemma ShutdownOfPaused(s: Stage, es: seq<Event>)
    requires Inv(s) && s.ctl == Free && s.status == Paused
    ensures var t := FirstFree(Step(s, ShutdownCall), es);
      t.ctl == Free ==>
        && t.graceful && !t.pauseRequested && t.status == Started
        && (forall i :: 0 <= i < |t.workers| ==> t.workers[i].pc != Asleep)
        && CanEnd(Step(t, WaitCall))
  {
    var s1 := Step(s, ShutdownCall);
    StepKeeps(s, ShutdownCall);
    ShuttingDownRun(s1, es);
    var t := FirstFree(s1, es);
    if t.ctl == Free {
      assert forall i :: 0 <= i < |t.workers| ==> WorkerOk(t, i);
      StepKeeps(t, WaitCall);
      WaitCanEndExactly(Step(t, WaitCall));
    }
  }

  // A resume of a paused stage.
  predicate ResumingPaused(s: Stage) {
    || (s.ctl == ResumeChecked && s.status == Paused && s.pauseRequested)
    || (s.ctl == ResumeCleared && s.status == Paused && !s.pauseRequested)
  }

  lemma ResumingStep(s: Stage, e: Event)
    requires Inv(s) && ResumingPaused(s)
    ensures var s' := Step(s, e);
      if s'.ctl == Free then !s'.pauseRequested && s'.status == Started else ResumingPaused(s')
  {
    if IsWorkerEvent(e) {
      NobodyLeads(s);
      WorkersOnly(s, e);
    }
  }

  lemma {:induction false} ResumingRun(s: Stage, es: seq<Event>)
    requires Inv(s) && ResumingPaused(s)
    ensures var t := FirstFree(s, es); Inv(t) && (t.ctl == Free ==> !t.pauseRequested && t.status == Started)
    decreases |es|
  {
    if es == [] {
    } else {
      StepKeeps(s, es[0]);
      ResumingStep(s, es[0]);
      if Step(s, es[0]).ctl != Free {
        ResumingRun(Step(s, es[0]), es[1..]);
      }
    }
  }

  /** Likewise a resume has started the stage again when it returns. */
  lemma ResumeOfPaused(s: Stage, es: seq<Event>)
    requires Inv(s) && s.ctl == Free && s.status == Paused
    ensures var t := FirstFree(Step(s, ResumeCall), es);
      t.ctl == Free ==>
        && !t.pauseRequested && t.status == Started
        && forall i :: 0 <= i < |t.workers| ==> t.workers[i].pc != Asleep
  {
    StepKeeps(s, ResumeCall);
    ResumingRun(Step(s, ResumeCall), es);
    var t := FirstFree(Step(s, ResumeCall), es);
    assert forall i :: 0 <= i < |t.workers| ==> WorkerOk(t, i);
  }

  lemma FreeAfter(s: Stage, e: Event, s': Stage, rest: seq<Event>) returns (es: seq<Event>)
    requires Step(s, e) == s' && FirstFree(s', rest).ctl == Free
    ensures FirstFree(s, es).ctl == Free
  {
    es := [e] + rest;
    assert es[1..] == rest;
  }

  // The end of a shutdown, once it has cleared the request.
  lemma RestartReturns(s: Stage) returns (es: seq<Event>)
    requires s.ctl == ShutdownCleared
    ensures FirstFree(s, es).ctl == Free
  {
    var s1 := s.(ctl := LevelPending, status := Started);
    es := FreeAfter(s1, ShutdownLevel, s1.(ctl := Free, graceful := true), []);
    es := FreeAfter(s, ShutdownRestart, s1, es);
  }

  // The part of a shutdown that clears the request.
  lemma ClearReturns(s: Stage) returns (es: seq<Event>)
    requires s.ctl == ShutdownResumes
    ensures FirstFree(s, es).ctl == Free
  {
    var s1 := s.(ctl := ShutdownCleared, pauseRequested := false, workers := Broadcast(s.workers));
    es := RestartReturns(s1);
    es := FreeAfter(s, ShutdownClear, s1, es);
  }

  /** Such a shutdown can return, without any worker having to move... */
  lemma ShutdownReturns(s: Stage) returns (es: seq<Event>)
    requires s.ctl == Free && s.status == Paused
    ensures FirstFree(Step(s, ShutdownCall), es).ctl == Free
  {
    es := ClearReturns(s.(ctl := ShutdownResumes));
    es := FreeAfter(s.(ctl := ShutdownChecked), ShutdownLook, s.(ctl := ShutdownResumes), es);
  }

  /** ...and so can such a resume. */
  lemma ResumeReturns(s: Stage) returns (es: seq<Event>)
    requires s.ctl == Free && s.status == Paused
    ensures FirstFree(Step(s, ResumeCall), es).ctl == Free
  {
    var s1 := s.(ctl := ResumeChecked);
    var s2 := s.(ctl := ResumeCleared, pauseRequested := false, workers := Broadcast(s.workers));
    es := FreeAfter(s2, ResumeDone, s2.(ctl := Free, status := Started), []);
    es := FreeAfter(s1, ResumeClear, s2, es);
  }

  // ---------------------------------------------------------------- a wait that never ends

  // A pause has timed out while worker 0 was about to test the request.
  lemma PauseTimedOut(n: nat, hasFetch: bool, hasThrow: bool) returns (es: seq<Event>)
    requires n > 0
    ensures var s := Run(Init(n, hasFetch, hasThrow), es);
      s.ctl == Free && s.status == Started && s.pauseRequested && s.workers[0].pc == Check
  {
    var s0 := Init(n, hasFetch, hasThrow);
    es := PauseRequested(n, hasFetch, hasThrow);
    var s := Run(s0, es);
    RunThen(s0, es, s, LoopTest(0));
    RunThen(s0, es + [LoopTest(0)], Step(s, LoopTest(0)), PauseTimeout);
    es := es + [LoopTest(0)] + [PauseTimeout];
  }

  /**
   * For any number of workers there is a run in which a pause times out and a graceful shutdown and a wait
   * follow, and the wait never ends, whatever happens after it.
   */
  lemma WaitForeverReached(n: nat, hasFetch: bool, hasThrow: bool) returns (es: seq<Event>)
    requires n > 0
    ensures var s := Run(Init(n, hasFetch, hasThrow), es); s.ctl == Waiting && s.graceful && !CanEnd(s)
  {
    var s0 := Init(n, hasFetch, hasThrow);
    es := PauseTimedOut(n, hasFetch, hasThrow);
    var s := Run(s0, es);
    var fs := ShutdownKeepsRequest(s);
    RunConcat(s0, es, fs);
    es := es + fs;
    InitInv(n, hasFetch, hasThrow);
    RunKeeps(s0, es);
    WaitCanEndExactly(Run(s0, es));
  }
}
