/** What holds over whole runs of the pause protocol, and when a pause request can still be met. */
module PauseRuns {
  import opened PauseProtocol

  lemma {:induction false} RunConcat(s: Stage, es: seq<Event>, fs: seq<Event>)
    ensures Run(s, es + fs) == Run(Run(s, es), fs)
    decreases |es|
  {
    if es == [] {
      assert es + fs == fs;
    } else {
      assert (es + fs)[1..] == es[1..] + fs;
      RunConcat(Step(s, es[0]), es[1..], fs);
    }
  }

  /** Whenever the stage is paused and the pause still requested, no worker is in fetch, main or throw. */
  lemma PausedIsQuiet(n: nat, hasFetch: bool, hasThrow: bool, es: seq<Event>)
    requires n > 0
    ensures var s := Run(Init(n, hasFetch, hasThrow), es);
      s.status == Paused && s.pauseRequested ==>
        forall i :: 0 <= i < |s.workers| ==> Behind(s.workers[i].pc) && !InLoop(s.workers[i].pc)
  {
    InitInv(n, hasFetch, hasThrow);
    RunKeeps(Init(n, hasFetch, hasThrow), es);
    var s := Run(Init(n, hasFetch, hasThrow), es);
    assert forall i :: 0 <= i < |s.workers| ==> WorkerOk(s, i);
  }

  /**
   * No wakeup is lost: a worker asleep has a pause to wait for, a pauser asleep is not owed an announcement,
   * and every completed barrier round is announced once.
   */
  lemma NoLostWakeup(n: nat, hasFetch: bool, hasThrow: bool, es: seq<Event>)
    requires n > 0
    ensures var s := Run(Init(n, hasFetch, hasThrow), es);
      && (Some(s.workers, Asleep) ==> s.pauseRequested)
      && (s.ctl == PauseWaiting ==> s.status != Paused)
      && (s.rounds == s.announced || (s.rounds == s.announced + 1 && Some(s.workers, Leading)))
  {
    InitInv(n, hasFetch, hasThrow);
    RunKeeps(Init(n, hasFetch, hasThrow), es);
    var s := Run(Init(n, hasFetch, hasThrow), es);
    assert forall i :: 0 <= i < |s.workers| ==> WorkerOk(s, i);
  }

  /**
   * A worker leaves its loop only if a procedure it called failed, or if a graceful shutdown was requested
   * and the last one returned nothing; it calls throw, and main after fetch, only with something to do.
   */
  lemma WorkersLeaveWhenTold(n: nat, hasFetch: bool, hasThrow: bool, es: seq<Event>, i: nat)
    requires n > 0 && i < n
    ensures var s := Run(Init(n, hasFetch, hasThrow), es); var w := s.workers[i];
      && (w.pc == Done ==> w.st < 0 || (w.st == 0 && s.graceful))
      && ((w.pc == Running && hasFetch) || w.pc == Throwing ==> w.st > 0)
  {
    InitInv(n, hasFetch, hasThrow);
    RunKeeps(Init(n, hasFetch, hasThrow), es);
    assert WorkerOk(Run(Init(n, hasFetch, hasThrow), es), i);
  }

  lemma ShutDownStep(s: Stage, e: Event)
    requires Inv(s) && s.status == Shutdown
    ensures Step(s, e).status == Shutdown
  {
    assert WorkerOk(s, 0);
  }

  /** A stage that is shut down stays so: no worker is left, the loop flag is cleared and no call starts anything. */
  lemma {:induction false} ShutDownForGood(s: Stage, es: seq<Event>)
    requires Inv(s) && s.status == Shutdown
    ensures var t := Run(s, es); t.status == Shutdown && !t.doLoop && t.ctl == Free && All(t.workers, Done)
    decreases |es|
  {
    if es == [] {
      assert forall i :: 0 <= i < |s.workers| ==> WorkerOk(s, i);
    } else {
      StepKeeps(s, es[0]);
      ShutDownStep(s, es[0]);
      ShutDownForGood(Step(s, es[0]), es[1..]);
    }
  }

  /** A pause that succeeds, at once or after waiting, leaves all workers behind the barrier. */
  lemma PauseReturns(s: Stage, e: Event)
    requires Inv(s)
    requires if e == PauseCall then s.ctl == Free && s.status == Paused
      else (e == PauseRequest || e == PauseRecheck) && Enabled(s, e) && Step(s, e).ctl == Free
    ensures var s' := Step(s, e); s'.status == Paused && s'.pauseRequested && AllBehind(s'.workers)
  {
    StepKeeps(s, e);
    var s' := Step(s, e);
    assert forall i :: 0 <= i < |s'.workers| ==> WorkerOk(s', i);
  }

  lemma PausedStep(s: Stage, e: Event)
    requires Inv(s) && s.status == Paused && s.pauseRequested && !Clears(e)
    ensures Step(s, e).status == Paused && Step(s, e).pauseRequested
  {
    assert WorkerOk(s, 0);
  }

  /** A paused stage stays so until a resume or a shutdown clears the request. */
  lemma {:induction false} StaysPaused(s: Stage, es: seq<Event>)
    requires Inv(s) && s.status == Paused && s.pauseRequested
    requires ResumeClear !in es && ShutdownClear !in es
    ensures var s' := Run(s, es); s'.status == Paused && s'.pauseRequested && AllBehind(s'.workers)
    decreases |es|
  {
    assert forall i :: 0 <= i < |s.workers| ==> WorkerOk(s, i);
    if es == [] {
    } else {
      StepKeeps(s, es[0]);
      PausedStep(s, es[0]);
      StaysPaused(Step(s, es[0]), es[1..]);
    }
  }

  // ---------------------------------------------------------------- can a pause request still be met?

  // Worker w will not come to the barrier as long as the pause is requested.
  predicate Absent(s: Stage, w: Worker) {
    || w.pc == Past || w.pc == Asleep || w.pc == Awake || w.pc == Done
    || (w.pc == Top && (w.st < 0 || (w.st == 0 && s.graceful)))
  }

  predicate Stuck(s: Stage, i: nat) {
    && i < |s.workers| && Absent(s, s.workers[i])
    && s.pauseRequested && (s.status == Started || s.status == Shutdown) && !Some(s.workers, Leading)
  }

  lemma StuckControlStep(s: Stage, i: nat, e: Event)
    requires Inv(s) && Stuck(s, i) && !IsWorkerEvent(e)
    ensures Stuck(Step(s, e), i) && Step(s, e).workers[i] == s.workers[i]
  {
    if Enabled(s, e) {
      assert !e.StartWorker? && !Clears(e);
      assert Step(s, e).workers == s.workers;
    }
  }

  lemma AbsentStep(s: Stage, e: Event)
    requires Inv(s) && IsWorkerEvent(e) && Enabled(s, e) && Stuck(s, e.i)
    ensures Absent(s, Step(s, e).workers[e.i])
  {}

  lemma StuckMove(s: Stage, i: nat, j: nat, w: Worker)
    requires Stuck(s, i) && j < |s.workers| && w.pc != Leading && (i == j ==> Absent(s, w))
    ensures Stuck(s.(workers := s.workers[j := w]), i)
  {}

  lemma StuckWorkerStep(s: Stage, i: nat, e: Event)
    requires Inv(s) && Stuck(s, i) && IsWorkerEvent(e) && Enabled(s, e)
    ensures Stuck(Step(s, e), i)
    ensures Behind(s.workers[i].pc) ==> Behind(Step(s, e).workers[i].pc)
  {
    assert !e.Lead? && !e.Release?;
    var w := OwnStep(s, e);
    if e.i == i {
      AbsentStep(s, e);
    }
    StuckMove(s, i, e.i, w);
  }

  /**
   * A worker that is absent when the pause is requested keeps the stage from ever being paused, and if it is
   * behind the barrier, it stays there.
   */
  lemma {:induction false} StuckForever(s: Stage, i: nat, es: seq<Event>)
    requires Inv(s) && Stuck(s, i)
    ensures Stuck(Run(s, es), i) && Run(s, es).status != Paused
    ensures Behind(s.workers[i].pc) ==> Behind(Run(s, es).workers[i].pc)
    decreases |es|
  {
    if es == [] {
    } else {
      StepKeeps(s, es[0]);
      if !Enabled(s, es[0]) {
      } else if IsWorkerEvent(es[0]) {
        StuckWorkerStep(s, i, es[0]);
      } else {
        StuckControlStep(s, i, es[0]);
      }
      StuckForever(Step(s, es[0]), i, es[1..]);
    }
  }

  lemma ResumeSteps(s: Stage)
    ensures s.ctl == Free && s.status == Paused ==> Step(s, ResumeCall) == s.(ctl := ResumeChecked)
    ensures s.ctl == ResumeChecked ==>
      Step(s, ResumeClear) == s.(pauseRequested := false, workers := Broadcast(s.workers), ctl := ResumeCleared)
    ensures s.ctl == ResumeCleared ==> Step(s, ResumeDone) == s.(status := Started, ctl := Free)
  {}

  lemma PauseSteps(s: Stage)
    requires s.status == Started
    ensures s.ctl == Free ==> Step(s, PauseCall) == s.(ctl := PauseChecked)
    ensures s.ctl == PauseChecked ==> Step(s, PauseRequest) == s.(pauseRequested := true, ctl := PauseWaiting)
  {}

  // A resume and a pause with nothing in between.
  predicate ResumeAndPause(es: seq<Event>) {
    |es| == 5 && es[0] == ResumeCall && es[1] == ResumeClear && es[2] == ResumeDone && es[3] == PauseCall
    && es[4] == PauseRequest
  }

  lemma RunFive(s: Stage, es: seq<Event>)
    requires |es| == 5
    ensures Run(s, es) == Step(Step(Step(Step(Step(s, es[0]), es[1]), es[2]), es[3]), es[4])
  {
    var s2 := Step(Step(s, es[0]), es[1]);
    var fs := es[1..][1..];
    assert Run(s, es) == Run(s2, fs);
    RunThree(s2, fs);
  }

  lemma RunThree(s: Stage, es: seq<Event>)
    requires |es| == 3
    ensures Run(s, es) == Step(Step(Step(s, es[0]), es[1]), es[2])
  {
    var s2, fs := Step(Step(s, es[0]), es[1]), es[1..][1..];
    assert Run(s, es) == Run(s2, fs);
    assert fs == [es[2]];
    RunOne(s2, es[2]);
  }

  lemma RunOne(s: Stage, e: Event)
    ensures Run(s, [e]) == Step(s, e)
  {
    assert [e][1..] == [];
  }

  predicate Lingers(s: Stage, i: nat) {
    Stuck(s, i) && Behind(s.workers[i].pc)
  }

  // After the two calls every worker still is behind the barrier of the round before.
  lemma AllStuck(s: Stage, es: seq<Event>)
    requires Inv(s) && s.ctl == Free && s.status == Paused && ResumeAndPause(es)
    ensures forall i :: 0 <= i < |s.workers| ==> Lingers(Run(s, es), i)
  {
    RunFive(s, es);
    var s1 := s.(ctl := ResumeChecked);
    var s2 := s1.(pauseRequested := false, workers := Broadcast(s.workers), ctl := ResumeCleared);
    var s3 := s2.(status := Started, ctl := Free);
    var s5 := s3.(pauseRequested := true, ctl := PauseWaiting);
    ResumeSteps(s);
    ResumeSteps(s1);
    ResumeSteps(s2);
    PauseSteps(s3);
    PauseSteps(s3.(ctl := PauseChecked));
    assert Run(s, es) == s5;
    BroadcastStuck(s, s5);
  }

  lemma BroadcastStuck(s: Stage, s': Stage)
    requires Inv(s) && s.ctl == Free && s.status == Paused
    requires s' == s.(workers := Broadcast(s.workers), status := Started, pauseRequested := true, ctl := PauseWaiting)
    ensures forall i :: 0 <= i < |s.workers| ==> Lingers(s', i)
  {
    forall i | 0 <= i < |s.workers|
      ensures Behind(s'.workers[i].pc) && s'.workers[i].pc != Leading
    {
      assert WorkerOk(s, i);
    }
  }

  // Every worker waits behind the barrier for a resume, though the stage is not paused.
  predicate LeftBehind(s: Stage) {
    && s.status != Paused && s.pauseRequested
    && forall i :: 0 <= i < |s.workers| ==> Behind(s.workers[i].pc) && s.workers[i].pc != Leading
  }

  lemma AllStuckForever(s: Stage, s': Stage, es: seq<Event>)
    requires Inv(s') && |s'.workers| == |s.workers| && forall i :: 0 <= i < |s.workers| ==> Lingers(s', i)
    ensures LeftBehind(Run(s', es))
  {
    var end := Run(s', es);
    forall i | 0 <= i < |end.workers|
      ensures Behind(end.workers[i].pc) && end.workers[i].pc != Leading && end.pauseRequested && end.status != Paused
    {
      assert Lingers(s', i);
      StuckForever(s', i, es);
    }
    assert Behind(end.workers[0].pc);
  }

  /**
   * The race between two calls: pausing right after resuming, before any worker has woken up, keeps every
   * worker behind the barrier for good, whatever happens later.
   */
  lemma ResumeThenPause(s: Stage, calls: seq<Event>, es: seq<Event>)
    requires Inv(s) && s.ctl == Free && s.status == Paused && ResumeAndPause(calls)
    ensures LeftBehind(Run(s, calls + es))
  {
    var s' := RunBoth(s, calls, es);
    AllStuck(s, calls);
    AllStuckForever(s, s', es);
  }

  lemma RunBoth(s: Stage, es: seq<Event>, fs: seq<Event>) returns (s': Stage)
    requires Inv(s)
    ensures s' == Run(s, es) && Inv(s') && |s'.workers| == |s.workers| && Run(s, es + fs) == Run(s', fs)
  {
    RunConcat(s, es, fs);
    RunKeeps(s, es);
    s' := Run(s, es);
  }

  ghost predicate CanPause(s: Stage) {
    exists es :: Run(s, es).status == Paused
  }

  // How far worker w still is from the barrier, and the step that brings it nearer.
  function Distance(w: Worker): nat {
    match w.pc
    case Fetching => 6
    case Running => 5
    case Throwing => 4
    case Top => 3
    case Check => 2
    case Joining => 1
    case _ => 0
  }

  function Approach(w: Worker, i: nat): Event {
    match w.pc
    case Top => LoopTest(i)
    case Check => FlagTest(i)
    case Joining => Arrive(i)
    case _ => Return(i, 1)
  }

  predicate Gathering(s: Stage, k: nat) {
    && Inv(s) && s.pauseRequested && s.status == Started && k <= |s.workers|
    && (forall i :: 0 <= i < |s.workers| ==> s.workers[i].pc != Leading && !Absent(s, s.workers[i]))
    && (forall i :: 0 <= i < k ==> s.workers[i].pc == AtBarrier)
  }

  lemma ApproachStep(s: Stage, k: nat)
    requires Gathering(s, k) && k < |s.workers| && s.workers[k].pc != AtBarrier
    ensures var s' := Step(s, Approach(s.workers[k], k));
      Gathering(s', k) && |s'.workers| == |s.workers| && s'.ctl == s.ctl
      && Distance(s'.workers[k]) < Distance(s.workers[k])
  {
    var e := Approach(s.workers[k], k);
    ApproachEnabled(s, k);
    StepKeeps(s, e);
    var w := OwnStep(s, e);
    assert Step(s, e).workers[k] == w;
  }

  lemma ApproachEnabled(s: Stage, k: nat)
    requires Gathering(s, k) && k < |s.workers| && s.workers[k].pc != AtBarrier
    ensures var e := Approach(s.workers[k], k);
      && Enabled(s, e) && IsWorkerEvent(e) && !e.Release? && !e.Lead? && e.i == k
      && var w := Step(s, e).workers[k]; !Absent(s, w) && Distance(w) < Distance(s.workers[k])
  {
    assert WorkerOk(s, k);
  }

  // With all workers at the barrier the round is completed and announced.
  lemma CompleteRound(s: Stage) returns (es: seq<Event>)
    requires Gathering(s, |s.workers|)
    ensures Run(s, es).status == Paused
    ensures Run(s, es).ctl == if s.ctl == PauseWaiting then PauseWoken else s.ctl
  {
    es := [Release(0), Lead(0)];
    assert Enabled(s, Release(0));
    var s1 := Step(s, Release(0));
    assert s1.workers[0].pc == Leading;
    assert es[1..] == [Lead(0)];
    RunOne(s1, Lead(0));
  }

  // A run in which every worker comes to the barrier and the pause is announced.
  lemma Gather(s: Stage, k: nat) returns (es: seq<Event>)
    requires Gathering(s, k)
    ensures Run(s, es).status == Paused
    ensures Run(s, es).ctl == if s.ctl == PauseWaiting then PauseWoken else s.ctl
    decreases |s.workers| - k, if k < |s.workers| then Distance(s.workers[k]) else 0
  {
    if k == |s.workers| {
      es := CompleteRound(s);
    } else if s.workers[k].pc == AtBarrier {
      es := Gather(s, k + 1);
    } else {
      var e := Approach(s.workers[k], k);
      ApproachStep(s, k);
      var rest := Gather(Step(s, e), k);
      es := [e] + rest;
      assert es[1..] == rest;
    }
  }

  /**
   * A requested pause can still be reached if and only if the barrier round is complete already or no worker
   * is absent: none lingers behind the barrier from the round before, and none has left or must leave its loop.
   */
  lemma CanPauseExactly(s: Stage)
    requires Inv(s) && s.pauseRequested && s.status == Started
    ensures CanPause(s) <==>
      Some(s.workers, Leading) || forall i :: 0 <= i < |s.workers| ==> !Absent(s, s.workers[i])
  {
    if i :| 0 <= i < |s.workers| && s.workers[i].pc == Leading {
      RunOne(s, Lead(i));
    } else if i :| 0 <= i < |s.workers| && Absent(s, s.workers[i]) {
      forall es
        ensures Run(s, es).status != Paused
      {
        StuckForever(s, i, es);
      }
    } else {
      var es := Gather(s, 0);
    }
  }
}
