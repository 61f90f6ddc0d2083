/**
 * The pipeline stage as a record whose fields its critical sections update in place. Every section does
 * what one step of the pause protocol says, and so keeps the protocol's invariant.
 */
module PipelineStages {
  import opened PauseProtocol

  class PipelineStage {
    var status: Status
    var pauseRequested: bool
    var doLoop: bool
    var graceful: bool
    var ctl: Ctl
    const workers: array<Worker>
    const hasFetch: bool
    const hasThrow: bool
    ghost var rounds: nat
    ghost var announced: nat

    ghost function State(): Stage
      reads this, workers
    {
      Stage(status, pauseRequested, doLoop, graceful, workers[..], hasFetch, hasThrow, ctl, rounds, announced)
    }

    constructor (n: nat, hasFetch: bool, hasThrow: bool)
      requires n > 0
      ensures State() == Init(n, hasFetch, hasThrow) && Inv(State()) && fresh(workers)
    {
      workers := new Worker[n](_ => Worker(Unborn, 0));
      this.hasFetch, this.hasThrow := hasFetch, hasThrow;
      status, pauseRequested, doLoop, graceful, ctl := Initialized, false, false, false, Free;
      rounds, announced := 0, 0;
      new;
      InitInv(n, hasFetch, hasThrow);
    }

    // Worker i sleeps on the resume condition or returns to its loop, as the request flag says.
    method RecheckRequest(i: nat)
      requires i < workers.Length
      modifies workers
      ensures workers[..] == old(workers[..])[i := old(workers[i]).(pc := if pauseRequested then Asleep else Top)]
    {
      if pauseRequested {
        workers[i] := workers[i].(pc := Asleep);
      } else {
        workers[i] := workers[i].(pc := Top);
      }
    }

    /** The section of a pause that sets the request flag. */
    method RequestPause()
      requires Inv(State()) && ctl == PauseChecked
      modifies this`pauseRequested, this`ctl
      ensures State() == Step(old(State()), PauseRequest) && Inv(State())
      ensures ctl == Free ==> status == Paused && pauseRequested && AllBehind(workers[..])
    {
      StepKeeps(State(), PauseRequest);
      pauseRequested := true;
      RecheckStatus();
      BehindWhenPaused(State());
    }

    // The pauser sleeps until the status is Paused.
    method RecheckStatus()
      modifies this`ctl
      ensures ctl == if status != Paused then PauseWaiting else Free
    {
      if status != Paused {
        ctl := PauseWaiting;
      } else {
        ctl := Free;
      }
    }

    /** A pauser that was woken up. */
    method ContinuePause()
      requires Inv(State()) && ctl == PauseWoken
      modifies this`ctl
      ensures State() == Step(old(State()), PauseRecheck) && Inv(State())
      ensures ctl == Free ==> status == Paused && pauseRequested && AllBehind(workers[..])
    {
      StepKeeps(State(), PauseRecheck);
      RecheckStatus();
      BehindWhenPaused(State());
    }

    // Broadcasts the resume condition.
    method NotifyResume()
      modifies workers
      ensures workers[..] == Broadcast(old(workers[..]))
    {
      ghost var ws := workers[..];
      var i := 0;
      while i < workers.Length
        invariant 0 <= i <= workers.Length
        invariant forall j :: 0 <= j < i ==> workers[j] == Broadcast(ws)[j]
        invariant forall j :: i <= j < workers.Length ==> workers[j] == ws[j]
      {
        if workers[i].pc == Asleep {
          workers[i] := workers[i].(pc := Awake);
        }
        i := i + 1;
      }
    }

    // Clears the request and wakes up all workers, for a resume or for a shutdown.
    method ResumeStage()
      requires Inv(State()) && (ctl == ResumeChecked || ctl == ShutdownResumes)
      modifies this`pauseRequested, this`ctl, workers
      ensures State() == Step(old(State()), if old(ctl) == ResumeChecked then ResumeClear else ShutdownClear)
      ensures Inv(State()) && !pauseRequested && forall i :: 0 <= i < workers.Length ==> workers[i].pc != Asleep
    {
      StepKeeps(State(), if ctl == ResumeChecked then ResumeClear else ShutdownClear);
      pauseRequested := false;
      NotifyResume();
      ctl := if ctl == ResumeChecked then ResumeCleared else ShutdownCleared;
    }

    /** The rest of a resume, or of the resume within a shutdown, outside the pause lock. */
    method FinishResume()
      requires Inv(State()) && (ctl == ResumeCleared || ctl == ShutdownCleared)
      modifies this`status, this`ctl
      ensures State() == Step(old(State()), if old(ctl) == ResumeCleared then ResumeDone else ShutdownRestart)
      ensures Inv(State()) && status == Started
    {
      StepKeeps(State(), if ctl == ResumeCleared then ResumeDone else ShutdownRestart);
      status := Started;
      ctl := if ctl == ResumeCleared then Free else LevelPending;
    }

    /** A worker behind the barrier: the serial thread announces the pause, and all wait for the resume. */
    method PassBarrier(i: nat)
      requires Inv(State()) && i < workers.Length && (workers[i].pc == Leading || workers[i].pc == Past)
      modifies this`status, this`ctl, this`announced, workers
      ensures State() == Step(old(State()), if old(workers[i]).pc == Leading then Lead(i) else Pass(i))
      ensures Inv(State()) && (old(workers[i]).pc == Leading ==> status == Paused && workers[i].pc == Asleep)
    {
      var isMaster := workers[i].pc == Leading;
      StepKeeps(State(), if isMaster then Lead(i) else Pass(i));
      assert WorkerOk(State(), i);
      if isMaster {
        status := Paused;
        announced := announced + 1;
        if ctl == PauseWaiting {
          ctl := PauseWoken;
        }
      }
      RecheckRequest(i);
    }

    /** A worker that was woken up, by a resume or for no reason. */
    method ContinueAfterBarrier(i: nat)
      requires Inv(State()) && i < workers.Length && workers[i].pc == Awake
      modifies workers
      ensures State() == Step(old(State()), Recheck(i)) && Inv(State())
      ensures workers[i].pc == if pauseRequested then Asleep else Top
    {
      StepKeeps(State(), Recheck(i));
      RecheckRequest(i);
    }

    /** The test at the head of a worker's loop. */
    method TestLoop(i: nat)
      requires Inv(State()) && i < workers.Length && workers[i].pc == Top
      modifies workers
      ensures State() == Step(old(State()), LoopTest(i)) && Inv(State())
    {
      StepKeeps(State(), LoopTest(i));
      var w := workers[i];
      if doLoop && (w.st > 0 || (w.st == 0 && !graceful)) {
        workers[i] := w.(pc := Check);
      } else {
        workers[i] := w.(pc := Done);
      }
    }

    // While the stage is paused on request all workers are behind the barrier.
    static lemma BehindWhenPaused(s: Stage)
      requires Inv(s)
      ensures s.status == Paused && s.pauseRequested ==> AllBehind(s.workers)
    {
      assert forall i :: 0 <= i < |s.workers| ==> WorkerOk(s, i);
    }
  }
}
