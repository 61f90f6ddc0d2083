/**
 * The worker threads of a stage and the fields their handshake works on. Every section under a lock does
 * what one step of the stage's life cycle says, and so keeps its invariant.
 */
module StageThreads {
  import opened ShutdownLevels
  import opened StageLifecycle

  class StageOfThreads {
    var status: Status
    var nShutdownWorkers: nat
    var nCanceledWorkers: nat
    var ctl: Ctl
    var fatal: bool
    var doLoop: bool
    var level: Level
    const threads: array<Thread>

    ghost function State(): Stage
      reads this, threads
    {
      Stage(status, threads[..], nShutdownWorkers, nCanceledWorkers, ctl, fatal, doLoop, level)
    }

    constructor (n: nat)
      ensures State() == Init(n) && Inv(State()) && fresh(threads)
    {
      threads := new Thread[n](_ => NEW_THREAD);
      status, nShutdownWorkers, nCanceledWorkers, ctl, fatal := Initialized, 0, 0, Free, false;
      doLoop, level := false, Level.Unknown;
      new;
      InitInv(n);
    }

    /** A spawned thread reports that it is there. */
    method EntryPoint(i: nat)
      requires Inv(State()) && i < threads.Length && threads[i].phase == Spawned
      modifies this`ctl, threads
      ensures State() == Step(old(State()), Enter(i)) && Inv(State())
      ensures threads[i].activated && threads[i].started && (ctl.AwaitStartup? && ctl.i == i ==> !ctl.asleep)
    {
      StepKeeps(State(), Enter(i));
      threads[i] := threads[i].(phase := Running, finalized := false, activated := true, started := true);
      if ctl.AwaitStartup? && ctl.i == i {
        ctl := AwaitStartup(i, false);
      }
    }

    /** The final procedure of a worker, called with the thread's wait lock held. */
    method FinalizeWorker(i: nat, isCanceled: bool)
      requires Inv(State()) && i < threads.Length && threads[i].phase == Running
      requires isCanceled ==> threads[i].cancelRequested
      modifies this`nShutdownWorkers, this`nCanceledWorkers, threads
      ensures State() == Step(old(State()), if isCanceled then ActOnCancel(i) else Return(i)) && Inv(State())
      ensures nShutdownWorkers == old(nShutdownWorkers) + 1
      ensures nCanceledWorkers == old(nCanceledWorkers) + if isCanceled then 1 else 0
      ensures threads[i].phase == Finalizing && threads[i].wasCanceled == isCanceled
    {
      StepKeeps(State(), if isCanceled then ActOnCancel(i) else Return(i));
      if isCanceled {
        nCanceledWorkers := nCanceledWorkers + 1;
      }
      nShutdownWorkers := nShutdownWorkers + 1;
      threads[i] := threads[i].(phase := Finalizing, ended := true, wasCanceled := isCanceled);
    }

    /** The end of a thread's finalization. */
    method LeaveThread(i: nat)
      requires Inv(State()) && i < threads.Length && threads[i].phase == Finalizing
      modifies this`ctl, threads
      ensures State() == Step(old(State()), FinishFinalize(i)) && Inv(State())
      ensures !threads[i].activated && threads[i].finalized && (ctl.Waiting? && ctl.i == i ==> !ctl.asleep)
    {
      StepKeeps(State(), FinishFinalize(i));
      threads[i] := threads[i].(phase := Absent, finalized := true, activated := false);
      if ctl.Waiting? && ctl.i == i {
        ctl := Waiting(i, ctl.upto, ctl.failed, false);
      }
    }

    /** The first test of a worker's loop, whose state still is 0; it reads the shutdown level second. */
    method TestFirst(i: nat)
      requires Inv(State()) && i < threads.Length && threads[i].phase == Running && threads[i].first == NotYet
      modifies threads
      ensures State() == Step(old(State()), FirstTest(i)) && Inv(State())
      ensures threads[i].first == if doLoop && level == Level.Unknown then WentOn else LeftAtOnce
    {
      StepKeeps(State(), FirstTest(i));
      if doLoop && level == Level.Unknown {
        threads[i] := threads[i].(first := WentOn);
      } else {
        threads[i] := threads[i].(first := LeftAtOnce);
      }
    }

    /** A shutdown of a started stage: any level is taken over, and an immediate one goes on to cancel. */
    method ShutdownStage(l: Level)
      requires Inv(State()) && ctl == Free && status == Started
      modifies this`level, this`ctl
      ensures State() == Step(old(State()), ShutdownCall(l)) && Inv(State())
      ensures level == l && ctl == if l == Level.RightNow then Canceling(0, threads.Length, false) else Free
    {
      StepKeeps(State(), ShutdownCall(l));
      level := l;
      if l == Level.RightNow {
        ctl := Canceling(0, threads.Length, false);
      }
    }

    /** The end of canceling all workers, which mimics an immediate shutdown. */
    method FinishCancel()
      requires Inv(State()) && ctl.Canceling? && ctl.i == ctl.upto
      modifies this`level, this`doLoop, this`ctl
      ensures State() == Step(old(State()), CancelDone) && Inv(State()) && level == Level.RightNow && !doLoop
    {
      StepKeeps(State(), CancelDone);
      level := Level.RightNow;
      doLoop := false;
      ctl := if ctl.failed then Waiting(0, ctl.upto, true, false) else Free;
    }

    /** One look at the thread that is being waited for: sleep, or go on to the next one. */
    method CheckWait()
      requires Inv(State()) && ctl.Waiting? && !ctl.asleep && ctl.i < ctl.upto
      requires threads[ctl.i].phase != Finalizing
      modifies this`ctl
      ensures State() == Step(old(State()), WaitLook) && Inv(State())
      ensures ctl.Waiting? && ctl.asleep == old(threads[ctl.i]).activated
      ensures ctl.i == old(ctl.i) + if old(threads[ctl.i]).activated then 0 else 1
    {
      StepKeeps(State(), WaitLook);
      if threads[ctl.i].activated {
        ctl := Waiting(ctl.i, ctl.upto, ctl.failed, true);
      } else {
        ctl := Waiting(ctl.i + 1, ctl.upto, ctl.failed, false);
      }
    }

    /** The verdict of a wait for a started stage; the fatal branch is never taken. */
    method ConcludeWait()
      requires Inv(State()) && ctl.Waiting? && ctl.i == ctl.upto && !ctl.failed
      modifies this`status, this`doLoop, this`ctl
      ensures State() == Step(old(State()), WaitDone) && Inv(State())
      ensures status == Shutdown <==> forall i :: 0 <= i < threads.Length ==> !threads[i].wasCanceled
      ensures (status == Shutdown || status == Canceled) && !doLoop && ctl == Free
    {
      AllCounted(State());
      StepKeeps(State(), WaitDone);
      if nShutdownWorkers == threads.Length {
        if nCanceledWorkers > 0 {
          status := Canceled;
        } else {
          status := Shutdown;
        }
      } else {
        assert false;   // "must not happen, waiting for all the worker exit succeeded but ..."
      }
      doLoop := false;
      ctl := Free;
    }
  }
}
