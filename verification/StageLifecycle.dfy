/**
 * Starting the workers of a stage and waiting for them: the handshake between the thread that starts or
 * waits, which holds the stage lock, and any number of worker threads. A section under a thread's wait lock
 * is one step, except for the finalization of a thread, which runs the final procedure before it gives the
 * thread up.
 */
module StageLifecycle {
  import opened ShutdownLevels
  import opened WorkerLoop

  datatype Status = Initialized | Started | Canceled | Shutdown

  datatype Phase = Absent | Spawned | Running | Finalizing

  /** What the first test of a worker's loop came to, once the process as a whole has started. */
  datatype First = NotYet | LeftAtOnce | WentOn

  /** The flags of a thread, and whether and how it ended since the stage was last started. */
  datatype Thread = Thread(phase: Phase, started: bool, activated: bool, finalized: bool, cancelRequested: bool,
                           ended: bool, wasCanceled: bool, first: First)

  const NEW_THREAD := Thread(Absent, false, false, false, false, false, false, NotYet)

  /** What the holder of the stage lock does; `failed` marks the cleanup after a start that failed. */
  datatype Ctl =
    | Free
    | Starting(i: nat)
    | AwaitStartup(i: nat, asleep: bool)
    | Canceling(i: nat, upto: nat, failed: bool)
    | Waiting(i: nat, upto: nat, failed: bool, asleep: bool)

  datatype Stage = Stage(status: Status, threads: seq<Thread>, nShutdown: nat, nCanceled: nat, ctl: Ctl, fatal: bool,
                         doLoop: bool, level: Level)   // what the workers' loops read

  datatype Event =
    | StartCall | Spawn(ok: bool) | StartupLook | StartDone
    | ShutdownCall(l: Level) | CancelCall | CancelOne | CancelDone
    | WaitCall | WaitLook | WaitDone
    | WakeUp
    | Enter(i: nat) | FirstTest(i: nat) | Return(i: nat) | ActOnCancel(i: nat) | FinishFinalize(i: nat)

  function Init(n: nat): Stage {
    Stage(Initialized, seq(n, _ => NEW_THREAD), 0, 0, Free, false, false, Level.Unknown)
  }

  // The wait lock of a thread is held across its final procedure.
  predicate LockFree(s: Stage, i: nat)
    requires i < |s.threads|
  {
    !s.threads[i].phase.Finalizing?
  }

  // Counters back to zero.
  function Uncounted(s: Stage): (s': Stage)
    ensures |s'.threads| == |s.threads|
  {
    s.(nShutdown := 0, nCanceled := 0,
       threads := seq(|s.threads|, i requires 0 <= i < |s.threads| =>
                                     s.threads[i].(ended := false, wasCanceled := false)))
  }

  function With(s: Stage, i: nat, t: Thread): Stage
    requires i < |s.threads|
  {
    s.(threads := s.threads[i := t])
  }

  predicate At(s: Stage, i: nat, phase: Phase) {
    i < |s.threads| && s.threads[i].phase == phase
  }

  predicate Enabled(s: Stage, e: Event) {
    match e
    case StartCall => s.ctl.Free? && s.status.Initialized?
    case Spawn(ok) => s.ctl.Starting? && s.ctl.i < |s.threads| && LockFree(s, s.ctl.i)
                      && (ok ==> !s.threads[s.ctl.i].activated)
    case StartupLook => s.ctl.AwaitStartup? && !s.ctl.asleep && s.ctl.i < |s.threads| && LockFree(s, s.ctl.i)
    case StartDone => s.ctl.Starting? && s.ctl.i == |s.threads|
    case ShutdownCall(_) => s.ctl.Free? && s.status.Started?
    case CancelCall => s.ctl.Free? && s.status.Started?
    case CancelOne => s.ctl.Canceling? && s.ctl.i < s.ctl.upto <= |s.threads| && LockFree(s, s.ctl.i)
    case CancelDone => s.ctl.Canceling? && s.ctl.i == s.ctl.upto
    case WaitCall => s.ctl.Free? && s.status.Started?
    case WaitLook => s.ctl.Waiting? && !s.ctl.asleep && s.ctl.i < s.ctl.upto <= |s.threads| && LockFree(s, s.ctl.i)
    case WaitDone => s.ctl.Waiting? && s.ctl.i == s.ctl.upto
    case WakeUp => (s.ctl.AwaitStartup? || s.ctl.Waiting?) && s.ctl.asleep
    case Enter(i) => At(s, i, Spawned)
    case FirstTest(i) => At(s, i, Running) && s.threads[i].first == NotYet
    case Return(i) => At(s, i, Running)
    case ActOnCancel(i) => At(s, i, Running) && s.threads[i].cancelRequested
    case FinishFinalize(i) => At(s, i, Finalizing)
  }

  // The final procedure of a worker counts it; the wait lock stays held.
  function Finalized(s: Stage, i: nat, canceled: bool): Stage
    requires i < |s.threads|
  {
    With(s, i, s.threads[i].(phase := Finalizing, ended := true, wasCanceled := canceled))
    .(nShutdown := s.nShutdown + 1, nCanceled := if canceled then s.nCanceled + 1 else s.nCanceled)
  }

  // The verdict of a wait for all workers.
  function Verdict(s: Stage): Stage {
    if s.nShutdown == |s.threads| then
      s.(status := if s.nCanceled > 0 then Canceled else Shutdown, doLoop := false, ctl := Free)
    else s.(fatal := true, doLoop := false, ctl := Free)
  }

  function Awoken(ctl: Ctl): Ctl {
    match ctl
    case AwaitStartup(i, _) => AwaitStartup(i, false)
    case Waiting(i, upto, failed, _) => Waiting(i, upto, failed, false)
    case _ => ctl
  }

  function ControlStep(s: Stage, e: Event): (s': Stage)
    requires Enabled(s, e)
    ensures |s'.threads| == |s.threads|
  {
    match e
    case StartCall => Uncounted(s).(ctl := Starting(0), doLoop := true)
    case Spawn(ok) =>
      var i := s.ctl.i;
      if ok then
        With(s, i, s.threads[i].(phase := Spawned, started := false, activated := false, finalized := false,
                                 cancelRequested := false, first := NotYet)).(ctl := AwaitStartup(i, false))
      else s.(ctl := Canceling(0, i + 1, true))
    case StartupLook =>
      s.(ctl := if s.threads[s.ctl.i].started then Starting(s.ctl.i + 1) else AwaitStartup(s.ctl.i, true))
    case StartDone => s.(status := Started, ctl := Free)
    case ShutdownCall(l) =>
      s.(level := l, ctl := if l == Level.RightNow then Canceling(0, |s.threads|, false) else Free)
    case CancelCall => s.(ctl := Canceling(0, |s.threads|, false))
    case CancelOne =>
      var t := s.threads[s.ctl.i];
      With(s, s.ctl.i, t.(cancelRequested := t.cancelRequested || t.activated))
      .(ctl := Canceling(s.ctl.i + 1, s.ctl.upto, s.ctl.failed))
    case CancelDone =>
      s.(level := Level.RightNow, doLoop := false,
         ctl := if s.ctl.failed then Waiting(0, s.ctl.upto, true, false) else Free)
    case WaitCall => s.(ctl := Waiting(0, |s.threads|, false, false))
    case WaitLook =>
      s.(ctl := if s.threads[s.ctl.i].activated then Waiting(s.ctl.i, s.ctl.upto, s.ctl.failed, true)
                else Waiting(s.ctl.i + 1, s.ctl.upto, s.ctl.failed, false))
    case WaitDone => if s.ctl.failed then Uncounted(s).(ctl := Free) else Verdict(s)
    case WakeUp => s.(ctl := Awoken(s.ctl))
    case _ => s
  }

  // Broadcasting a condition of thread i.
  function Notify(ctl: Ctl, i: nat, startup: bool): Ctl {
    if (if startup then ctl.AwaitStartup? else ctl.Waiting?) && ctl.i == i then Awoken(ctl) else ctl
  }

  function ThreadStep(s: Stage, e: Event): (s': Stage)
    requires Enabled(s, e)
    ensures |s'.threads| == |s.threads|
  {
    match e
    case Enter(i) =>
      With(s, i, s.threads[i].(phase := Running, finalized := false, activated := true, started := true))
      .(ctl := Notify(s.ctl, i, true))
    case FirstTest(i) =>
      var goesOn := GoesOn(Flags(s.doLoop, s.level, false), 0);
      With(s, i, s.threads[i].(first := if goesOn then WentOn else LeftAtOnce))
    case Return(i) => Finalized(s, i, false)
    case ActOnCancel(i) => Finalized(s, i, true)
    case FinishFinalize(i) =>
      With(s, i, s.threads[i].(phase := Absent, finalized := true, activated := false))
      .(ctl := Notify(s.ctl, i, false))
    case _ => s
  }

  predicate IsThreadEvent(e: Event) {
    e.Enter? || e.FirstTest? || e.Return? || e.ActOnCancel? || e.FinishFinalize?
  }

  // One step; an event that cannot happen now changes nothing.
  function Step(s: Stage, e: Event): (s': Stage)
    ensures |s'.threads| == |s.threads|
  {
    if !Enabled(s, e) then s else if IsThreadEvent(e) then ThreadStep(s, e) else ControlStep(s, e)
  }

  // A run is any sequence of events whatsoever.
  function Run(s: Stage, es: seq<Event>): (s': Stage)
    ensures |s'.threads| == |s.threads|
    decreases |es|
  {
    if es == [] then s else Run(Step(s, es[0]), es[1..])
  }

  // ---------------------------------------------------------------- what every step keeps

  // How many threads ended, or ended by cancellation.
  function Ended(ts: seq<Thread>, byCancel: bool): nat {
    if ts == [] then 0
    else (if ts[0].ended && (byCancel ==> ts[0].wasCanceled) then 1 else 0) + Ended(ts[1..], byCancel)
  }

  lemma {:induction false} EndedUpdate(ts: seq<Thread>, i: nat, t: Thread, byCancel: bool)
    requires i < |ts| && !ts[i].ended
    ensures Ended(ts[i := t], byCancel)
         == Ended(ts, byCancel) + if t.ended && (byCancel ==> t.wasCanceled) then 1 else 0
  {
    if i > 0 {
      EndedUpdate(ts[1..], i - 1, t, byCancel);
      assert ts[i := t][1..] == ts[1..][i - 1 := t];
    } else {
      assert ts[i := t][1..] == ts[1..];
    }
  }

  // What a step leaves alone, it does not count.
  lemma {:induction false} EndedSame(ts: seq<Thread>, us: seq<Thread>, byCancel: bool)
    requires |us| == |ts|
    requires forall i :: 0 <= i < |ts| ==> us[i].ended == ts[i].ended && us[i].wasCanceled == ts[i].wasCanceled
    ensures Ended(us, byCancel) == Ended(ts, byCancel)
  {
    if ts == [] {
    } else {
      EndedSame(ts[1..], us[1..], byCancel);
    }
  }

  lemma {:induction false} EndedBounds(ts: seq<Thread>, byCancel: bool)
    ensures Ended(ts, byCancel) <= |ts|
    ensures (forall i :: 0 <= i < |ts| ==> ts[i].ended) ==> Ended(ts, false) == |ts|
    ensures (forall i :: 0 <= i < |ts| ==> !ts[i].ended) ==> Ended(ts, byCancel) == 0
    ensures Ended(ts, byCancel) > 0 <==> exists i :: 0 <= i < |ts| && ts[i].ended && (byCancel ==> ts[i].wasCanceled)
  {
    if ts == [] {
    } else {
      var us := ts[1..];
      EndedBounds(us, byCancel);
      assert forall i :: 0 <= i < |us| ==> us[i] == ts[i + 1];
      assert forall i :: 0 < i < |ts| ==> ts[i] == us[i - 1];
    }
  }

  // How far the starting of threads has come.
  function Begun(s: Stage): nat {
    match s.ctl
    case Free => if s.status == Initialized then 0 else |s.threads|
    case Starting(i) => i
    case AwaitStartup(i, _) => i + 1
    case Canceling(_, upto, failed) => if failed && upto > 0 then upto - 1 else upto
    case Waiting(_, upto, failed, _) => if failed && upto > 0 then upto - 1 else upto
  }

  predicate ThreadOk(s: Stage, j: nat)
    requires j < |s.threads|
  {
    var t := s.threads[j];
    && (t.activated <==> t.phase.Running? || t.phase.Finalizing?)
    && (t.phase.Spawned? ==> s.ctl.AwaitStartup? && s.ctl.i == j && !t.started)
    && (t.phase.Running? || t.phase.Spawned? ==> !t.ended)
    && (t.phase.Finalizing? ==> t.ended)
    && (j >= Begun(s) ==> t.phase.Absent? && !t.ended)
    && (j < Begun(s) && t.phase.Absent? ==> t.ended)
    && (j < Begun(s) && !(s.ctl.AwaitStartup? && s.ctl.i == j) ==> !t.phase.Spawned?)
    && (s.ctl.AwaitStartup? && s.ctl.i == j ==> (t.started <==> !t.phase.Spawned?) && (s.ctl.asleep ==> !t.started))
    && (s.ctl.Waiting? && j < s.ctl.i ==> t.phase.Absent?)
    && (s.ctl.Waiting? && j == s.ctl.i && s.ctl.asleep ==> t.activated)
    && FlagsOk(s, j)
  }

  // The remaining flags of a thread: finalized once it has ended for good, canceled only on request, and
  // asked to cancel if a start failed.
  predicate FlagsOk(s: Stage, j: nat)
    requires j < |s.threads|
  {
    var t := s.threads[j];
    && (t.phase.Running? ==> !t.finalized) && (t.phase.Absent? && t.ended ==> t.finalized)
    && (t.wasCanceled ==> t.ended && t.cancelRequested)
    && (s.ctl.Canceling? && j < s.ctl.i && t.activated ==> t.cancelRequested)
    && (s.ctl.Waiting? && s.ctl.failed && t.activated ==> t.cancelRequested)
  }

  predicate ThreadsOk(s: Stage) {
    forall j {:trigger s.threads[j]} :: 0 <= j < |s.threads| ==> ThreadOk(s, j)
  }

  predicate ControlOk(s: Stage) {
    && !s.fatal
    && (match s.ctl
        case Free => true
        case Starting(i) => s.status == Initialized && i <= |s.threads|
        case AwaitStartup(i, _) => s.status == Initialized && i < |s.threads|
        case Canceling(i, upto, failed) =>
          i <= upto <= |s.threads| && if failed then s.status == Initialized && upto > 0
                                      else s.status == Started && upto == |s.threads|
        case Waiting(i, upto, failed, asleep) =>
          i <= upto <= |s.threads| && (asleep ==> i < upto) && (failed ==> s.level == Level.RightNow && !s.doLoop)
          && if failed then s.status == Initialized && upto > 0 else s.status == Started && upto == |s.threads|)
  }

  predicate CountsOk(s: Stage) {
    s.nShutdown == Ended(s.threads, false) && s.nCanceled == Ended(s.threads, true)
  }

  predicate Inv(s: Stage) {
    ControlOk(s) && ThreadsOk(s) && CountsOk(s)
  }

  // When all waits have returned, every worker was counted once.
  lemma AllCounted(s: Stage)
    requires Inv(s) && Enabled(s, WaitDone) && !s.ctl.failed
    ensures s.nShutdown == |s.threads| && s.nCanceled <= |s.threads|
    ensures s.nCanceled > 0 <==> exists i :: 0 <= i < |s.threads| && s.threads[i].wasCanceled
  {
    forall j | 0 <= j < |s.threads|
      ensures s.threads[j].ended
    {
      assert ThreadOk(s, j);
    }
    EndedBounds(s.threads, false);
    EndedBounds(s.threads, true);
  }

  lemma UncountedZero(s: Stage)
    ensures CountsOk(Uncounted(s))
  {
    EndedBounds(Uncounted(s).threads, false);
    EndedBounds(Uncounted(s).threads, true);
  }

  lemma ControlKeepsCounts(s: Stage, e: Event)
    requires Inv(s) && !IsThreadEvent(e) && Enabled(s, e)
    ensures CountsOk(Step(s, e))
  {
    if e.StartCall? || (e.WaitDone? && s.ctl.failed) {
      UncountedZero(s);
    } else {
      EndedSame(s.threads, Step(s, e).threads, false);
      EndedSame(s.threads, Step(s, e).threads, true);
    }
  }

  lemma ControlKeepsControl(s: Stage, e: Event)
    requires Inv(s) && !IsThreadEvent(e) && Enabled(s, e)
    ensures ControlOk(Step(s, e))
  {
    if e.WaitDone? && !s.ctl.failed {
      AllCounted(s);
    }
  }

  lemma WaitKeepsThread(s: Stage, e: Event, j: nat)
    requires Inv(s) && (e.WaitDone? || e.WaitLook? || e.WaitCall? || e.WakeUp?) && Enabled(s, e) && j < |s.threads|
    ensures ThreadOk(Step(s, e), j)
  {
    assert ThreadOk(s, j);
    if e.WaitDone? && !s.ctl.failed {
      AllCounted(s);
    }
  }

  lemma ControlKeepsThread(s: Stage, e: Event, j: nat)
    requires Inv(s) && !IsThreadEvent(e) && Enabled(s, e) && j < |s.threads|
    ensures ThreadOk(Step(s, e), j)
  {
    if e.WaitDone? || e.WaitLook? || e.WaitCall? || e.WakeUp? {
      WaitKeepsThread(s, e, j);
    } else {
      assert ThreadOk(s, j);
    }
  }

  lemma ThreadKeepsCounts(s: Stage, e: Event)
    requires Inv(s) && IsThreadEvent(e) && Enabled(s, e)
    ensures CountsOk(Step(s, e))
  {
    assert ThreadOk(s, e.i);
    if e.Return? || e.ActOnCancel? {
      EndedUpdate(s.threads, e.i, Step(s, e).threads[e.i], false);
      EndedUpdate(s.threads, e.i, Step(s, e).threads[e.i], true);
    } else {
      EndedSame(s.threads, Step(s, e).threads, false);
      EndedSame(s.threads, Step(s, e).threads, true);
    }
  }

  lemma ThreadKeepsItself(s: Stage, e: Event)
    requires Inv(s) && IsThreadEvent(e) && Enabled(s, e)
    ensures ThreadOk(Step(s, e), e.i) && ControlOk(Step(s, e))
  {
    assert ThreadOk(s, e.i);
  }

  // A thread's step changes that thread, the counters, and at most wakes the controlling thread.
  lemma ThreadFrame(s: Stage, e: Event)
    requires IsThreadEvent(e) && Enabled(s, e)
    ensures var s' := Step(s, e);
      && s'.status == s.status && (s'.ctl == s.ctl || s'.ctl == Awoken(s.ctl))
      && forall j :: 0 <= j < |s.threads| && j != e.i ==> s'.threads[j] == s.threads[j]
  {}

  lemma OtherKeeps(s: Stage, s': Stage, j: nat)
    requires j < |s.threads| == |s'.threads| && s'.threads[j] == s.threads[j] && ThreadOk(s, j)
    requires s'.status == s.status && (s'.ctl == s.ctl || s'.ctl == Awoken(s.ctl))
    ensures ThreadOk(s', j)
  {}

  lemma ThreadKeepsOther(s: Stage, e: Event, j: nat)
    requires Inv(s) && IsThreadEvent(e) && Enabled(s, e) && j < |s.threads| && j != e.i
    ensures ThreadOk(Step(s, e), j)
  {
    assert ThreadOk(s, j);
    ThreadFrame(s, e);
    OtherKeeps(s, Step(s, e), j);
  }

  lemma StepKeeps(s: Stage, e: Event)
    requires Inv(s)
    ensures Inv(Step(s, e))
  {
    if Enabled(s, e) {
      if IsThreadEvent(e) {
        ThreadKeepsCounts(s, e);
        ThreadKeepsItself(s, e);
      } else {
        ControlKeepsCounts(s, e);
        ControlKeepsControl(s, e);
      }
      forall j | 0 <= j < |s.threads|
        ensures ThreadOk(Step(s, e), j)
      {
        if IsThreadEvent(e) {
          if j != e.i {
            ThreadKeepsOther(s, e, j);
          }
        } else {
          ControlKeepsThread(s, e, j);
        }
      }
    }
  }

  lemma InitInv(n: nat)
    ensures Inv(Init(n))
  {
    EndedBounds(Init(n).threads, false);
    EndedBounds(Init(n).threads, true);
    forall j | 0 <= j < n
      ensures ThreadOk(Init(n), j)
    {}
  }

  lemma {:induction false} RunKeeps(s: Stage, es: seq<Event>)
    requires Inv(s)
    ensures Inv(Run(s, es))
    decreases |es|
  {
    if es == [] {
    } else {
      StepKeeps(s, es[0]);
      RunKeeps(Step(s, es[0]), es[1..]);
    }
  }

  // ---------------------------------------------------------------- what holds over whole runs

  /**
   * When the untimed wait for a started stage comes to its verdict, all workers were counted, so the verdict
   * is not the fatal one: the stage is shut down exactly if no worker was canceled, and canceled otherwise.
   */
  lemma WaitVerdict(n: nat, es: seq<Event>)
    requires var s := Run(Init(n), es); s.ctl.Waiting? && !s.ctl.failed && s.ctl.i == s.ctl.upto
    ensures var s := Run(Init(n), es); var s' := Step(s, WaitDone);
      && s.nShutdown == n && s.nCanceled <= n && !s'.fatal && !s'.doLoop && s'.ctl == Free
      && (s'.status == Shutdown <==> forall i :: 0 <= i < n ==> !s.threads[i].wasCanceled)
      && (s'.status == Canceled <==> exists i :: 0 <= i < n && s.threads[i].wasCanceled)
      && (forall i :: 0 <= i < n ==> s.threads[i].ended && s.threads[i].phase == Absent)
  {
    InitInv(n);
    RunKeeps(Init(n), es);
    var s := Run(Init(n), es);
    AllCounted(s);
    forall i | 0 <= i < n
      ensures s.threads[i].ended && s.threads[i].phase == Absent
    {
      assert ThreadOk(s, i);
    }
  }

  /** Neither the thread that starts a worker nor the one that waits for it sleeps when it need not. */
  lemma NoLostWakeup(n: nat, es: seq<Event>)
    ensures var s := Run(Init(n), es);
      && !s.fatal
      && (s.ctl.AwaitStartup? && s.ctl.asleep ==> s.ctl.i < n && s.threads[s.ctl.i].phase == Spawned)
      && (s.ctl.Waiting? && s.ctl.asleep ==> s.ctl.i < n && s.threads[s.ctl.i].activated)
  {
    InitInv(n);
    RunKeeps(Init(n), es);
    var s := Run(Init(n), es);
    if s.ctl.AwaitStartup? || (s.ctl.Waiting? && s.ctl.asleep) {
      assert ThreadOk(s, s.ctl.i);
    }
  }

  /** After a start that failed no thread is left running and the stage can be started again. */
  lemma FailedStartCleansUp(n: nat, es: seq<Event>)
    requires var s := Run(Init(n), es); s.ctl == Free && s.status == Initialized
    ensures var s := Run(Init(n), es);
      s.nShutdown == 0 && s.nCanceled == 0 && Enabled(s, StartCall)
      && forall i :: 0 <= i < n ==> s.threads[i].phase == Absent && !s.threads[i].activated
  {
    InitInv(n);
    RunKeeps(Init(n), es);
    var s := Run(Init(n), es);
    forall i | 0 <= i < n
      ensures s.threads[i].phase == Absent && !s.threads[i].activated && !s.threads[i].ended
    {
      assert ThreadOk(s, i);
    }
    EndedBounds(s.threads, false);
    EndedBounds(s.threads, true);
  }

  /** A worker counts as canceled only if it was asked to cancel, as all active ones are after a failed start. */
  lemma CanceledOnRequest(n: nat, es: seq<Event>, i: nat)
    requires i < n
    ensures var s := Run(Init(n), es); var t := s.threads[i];
      && (t.wasCanceled ==> t.ended && t.cancelRequested)
      && (s.ctl.Waiting? && s.ctl.failed && t.activated ==> t.cancelRequested)
      && (t.ended && t.phase == Absent ==> t.finalized)
  {
    InitInv(n);
    RunKeeps(Init(n), es);
    assert ThreadOk(Run(Init(n), es), i);
  }

  // ---------------------------------------------------------------- canceling

  // The state in which the stage lock is free again, or that at the end of the run.
  function FirstFree(s: Stage, es: seq<Event>): Stage
    decreases |es|
  {
    if s.ctl.Free? || es == [] then s else FirstFree(Step(s, es[0]), es[1..])
  }

  // No worker goes on: the loops are told to stop at once, and whoever is active is asked to cancel.
  predicate Stopped(s: Stage) {
    && s.level == Level.RightNow && !s.doLoop
    && forall i :: 0 <= i < |s.threads| && s.threads[i].activated ==> s.threads[i].cancelRequested
  }

  lemma CancelingStep(s: Stage, e: Event)
    requires Inv(s) && s.ctl.Canceling? && !s.ctl.failed
    ensures var s' := Step(s, e); if s'.ctl.Free? then Stopped(s') else s'.ctl.Canceling? && !s'.ctl.failed
  {
    assert forall i :: 0 <= i < |s.threads| ==> ThreadOk(s, i);
  }

  lemma {:induction false} CancelingRun(s: Stage, es: seq<Event>)
    requires Inv(s) && s.ctl.Canceling? && !s.ctl.failed
    ensures FirstFree(s, es).ctl.Free? ==> Stopped(FirstFree(s, es))
    decreases |es|
  {
    if es == [] {
    } else {
      StepKeeps(s, es[0]);
      CancelingStep(s, es[0]);
      if !Step(s, es[0]).ctl.Free? {
        CancelingRun(Step(s, es[0]), es[1..]);
      }
    }
  }

  /**
   * When an immediate shutdown or a cancellation returns, whatever the workers did meanwhile, every worker
   * that is still active was asked to cancel and no loop goes on. A shutdown with another level returns at
   * once, leaving the loop flag and the workers alone.
   */
  lemma ImmediateCancels(s: Stage, es: seq<Event>, l: Level)
    requires Inv(s) && s.ctl.Free? && s.status.Started?
    ensures var t := FirstFree(Step(s, ShutdownCall(Level.RightNow)), es); t.ctl.Free? ==> Stopped(t)
    ensures var t := FirstFree(Step(s, CancelCall), es); t.ctl.Free? ==> Stopped(t)
    ensures l != Level.RightNow ==> Step(s, ShutdownCall(l)) == s.(level := l)
  {
    StepKeeps(s, ShutdownCall(Level.RightNow));
    CancelingRun(Step(s, ShutdownCall(Level.RightNow)), es);
    StepKeeps(s, CancelCall);
    CancelingRun(Step(s, CancelCall), es);
  }

  /** From any point of a cancellation there is a run in which it returns. */
  lemma {:induction false} CancelReturns(s: Stage) returns (es: seq<Event>)
    requires Inv(s) && s.ctl.Canceling? && !s.ctl.failed
    ensures FirstFree(s, es).ctl.Free?
    decreases s.ctl.upto - s.ctl.i, if s.ctl.i < s.ctl.upto && !LockFree(s, s.ctl.i) then 1 else 0
  {
    var i := s.ctl.i;
    var e := if i == s.ctl.upto then CancelDone else if LockFree(s, i) then CancelOne else FinishFinalize(i);
    StepKeeps(s, e);
    var rest := [];
    if i < s.ctl.upto {
      rest := CancelReturns(Step(s, e));
    }
    es := [e] + rest;
    assert es[1..] == rest;
  }

  // Since the stage was started nobody has been asked to cancel.
  predicate Unasked(s: Stage) {
    && !s.ctl.Canceling? && (s.ctl.Waiting? ==> !s.ctl.failed) && s.status != Canceled
    && forall i :: 0 <= i < |s.threads| && i < Begun(s) ==> !s.threads[i].cancelRequested
  }

  // The steps that ask workers to cancel.
  predicate Asks(e: Event) {
    e == CancelCall || e == ShutdownCall(Level.RightNow) || e == Spawn(false)
  }

  lemma NobodyCanceled(s: Stage)
    requires Inv(s) && Unasked(s)
    ensures forall i :: 0 <= i < |s.threads| ==> !s.threads[i].wasCanceled
  {
    assert forall i :: 0 <= i < |s.threads| ==> ThreadOk(s, i);
  }

  lemma UnaskedStep(s: Stage, e: Event)
    requires Inv(s) && Unasked(s) && !Asks(e)
    ensures Unasked(Step(s, e))
  {
    NobodyCanceled(s);
    if e.WaitDone? && Enabled(s, e) {
      AllCounted(s);
    }
  }

  lemma {:induction false} UnaskedRun(s: Stage, es: seq<Event>)
    requires Inv(s) && Unasked(s) && forall e :: e in es ==> !Asks(e)
    ensures Unasked(Run(s, es)) && Inv(Run(s, es))
    decreases |es|
  {
    if es == [] {
    } else {
      assert es[0] in es;
      StepKeeps(s, es[0]);
      UnaskedStep(s, es[0]);
      UnaskedRun(Step(s, es[0]), es[1..]);
    }
  }

  /**
   * A start, the first one or one after a start that failed, leaves no old request behind: unless a new
   * cancellation or immediate shutdown is called for, or the start itself fails, no worker is canceled, and
   * when all have ended the stage is shut down, not canceled.
   */
  lemma NobodyCanceledUnasked(s: Stage, es: seq<Event>)
    requires Inv(s) && Enabled(s, StartCall) && forall e :: e in es ==> !Asks(e)
    ensures var t := Run(Step(s, StartCall), es);
      t.status != Canceled && forall i :: 0 <= i < |t.threads| ==> !t.threads[i].wasCanceled
  {
    StepKeeps(s, StartCall);
    UnaskedRun(Step(s, StartCall), es);
    NobodyCanceled(Run(Step(s, StartCall), es));
  }

  // ---------------------------------------------------------------- starting again after a start that failed

  // A worker that makes its first test now goes on.
  predicate IsOpen(s: Stage) {
    s.doLoop && s.level == Level.Unknown
  }

  // The calls that write what the loops read, or end the stage.
  predicate Touches(s: Stage, e: Event) {
    Enabled(s, e) && (e.ShutdownCall? || e.CancelDone? || (e.WaitDone? && !s.ctl.failed))
  }

  predicate Untouched(s: Stage, es: seq<Event>)
    decreases |es|
  {
    es == [] || (!Touches(s, es[0]) && Untouched(Step(s, es[0]), es[1..]))
  }

  // A shutdown with the level UNKNOWN is requested before any cancellation, and nothing touches the flags after it.
  predicate Reopened(s: Stage, es: seq<Event>)
    decreases |es|
  {
    && es != []
    && ((es[0] == ShutdownCall(Level.Unknown) && Enabled(s, es[0]) && s.doLoop && Untouched(Step(s, es[0]), es[1..]))
        || Reopened(Step(s, es[0]), es[1..]))
  }

  // Nothing resets the level of a stage that has to be started again.
  predicate Spoiled(s: Stage) {
    s.status == Initialized ==> s.level == Level.RightNow
  }

  lemma SpoiledStep(s: Stage, e: Event)
    requires Spoiled(s)
    ensures Spoiled(Step(s, e))
    ensures IsOpen(Step(s, e)) <==>
      (IsOpen(s) && !Touches(s, e)) || (e == ShutdownCall(Level.Unknown) && Enabled(s, e) && s.doLoop)
  {}

  lemma {:induction false} OpenExactly(s: Stage, es: seq<Event>)
    requires Spoiled(s)
    ensures IsOpen(Run(s, es)) <==> (IsOpen(s) && Untouched(s, es)) || Reopened(s, es)
    decreases |es|
  {
    if es == [] {
    } else {
      SpoiledStep(s, es[0]);
      OpenExactly(Step(s, es[0]), es[1..]);
    }
  }

  /** The first test of a worker's loop lets it go on exactly if there was no cancellation and no shutdown level. */
  lemma FirstTestExactly(s: Stage, i: nat, body: Body, env: seq<Flags>)
    requires Enabled(s, FirstTest(i)) && env != [] && env[0].doLoop == s.doLoop && env[0].level == s.level
    ensures Step(s, FirstTest(i)).threads[i].first == WentOn <==> IsOpen(s)
    ensures Step(s, FirstTest(i)).threads[i].first == LeftAtOnce ==> Loop(body, 0, env, []) == Outcome(true, 0, [])
  {}

  /**
   * The cleanup after a start that failed leaves the level of an immediate shutdown behind. A worker of a
   * later start, whenever it makes its first test, leaves its loop without calling anything, unless a
   * shutdown with the level UNKNOWN was the last call to touch what the loops read; then it goes on.
   */
  lemma {:induction false} AfterFailedStartExactly(n: nat, es: seq<Event>, fs: seq<Event>, i: nat, body: Body,
                                                   env: seq<Flags>)
    requires var s := Run(Init(n), es); s.ctl.Waiting? && s.ctl.failed
    requires var t := Run(Run(Init(n), es), fs);
      Enabled(t, FirstTest(i)) && env != [] && env[0].doLoop == t.doLoop && env[0].level == t.level
    ensures var s := Run(Init(n), es); var first := Step(Run(s, fs), FirstTest(i)).threads[i].first;
      && (first == WentOn <==> Reopened(s, fs))
      && (first == LeftAtOnce <==> !Reopened(s, fs))
      && (first == LeftAtOnce ==> Loop(body, 0, env, []) == Outcome(true, 0, []))
  {
    var s := Run(Init(n), es);
    InitInv(n);
    RunKeeps(Init(n), es);
    OpenExactly(s, fs);
    FirstTestExactly(Run(s, fs), i, body, env);
  }

  lemma {:induction false} RunConcat(s: Stage, es: seq<Event>, fs: seq<Event>)
    ensures Run(s, es + fs) == Run(Run(s, es), fs)
    decreases |es|
  {
    if es == [] {
      assert es + fs == fs;
    } else {
      assert (es + fs)[1..] == es[1..] + fs;
      RunConcat(Step(s, es[0]), es[1..], fs);
    }
  }

  // A run of one event after another.
  lemma RunThen(s: Stage, es: seq<Event>, t: Stage, e: Event)
    requires Run(s, es) == t
    ensures Run(s, es + [e]) == Step(t, e)
  {
    RunConcat(s, es, [e]);
    assert [e][1..] == [];
  }

  // The first start fails at its first thread and is cleaned up.
  lemma FailedStart(n: nat) returns (es: seq<Event>, s: Stage)
    requires n > 0
    ensures s == Run(Init(n), es) && s == Init(n).(level := Level.RightNow)
  {
    var s0 := Init(n);
    var s1 := s0.(ctl := Starting(0), doLoop := true);
    var s2 := s1.(ctl := Canceling(0, 1, true));
    var s3 := s2.(ctl := Canceling(1, 1, true));
    var s4 := s3.(level := Level.RightNow, doLoop := false, ctl := Waiting(0, 1, true, false));
    var s5 := s4.(ctl := Waiting(1, 1, true, false));
    assert Step(s0, StartCall) == s1 by { assert Uncounted(s0).threads == s0.threads; }
    RunThen(s0, [], s0, StartCall);
    RunThen(s0, [] + [StartCall], s1, Spawn(false));
    RunThen(s0, [] + [StartCall] + [Spawn(false)], s2, CancelOne);
    RunThen(s0, [] + [StartCall] + [Spawn(false)] + [CancelOne], s3, CancelDone);
    RunThen(s0, [] + [StartCall] + [Spawn(false)] + [CancelOne] + [CancelDone], s4, WaitLook);
    es := [] + [StartCall] + [Spawn(false)] + [CancelOne] + [CancelDone] + [WaitLook];
    s := s0.(level := Level.RightNow);
    assert Step(s5, WaitDone) == s by { assert Uncounted(s5).threads == s0.threads; }
    RunThen(s0, es, s5, WaitDone);
    es := es + [WaitDone];
  }

  const RUNNING_THREAD := Thread(Running, true, true, false, false, false, false, NotYet)

  // The stage after a start that failed and a second one that has come to thread k.
  function SecondStart(n: nat, k: nat): Stage {
    Init(n).(level := Level.RightNow, doLoop := true, ctl := Starting(k),
             threads := seq(n, i => if i < k then RUNNING_THREAD else NEW_THREAD))
  }

  // Starting one thread.
  lemma StartOne(n: nat, k: nat, es: seq<Event>)
    requires k < n && Run(Init(n), es) == SecondStart(n, k)
    ensures Run(Init(n), es + [Spawn(true)] + [Enter(k)] + [StartupLook]) == SecondStart(n, k + 1)
  {
    var s := SecondStart(n, k);
    var s1 := With(s, k, NEW_THREAD.(phase := Spawned)).(ctl := AwaitStartup(k, false));
    var s2 := With(s1, k, RUNNING_THREAD);
    RunThen(Init(n), es, s, Spawn(true));
    RunThen(Init(n), es + [Spawn(true)], s1, Enter(k));
    RunThen(Init(n), es + [Spawn(true)] + [Enter(k)], s2, StartupLook);
    assert s2.threads == SecondStart(n, k + 1).threads;
  }

  lemma {:induction false} StartUpTo(n: nat, k: nat) returns (es: seq<Event>)
    requires 0 < n && k <= n
    ensures Run(Init(n), es) == SecondStart(n, k)
  {
    if k == 0 {
      var s;
      es, s := FailedStart(n);
      assert Uncounted(s).threads == SecondStart(n, 0).threads;
      RunThen(Init(n), es, s, StartCall);
      es := es + [StartCall];
    } else {
      es := StartUpTo(n, k - 1);
      StartOne(n, k - 1, es);
      es := es + [Spawn(true)] + [Enter(k - 1)] + [StartupLook];
    }
  }

  /**
   * For any number of workers there is a run in which a start fails and the next one succeeds; its workers
   * then leave at once, but would go on after a shutdown with the level UNKNOWN.
   */
  lemma SecondStartIdles(n: nat) returns (es: seq<Event>)
    requires n > 0
    ensures var s := Run(Init(n), es);
      && s.status == Started && s.ctl == Free && s.level == Level.RightNow
      && forall i :: 0 <= i < n ==>
           && Step(s, FirstTest(i)).threads[i].first == LeftAtOnce
           && Step(Step(s, ShutdownCall(Level.Unknown)), FirstTest(i)).threads[i].first == WentOn
  {
    es := StartUpTo(n, n);
    RunThen(Init(n), es, SecondStart(n, n), StartDone);
    es := es + [StartDone];
  }
}
