/**
 * Pausing, resuming and shutting down a pipeline stage, as atomic steps of its controlling threads (one at
 * a time: the holder of the stage lock) and of any number of workers. A critical section under the pause
 * lock is one step; waking up without a reason and timing out are steps, too.
 */
module PauseProtocol {

  datatype Status = Initialized | Started | Paused | Shutdown

  /** Where a worker is: in its loop, on its way into the barrier, behind the barrier, or gone. */
  datatype Pc =
    | Unborn
    | Top | Check | Fetching | Running | Throwing
    | Joining | AtBarrier
    | Leading | Past | Asleep | Awake
    | Done

  datatype Worker = Worker(pc: Pc, st: int)

  /** What the holder of the stage lock is doing; Free means nobody holds it. */
  datatype Ctl =
    | Free
    | Starting(next: nat)
    | PauseChecked | PauseWaiting | PauseWoken
    | ResumeChecked | ResumeCleared
    | ShutdownChecked | ShutdownResumes | ShutdownCleared | LevelPending
    | Waiting

  datatype Stage = Stage(status: Status, pauseRequested: bool, doLoop: bool, graceful: bool,
                         workers: seq<Worker>, hasFetch: bool, hasThrow: bool, ctl: Ctl,
                         rounds: nat,      // barrier rounds completed
                         announced: nat)   // times the status was set to Paused

  datatype Event =
    | StartCall | StartWorker | StartDone
    | PauseCall | PauseRequest | PauseWake | PauseRecheck | PauseTimeout
    | ResumeCall | ResumeClear | ResumeDone
    | ShutdownCall | ShutdownLook | ShutdownClear | ShutdownRestart | ShutdownLevel
    | WaitCall | WaitDone
    | LoopTest(i: nat) | FlagTest(i: nat) | Return(i: nat, value: int)
    | Arrive(i: nat) | Release(i: nat) | Lead(i: nat) | Pass(i: nat) | Wake(i: nat) | Recheck(i: nat)

  predicate InLoop(pc: Pc) {
    pc == Top || pc == Check || pc == Fetching || pc == Running || pc == Throwing
  }

  predicate Entering(pc: Pc) {
    pc == Joining || pc == AtBarrier
  }

  predicate Behind(pc: Pc) {
    pc == Leading || pc == Past || pc == Asleep || pc == Awake
  }

  predicate All(ws: seq<Worker>, pc: Pc) {
    forall i :: 0 <= i < |ws| ==> ws[i].pc == pc
  }

  predicate AllBehind(ws: seq<Worker>) {
    forall i :: 0 <= i < |ws| ==> Behind(ws[i].pc)
  }

  predicate Some(ws: seq<Worker>, pc: Pc) {
    exists i :: 0 <= i < |ws| && ws[i].pc == pc
  }

  // Broadcasting the resume condition.
  function Broadcast(ws: seq<Worker>): seq<Worker> {
    seq(|ws|, i requires 0 <= i < |ws| => if ws[i].pc == Asleep then ws[i].(pc := Awake) else ws[i])
  }

  // Completing a barrier round; worker m is told that it is the serial thread.
  function Released(ws: seq<Worker>, m: nat): seq<Worker> {
    seq(|ws|, i requires 0 <= i < |ws| => ws[i].(pc := if i == m then Leading else Past))
  }

  function Move(s: Stage, i: nat, pc: Pc): Stage
    requires i < |s.workers|
  {
    s.(workers := s.workers[i := s.workers[i].(pc := pc)])
  }

  predicate At(s: Stage, i: nat, pc: Pc) {
    i < |s.workers| && s.workers[i].pc == pc
  }

  predicate Enabled(s: Stage, e: Event) {
    match e
    case StartCall => s.ctl == Free && s.status == Initialized
    case StartWorker => s.ctl.Starting? && s.ctl.next < |s.workers|
    case StartDone => s.ctl.Starting? && s.ctl.next == |s.workers|
    case PauseCall => s.ctl == Free && s.status == Started
    case PauseRequest => s.ctl == PauseChecked
    case PauseWake => s.ctl == PauseWaiting
    case PauseRecheck => s.ctl == PauseWoken
    case PauseTimeout => s.ctl == PauseWaiting || s.ctl == PauseWoken
    case ResumeCall => s.ctl == Free && s.status == Paused
    case ResumeClear => s.ctl == ResumeChecked
    case ResumeDone => s.ctl == ResumeCleared
    case ShutdownCall => s.ctl == Free && (s.status == Started || s.status == Paused)
    case ShutdownLook => s.ctl == ShutdownChecked
    case ShutdownClear => s.ctl == ShutdownResumes
    case ShutdownRestart => s.ctl == ShutdownCleared
    case ShutdownLevel => s.ctl == LevelPending
    case WaitCall => s.ctl == Free && s.status == Started
    case WaitDone => s.ctl == Waiting && All(s.workers, Done)
    case LoopTest(i) => At(s, i, Top)
    case FlagTest(i) => At(s, i, Check)
    case Return(i, _) => At(s, i, Fetching) || At(s, i, Running) || At(s, i, Throwing)
    case Arrive(i) => At(s, i, Joining)
    case Release(i) => i < |s.workers| && All(s.workers, AtBarrier)
    case Lead(i) => At(s, i, Leading)
    case Pass(i) => At(s, i, Past)
    case Wake(i) => At(s, i, Asleep)
    case Recheck(i) => At(s, i, Awake)
  }

  // The pauser sleeps unless the stage is paused already.
  function AwaitPaused(s: Stage): Stage {
    s.(ctl := if s.status != Paused then PauseWaiting else Free)
  }

  // Worker i sleeps as long as the pause is requested and goes back to its loop otherwise.
  function AwaitResume(s: Stage, i: nat): Stage
    requires i < |s.workers|
  {
    Move(s, i, if s.pauseRequested then Asleep else Top)
  }

  // Where a worker goes when the procedure it called has returned `value`.
  function AfterReturn(s: Stage, pc: Pc, value: int): Pc {
    if value < 0 then Done
    else if value > 0 && pc == Fetching then Running
    else if value > 0 && pc == Running && s.hasThrow then Throwing
    else Top
  }

  // What never changes, and the shutdown level, which never goes back.
  predicate SameSetup(s: Stage, s': Stage) {
    && |s'.workers| == |s.workers| && s'.hasFetch == s.hasFetch && s'.hasThrow == s.hasThrow
    && (s.graceful ==> s'.graceful)
  }

  function ControlStep(s: Stage, e: Event): (s': Stage)
    requires Enabled(s, e)
    ensures SameSetup(s, s')
  {
    match e
    case StartCall => s.(ctl := Starting(0), doLoop := true)
    case StartWorker => Move(s, s.ctl.next, Top).(ctl := Starting(s.ctl.next + 1))
    case StartDone => s.(status := Started, ctl := Free)
    case PauseCall => s.(ctl := PauseChecked)
    case PauseRequest => AwaitPaused(s.(pauseRequested := true))
    case PauseWake => s.(ctl := PauseWoken)
    case PauseRecheck => AwaitPaused(s)
    case PauseTimeout => s.(ctl := Free)
    case ResumeCall => s.(ctl := ResumeChecked)
    case ResumeClear => s.(pauseRequested := false, workers := Broadcast(s.workers), ctl := ResumeCleared)
    case ResumeDone => s.(status := Started, ctl := Free)
    case ShutdownCall => s.(ctl := ShutdownChecked)
    case ShutdownLook => s.(ctl := if s.status == Paused then ShutdownResumes else LevelPending)
    case ShutdownClear => s.(pauseRequested := false, workers := Broadcast(s.workers), ctl := ShutdownCleared)
    case ShutdownRestart => s.(status := Started, ctl := LevelPending)
    case ShutdownLevel => s.(graceful := true, ctl := Free)
    case WaitCall => s.(ctl := Waiting)
    case WaitDone => s.(status := Shutdown, doLoop := false, ctl := Free)
    case _ => s
  }

  function WorkerStep(s: Stage, e: Event): (s': Stage)
    requires Enabled(s, e)
    ensures SameSetup(s, s')
  {
    match e
    case LoopTest(i) =>
      var st := s.workers[i].st;
      Move(s, i, if s.doLoop && (st > 0 || (st == 0 && !s.graceful)) then Check else Done)
    case FlagTest(i) => Move(s, i, if s.pauseRequested then Joining else if s.hasFetch then Fetching else Running)
    case Return(i, v) => s.(workers := s.workers[i := Worker(AfterReturn(s, s.workers[i].pc, v), v)])
    case Arrive(i) => Move(s, i, AtBarrier)
    case Release(i) => s.(workers := Released(s.workers, i), rounds := s.rounds + 1)
    case Lead(i) =>
      AwaitResume(s.(status := Paused, announced := s.announced + 1,
                     ctl := if s.ctl == PauseWaiting then PauseWoken else s.ctl), i)
    case Pass(i) => AwaitResume(s, i)
    case Wake(i) => Move(s, i, Awake)
    case Recheck(i) => AwaitResume(s, i)
    case _ => s
  }

  predicate IsWorkerEvent(e: Event) {
    e.LoopTest? || e.FlagTest? || e.Return? || e.Arrive? || e.Release? || e.Lead? || e.Pass? || e.Wake? || e.Recheck?
  }

  // One step of the protocol; an event that cannot happen now changes nothing.
  function Step(s: Stage, e: Event): (s': Stage)
    ensures SameSetup(s, s')
  {
    if !Enabled(s, e) then s else if IsWorkerEvent(e) then WorkerStep(s, e) else ControlStep(s, e)
  }

  // A run is any sequence of events whatsoever.
  function Run(s: Stage, es: seq<Event>): (s': Stage)
    ensures SameSetup(s, s')
    decreases |es|
  {
    if es == [] then s else Run(Step(s, es[0]), es[1..])
  }

  function Init(n: nat, hasFetch: bool, hasThrow: bool): Stage {
    Stage(Initialized, false, false, false, seq(n, _ => Worker(Unborn, 0)), hasFetch, hasThrow, Free, 0, 0)
  }

  // ---------------------------------------------------------------- what every step keeps

  // The flag and the status, as the holder of the stage lock may rely on them.
  predicate ControlInv(s: Stage) {
    match s.ctl
    case Free =>
      && (s.status == Paused ==> s.pauseRequested) && (s.status == Initialized ==> !s.pauseRequested)
      && (s.status == Shutdown ==> !s.doLoop)
    case Starting(n) => s.status == Initialized && !s.pauseRequested && s.doLoop && n <= |s.workers|
    case PauseWaiting => s.status == Started && s.pauseRequested
    case PauseWoken => (s.status == Started || s.status == Paused) && s.pauseRequested
    case ResumeChecked => s.status == Paused && s.pauseRequested
    case ShutdownResumes => s.status == Paused && s.pauseRequested
    case ResumeCleared => s.status == Paused && !s.pauseRequested
    case ShutdownCleared => s.status == Paused && !s.pauseRequested
    case _ => s.status == Started || (s.status == Paused && s.pauseRequested)
  }

  // What holds of worker i, wherever it is.
  predicate WorkerOk(s: Stage, i: nat)
    requires i < |s.workers|
  {
    var pc := s.workers[i].pc;
    && (Entering(pc) || pc == Leading ==> s.pauseRequested && s.status == Started)
    && (pc == Asleep ==> s.pauseRequested)
    && (s.status == Paused && s.pauseRequested ==> Behind(pc) && pc != Leading)
    && (if s.ctl.Starting? then pc == Unborn <==> i >= s.ctl.next else pc == Unborn <==> s.status == Initialized)
    && (s.status == Shutdown ==> pc == Done)
    && (pc != Unborn && pc != Done ==> s.doLoop)
    && CountOk(s, s.workers[i])
  }

  // The state of a worker's loop: it has left only for a failure or a shutdown, and it calls main and throw
  // only for what fetch and main delivered.
  predicate CountOk(s: Stage, w: Worker) {
    && (w.pc == Done ==> w.st < 0 || (w.st == 0 && s.graceful))
    && (w.pc != Done ==> w.st >= 0)
    && ((w.pc == Running && s.hasFetch) || w.pc == Throwing ==> w.st > 0)
  }

  predicate WorkersInv(s: Stage) {
    forall i {:trigger s.workers[i]} :: 0 <= i < |s.workers| ==> WorkerOk(s, i)
  }

  predicate OneLeader(ws: seq<Worker>) {
    forall i, j :: 0 <= i < j < |ws| ==> !(ws[i].pc == Leading && ws[j].pc == Leading)
  }

  // Between completing a barrier round and announcing it, nobody leaves.
  predicate RoundsInv(s: Stage) {
    && OneLeader(s.workers) && (Some(s.workers, Leading) ==> AllBehind(s.workers))
    && s.rounds == s.announced + if Some(s.workers, Leading) then 1 else 0
  }

  predicate Inv(s: Stage) {
    |s.workers| > 0 && ControlInv(s) && WorkersInv(s) && RoundsInv(s)
  }

  lemma ControlKeepsControl(s: Stage, e: Event)
    requires Inv(s) && !IsWorkerEvent(e)
    ensures ControlInv(Step(s, e))
  {}

  // Broadcasting moves no worker that leads, and none past the barrier to before it.
  lemma BroadcastKeepsRounds(s: Stage)
    requires RoundsInv(s)
    ensures RoundsInv(s.(workers := Broadcast(s.workers)))
  {
    var ws := Broadcast(s.workers);
    assert forall j :: 0 <= j < |ws| ==> (ws[j].pc == Leading <==> s.workers[j].pc == Leading);
  }

  lemma ControlKeepsRounds(s: Stage, e: Event)
    requires Inv(s) && !IsWorkerEvent(e) && Enabled(s, e)
    ensures RoundsInv(Step(s, e))
  {
    if Clears(e) {
      BroadcastKeepsRounds(s);
    } else if e.StartWorker? {
      var i := s.ctl.next;
      assert WorkerOk(s, i);
      MoveKeepsRounds(s, i, s.workers[i].(pc := Top));
    }
  }

  predicate Clears(e: Event) {
    e.ResumeClear? || e.ShutdownClear?
  }

  lemma StartingKeepsWorker(s: Stage, e: Event, j: nat)
    requires Inv(s) && (e.StartCall? || e.StartWorker? || e.StartDone? || Clears(e)) && j < |s.workers|
    ensures WorkerOk(Step(s, e), j)
  {
    assert WorkerOk(s, j);
  }

  // The other steps of the controlling threads do not touch the workers.
  lemma ControlKeepsWorker(s: Stage, e: Event, j: nat)
    requires Inv(s) && !IsWorkerEvent(e) && j < |s.workers|
    ensures WorkerOk(Step(s, e), j)
  {
    if e.StartCall? || e.StartWorker? || e.StartDone? || Clears(e) {
      StartingKeepsWorker(s, e, j);
    } else {
      assert WorkerOk(s, j);
      assert Step(s, e).workers == s.workers;
    }
  }

  // Most steps of a worker change nothing but that worker.
  lemma OwnStep(s: Stage, e: Event) returns (w: Worker)
    requires Inv(s) && IsWorkerEvent(e) && Enabled(s, e) && !e.Release? && !e.Lead?
    ensures Step(s, e) == s.(workers := s.workers[e.i := w]) && WorkerOk(Step(s, e), e.i) && w.pc != Leading
    ensures s.workers[e.i].pc != Leading && (s.pauseRequested && Behind(s.workers[e.i].pc) ==> Behind(w.pc))
  {
    assert WorkerOk(s, e.i);
    w := WorkerStep(s, e).workers[e.i];
  }

  // Moving a worker that does not lead keeps what is known about rounds.
  lemma MoveKeepsRounds(s: Stage, i: nat, w: Worker)
    requires RoundsInv(s) && i < |s.workers| && s.workers[i].pc != Leading && w.pc != Leading
    requires AllBehind(s.workers) && Some(s.workers, Leading) ==> Behind(w.pc)
    ensures RoundsInv(s.(workers := s.workers[i := w]))
  {
    var ws := s.workers[i := w];
    assert forall j :: 0 <= j < |ws| ==> (ws[j].pc == Leading <==> s.workers[j].pc == Leading);
  }

  lemma LeadKeepsRounds(s: Stage, i: nat)
    requires Inv(s) && At(s, i, Leading)
    ensures RoundsInv(Step(s, Lead(i)))
  {
    assert s.workers[i].pc == Leading && !Some(Step(s, Lead(i)).workers, Leading);
  }

  lemma ReleaseKeepsRounds(s: Stage, i: nat)
    requires Inv(s) && Enabled(s, Release(i))
    ensures RoundsInv(Step(s, Release(i)))
  {
    assert Step(s, Release(i)).workers[i].pc == Leading && s.workers[0].pc == AtBarrier;
  }

  lemma WorkerKeepsRounds(s: Stage, e: Event)
    requires Inv(s) && IsWorkerEvent(e) && Enabled(s, e)
    ensures RoundsInv(Step(s, e))
  {
    if e.Release? {
      ReleaseKeepsRounds(s, e.i);
    } else if e.Lead? {
      LeadKeepsRounds(s, e.i);
    } else {
      var w := OwnStep(s, e);
      if Some(s.workers, Leading) {
        var j :| 0 <= j < |s.workers| && s.workers[j].pc == Leading;
        assert WorkerOk(s, j);
      }
      MoveKeepsRounds(s, e.i, w);
    }
  }

  lemma WorkerKeepsControl(s: Stage, e: Event)
    requires Inv(s) && IsWorkerEvent(e)
    ensures ControlInv(Step(s, e))
  {
    if Enabled(s, e) && (e.Lead? || e.Release?) {
      assert WorkerOk(s, e.i);
    } else if Enabled(s, e) {
      var w := OwnStep(s, e);
    }
  }

  lemma OthersKeep(s: Stage, i: nat, w: Worker, j: nat)
    requires i < |s.workers| && j < |s.workers| && j != i && WorkerOk(s, j)
    ensures WorkerOk(s.(workers := s.workers[i := w]), j)
  {}

  lemma LeadKeeps(s: Stage, i: nat, j: nat)
    requires Inv(s) && At(s, i, Leading) && j < |s.workers|
    ensures WorkerOk(Step(s, Lead(i)), j)
  {
    assert WorkerOk(s, i) && WorkerOk(s, j);
    assert Some(s.workers, Leading);
    assert s.workers[j].pc == Leading ==> j == i;
  }

  lemma ReleaseKeeps(s: Stage, i: nat, j: nat)
    requires Inv(s) && Enabled(s, Release(i)) && j < |s.workers|
    ensures WorkerOk(Step(s, Release(i)), j)
  {
    assert WorkerOk(s, i) && WorkerOk(s, j);
  }

  lemma WorkerKeepsWorker(s: Stage, e: Event, j: nat)
    requires Inv(s) && IsWorkerEvent(e) && Enabled(s, e) && j < |s.workers|
    ensures j < |Step(s, e).workers| && WorkerOk(Step(s, e), j)
  {
    assert WorkerOk(s, j);
    if e.Lead? {
      LeadKeeps(s, e.i, j);
    } else if e.Release? {
      ReleaseKeeps(s, e.i, j);
    } else {
      var w := OwnStep(s, e);
      if j != e.i {
        OthersKeep(s, e.i, w, j);
      }
    }
  }

  lemma StepKeeps(s: Stage, e: Event)
    requires Inv(s)
    ensures Inv(Step(s, e))
  {
    if Enabled(s, e) {
      if IsWorkerEvent(e) {
        WorkerKeepsRounds(s, e);
        WorkerKeepsControl(s, e);
      } else {
        ControlKeepsRounds(s, e);
        ControlKeepsControl(s, e);
      }
      forall j | 0 <= j < |s.workers|
        ensures WorkerOk(Step(s, e), j)
      {
        if IsWorkerEvent(e) {
          WorkerKeepsWorker(s, e, j);
        } else {
          ControlKeepsWorker(s, e, j);
        }
      }
    }
  }

  lemma InitInv(n: nat, hasFetch: bool, hasThrow: bool)
    requires n > 0
    ensures Inv(Init(n, hasFetch, hasThrow))
  {
    forall i | 0 <= i < n
      ensures WorkerOk(Init(n, hasFetch, hasThrow), i)
    {}
  }

  lemma {:induction false} RunKeeps(s: Stage, es: seq<Event>)
    requires Inv(s)
    ensures Inv(Run(s, es))
    decreases |es|
  {
    if es == [] {
    } else {
      StepKeeps(s, es[0]);
      RunKeeps(Step(s, es[0]), es[1..]);
    }
  }
}
