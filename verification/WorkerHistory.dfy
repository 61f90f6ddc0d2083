/** Each worker of the pause protocol runs the worker loop: what it reads and calls, followed through a run. */
module WorkerHistories {
  import opened ShutdownLevels
  import opened PauseProtocol
  import opened WorkerLoop

  /** What a worker has read and called; `open` marks a reading whose request flag has not been tested yet. */
  datatype History = History(env: seq<Flags>, open: bool, start: Log, log: Log)

  const NOTHING := History([], false, [], [])

  // Step e as seen by worker i: it reads the loop flag and the level, then the request flag, and it calls
  // its procedures with what it was granted before.
  function Noted(s: Stage, e: Event, i: nat, h: History, max: int): History
    requires i < |s.workers|
  {
    if !Enabled(s, e) then h
    else match e
      case LoopTest(j) =>
        if j != i then h
        else h.(env := h.env + [Flags(s.doLoop, if s.graceful then Gracefully else Unknown, false)], open := true)
      case FlagTest(j) =>
        if j != i || h.env == [] then h
        else if s.pauseRequested then
          var last := |h.env| - 1;
          h.(env := h.env[last := h.env[last].(pauseRequested := true)], open := false, log := h.log + [Pause])
        else h.(open := false, start := h.log)
      case Return(j, v) => if j != i then h else h.(log := h.log + [Called(s, s.workers[i], v, max)])
      case _ => h
  }

  // The call of a worker that returns v.
  function Called(s: Stage, w: Worker, v: int, max: int): Act {
    if w.pc == Fetching then Fetch(max, v)
    else if w.pc == Running then Main(if s.hasFetch then w.st else max, v)
    else Throw(w.st, v)
  }

  function Followed(s: Stage, es: seq<Event>, i: nat, h: History, max: int): History
    requires i < |s.workers|
    decreases |es|
  {
    if es == [] then h else Followed(Step(s, es[0]), es[1..], i, Noted(s, es[0], i, h, max), max)
  }

  // ---------------------------------------------------------------- a worker and its loop

  function LoopOf(p: Procs, max: int, s: Stage, env: seq<Flags>): Outcome {
    Loop(BodyOf(p, max, s.hasFetch, s.hasThrow), 0, env, [])
  }

  // The loop has come to the last reading, and goes on after it with the log `start`.
  predicate Begun(p: Procs, max: int, s: Stage, h: History, st: int, start: Log) {
    && h.env != []
    && var last := |h.env| - 1;
      && LoopOf(p, max, s, h.env[..last]) == Outcome(false, st, start)
      && h.env[last].doLoop && (st > 0 || (st == 0 && h.env[last].level == Unknown)) && !h.env[last].pauseRequested
  }

  // The same for an iteration that has called something since.
  predicate Underway(p: Procs, max: int, s: Stage, h: History) {
    !h.open && h.env != [] && Begun(p, max, s, h, LoopOf(p, max, s, h.env[..|h.env| - 1]).st, h.start)
  }

  // What main is called with.
  function Granted(p: Procs, max: int, s: Stage, start: Log): (Log, int) {
    if s.hasFetch then (start + [Fetch(max, p.fetch(start))], p.fetch(start)) else (start, max)
  }

  predicate Follows(p: Procs, max: int, s: Stage, i: nat, h: History)
    requires i < |s.workers|
  {
    var w := s.workers[i];
    match w.pc
    case Unborn => w.st == 0 && h == NOTHING
    case Done => LoopOf(p, max, s, h.env) == Outcome(true, w.st, h.log)
    case Check => h.open && Begun(p, max, s, h, w.st, h.log)
    case Fetching => Underway(p, max, s, h) && s.hasFetch && h.log == h.start
    case Running =>
      Underway(p, max, s, h) && h.log == Granted(p, max, s, h.start).0
      && (s.hasFetch ==> w.st == Granted(p, max, s, h.start).1 > 0)
    case Throwing =>
      var (log, n) := Granted(p, max, s, h.start);
      && Underway(p, max, s, h) && s.hasThrow && (s.hasFetch ==> n > 0)
      && w.st == p.main(log, n) > 0 && h.log == log + [Main(n, w.st)]
    case _ => !h.open && LoopOf(p, max, s, h.env) == Outcome(false, w.st, h.log)
  }

  // Another reading of the flags.
  lemma ReadFlags(p: Procs, max: int, s: Stage, i: nat, h: History)
    requires Inv(s) && i < |s.workers| && Enabled(s, LoopTest(i)) && Follows(p, max, s, i, h)
    ensures Follows(p, max, Step(s, LoopTest(i)), i, Noted(s, LoopTest(i), i, h, max))
  {
    assert WorkerOk(s, i);
    var f := Flags(s.doLoop, if s.graceful then Gracefully else Unknown, false);
    OneReadingMore(BodyOf(p, max, s.hasFetch, s.hasThrow), 0, h.env, [], f);
    assert (h.env + [f])[..|h.env|] == h.env;
  }

  lemma ReadRequest(p: Procs, max: int, s: Stage, i: nat, h: History)
    requires i < |s.workers| && Enabled(s, FlagTest(i)) && Follows(p, max, s, i, h)
    ensures Follows(p, max, Step(s, FlagTest(i)), i, Noted(s, FlagTest(i), i, h, max))
  {
    var last := |h.env| - 1;
    var f := h.env[last].(pauseRequested := true);
    OneReadingMore(BodyOf(p, max, s.hasFetch, s.hasThrow), 0, h.env[..last], [], f);
    assert h.env[last := f] == h.env[..last] + [f];
  }

  // The end of an iteration.
  lemma IterationEnds(p: Procs, max: int, s: Stage, h: History, st: int, log: Log)
    requires Underway(p, max, s, h) && Iteration(p, max, h.start, s.hasFetch, s.hasThrow) == (st, log)
    ensures LoopOf(p, max, s, h.env) == Outcome(st < 0, st, log)
  {
    var last := |h.env| - 1;
    OneReadingMore(BodyOf(p, max, s.hasFetch, s.hasThrow), 0, h.env[..last], [], h.env[last]);
    assert h.env == h.env[..last] + [h.env[last]];
  }

  lemma FetchReturns(p: Procs, max: int, s: Stage, i: nat, v: int, h: History)
    requires i < |s.workers| && At(s, i, Fetching) && Follows(p, max, s, i, h) && v == p.fetch(h.log)
    ensures Follows(p, max, Step(s, Return(i, v)), i, h.(log := h.log + [Fetch(max, v)]))
  {
    if v <= 0 {
      IterationEnds(p, max, s, h, v, h.log + [Fetch(max, v)]);
    }
  }

  lemma MainReturns(p: Procs, max: int, s: Stage, i: nat, v: int, h: History)
    requires i < |s.workers| && At(s, i, PauseProtocol.Running) && Follows(p, max, s, i, h)
    requires v == p.main(h.log, Granted(p, max, s, h.start).1)
    ensures Follows(p, max, Step(s, Return(i, v)), i, h.(log := h.log + [Main(Granted(p, max, s, h.start).1, v)]))
  {
    if v <= 0 || !s.hasThrow {
      IterationEnds(p, max, s, h, v, h.log + [Main(Granted(p, max, s, h.start).1, v)]);
    }
  }

  lemma ThrowReturns(p: Procs, max: int, s: Stage, i: nat, v: int, h: History)
    requires i < |s.workers| && At(s, i, Throwing) && Follows(p, max, s, i, h) && v == p.throw(h.log, s.workers[i].st)
    ensures Follows(p, max, Step(s, Return(i, v)), i, h.(log := h.log + [Throw(s.workers[i].st, v)]))
  {
    IterationEnds(p, max, s, h, v, h.log + [Throw(s.workers[i].st, v)]);
  }

  lemma CallReturns(p: Procs, max: int, s: Stage, i: nat, v: int, h: History)
    requires i < |s.workers| && Enabled(s, Return(i, v)) && Follows(p, max, s, i, h)
    requires Recorded(p, max, h.log, Called(s, s.workers[i], v, max))
    ensures Follows(p, max, Step(s, Return(i, v)), i, Noted(s, Return(i, v), i, h, max))
  {
    if At(s, i, Fetching) {
      FetchReturns(p, max, s, i, v, h);
    } else if At(s, i, Throwing) {
      ThrowReturns(p, max, s, i, v, h);
    } else {
      MainReturns(p, max, s, i, v, h);
    }
  }

  // A worker between two iterations, at the barrier or not.
  predicate Between(pc: Pc) {
    pc == Top || Entering(pc) || Behind(pc)
  }

  predicate Own(s: Stage, e: Event, i: nat) {
    Enabled(s, e) && (e == LoopTest(i) || e == FlagTest(i) || (e.Return? && e.i == i))
  }

  // A worker that is where it was, or between two iterations as before.
  predicate StillThere(w: Worker, w': Worker) {
    w' == w || (w'.st == w.st && Between(w'.pc) && (Between(w.pc) || w.pc == Unborn))
  }

  lemma OtherControl(s: Stage, e: Event, i: nat)
    requires Inv(s) && i < |s.workers| && !IsWorkerEvent(e)
    ensures StillThere(s.workers[i], Step(s, e).workers[i])
  {
    assert WorkerOk(s, i);
  }

  // Most steps of a worker concern nobody else.
  lemma OtherWorker(s: Stage, e: Event, i: nat)
    requires i < |s.workers| && IsWorkerEvent(e) && !e.Release? && e.i != i
    ensures Step(s, e).workers[i] == s.workers[i]
  {}

  lemma OtherSteps(s: Stage, e: Event, i: nat)
    requires Inv(s) && i < |s.workers| && !Own(s, e, i)
    ensures StillThere(s.workers[i], Step(s, e).workers[i])
  {
    if !IsWorkerEvent(e) {
      OtherControl(s, e, i);
    } else if !e.Release? && e.i != i {
      OtherWorker(s, e, i);
    }
  }

  lemma StillFollows(p: Procs, max: int, s: Stage, s': Stage, i: nat, h: History)
    requires i < |s.workers| && SameSetup(s, s') && StillThere(s.workers[i], s'.workers[i])
    requires Follows(p, max, s, i, h)
    ensures Follows(p, max, s', i, h)
  {}

  lemma OtherFollows(p: Procs, max: int, s: Stage, e: Event, i: nat, h: History)
    requires Inv(s) && i < |s.workers| && !Own(s, e, i) && Follows(p, max, s, i, h)
    ensures Follows(p, max, Step(s, e), i, Noted(s, e, i, h, max))
  {
    OtherSteps(s, e, i);
    StillFollows(p, max, s, Step(s, e), i, h);
    assert Noted(s, e, i, h, max) == h;
  }

  lemma StepFollows(p: Procs, max: int, s: Stage, e: Event, i: nat, h: History)
    requires Inv(s) && i < |s.workers| && Follows(p, max, s, i, h) && Truthful(p, max, Noted(s, e, i, h, max).log)
    ensures Follows(p, max, Step(s, e), i, Noted(s, e, i, h, max))
  {
    if !Own(s, e, i) {
      OtherFollows(p, max, s, e, i, h);
    } else if e.LoopTest? {
      ReadFlags(p, max, s, i, h);
    } else if e.FlagTest? {
      ReadRequest(p, max, s, i, h);
    } else {
      var log := Noted(s, e, i, h, max).log;
      assert log[..|h.log|] == h.log && log[|h.log|] == Called(s, s.workers[i], e.value, max);
      CallReturns(p, max, s, i, e.value, h);
    }
  }

  lemma {:induction false} LogGrows(s: Stage, es: seq<Event>, i: nat, h: History, max: int)
    requires i < |s.workers|
    ensures h.log <= Followed(s, es, i, h, max).log
    decreases |es|
  {
    if es == [] {
    } else {
      LogGrows(Step(s, es[0]), es[1..], i, Noted(s, es[0], i, h, max), max);
    }
  }

  lemma TruthfulPrefix(p: Procs, max: int, log: Log, whole: Log)
    requires log <= whole && Truthful(p, max, whole)
    ensures Truthful(p, max, log)
  {
    assert forall k :: 0 <= k < |log| ==> log[..k] == whole[..k] && log[k] == whole[k];
  }

  lemma {:induction false} RunFollows(p: Procs, max: int, s: Stage, es: seq<Event>, i: nat, h: History)
    requires Inv(s) && i < |s.workers| && Follows(p, max, s, i, h)
    requires Truthful(p, max, Followed(s, es, i, h, max).log)
    ensures Follows(p, max, Run(s, es), i, Followed(s, es, i, h, max))
    decreases |es|
  {
    if es == [] {
    } else {
      var h' := Noted(s, es[0], i, h, max);
      LogGrows(Step(s, es[0]), es[1..], i, h', max);
      TruthfulPrefix(p, max, h'.log, Followed(s, es, i, h, max).log);
      StepKeeps(s, es[0]);
      StepFollows(p, max, s, es[0], i, h);
      RunFollows(p, max, Step(s, es[0]), es[1..], i, h');
    }
  }

  /**
   * In every run, with any number of workers pausing and resuming around it, a worker does what the worker
   * loop does on the flags it has read: if p are procedures that answer as its own did, the loop has
   * finished with the worker's state and log exactly if the worker has left, and has come just as far if
   * the worker is between two iterations.
   */
  lemma WorkersRunTheLoop(n: nat, hasFetch: bool, hasThrow: bool, es: seq<Event>, i: nat, p: Procs, max: int)
    requires n > 0 && i < n
    requires Truthful(p, max, Followed(Init(n, hasFetch, hasThrow), es, i, NOTHING, max).log)
    ensures var s := Run(Init(n, hasFetch, hasThrow), es); var w := s.workers[i];
      var h := Followed(Init(n, hasFetch, hasThrow), es, i, NOTHING, max);
      var out := Loop(BodyOf(p, max, hasFetch, hasThrow), 0, h.env, []);
      && (w.pc == Done ==> out == Outcome(true, w.st, h.log))
      && (Between(w.pc) ==> out == Outcome(false, w.st, h.log))
  {
    InitInv(n, hasFetch, hasThrow);
    RunFollows(p, max, Init(n, hasFetch, hasThrow), es, i, NOTHING);
  }

  // Procedures that answer what a log says.
  function Replay(log: Log): Procs {
    var answer := (k: nat) => if k < |log| && !log[k].Pause? then log[k].result else 0;
    Procs(l => answer(|l|), (l, n) => answer(|l|), (l, n) => answer(|l|))
  }

  lemma {:induction false} FetchesMax(s: Stage, es: seq<Event>, i: nat, h: History, max: int)
    requires i < |s.workers| && forall a :: a in h.log && a.Fetch? ==> a.max == max
    ensures forall a :: a in Followed(s, es, i, h, max).log && a.Fetch? ==> a.max == max
    decreases |es|
  {
    if es == [] {
    } else {
      FetchesMax(Step(s, es[0]), es[1..], i, Noted(s, es[0], i, h, max), max);
    }
  }

  /** For every run there are such procedures: those that answer what the worker's answered. */
  lemma SomeProcsAnswer(n: nat, hasFetch: bool, hasThrow: bool, es: seq<Event>, i: nat, max: int) returns (p: Procs)
    requires i < n
    ensures Truthful(p, max, Followed(Init(n, hasFetch, hasThrow), es, i, NOTHING, max).log)
  {
    var log := Followed(Init(n, hasFetch, hasThrow), es, i, NOTHING, max).log;
    p := Replay(log);
    FetchesMax(Init(n, hasFetch, hasThrow), es, i, NOTHING, max);
    forall k | 0 <= k < |log|
      ensures Recorded(p, max, log[..k], log[k])
    {
      assert log[k] in log && |log[..k]| == k;
    }
  }
}
