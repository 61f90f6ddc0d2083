/**
 * The four worker loops of a pipeline stage. A loop runs against a schedule: what each of its iterations
 * reads from the flags other threads set. The procedures it calls may depend on everything done before.
 */
module WorkerLoop {
  import opened ShutdownLevels

  /** What one iteration reads; a loop whose schedule is used up has simply not got any further yet. */
  datatype Flags = Flags(doLoop: bool, level: Level, pauseRequested: bool)

  datatype Act = Fetch(max: int, result: int) | Main(count: int, result: int) | Throw(count: int, result: int) | Pause

  type Log = seq<Act>

  datatype Procs = Procs(fetch: Log -> int, main: (Log, int) -> int, throw: (Log, int) -> int)

  // ---------------------------------------------------------------- what a loop does

  datatype Outcome = Outcome(finished: bool, st: int, log: Log)

  // One unpaused iteration: the new state of the loop and the log.
  type Body = Log -> (int, Log)

  predicate GoesOn(f: Flags, st: int) {
    f.doLoop && (st > 0 || (st == 0 && f.level == Unknown))
  }

  function Loop(body: Body, st: int, env: seq<Flags>, log: Log): Outcome
    decreases |env|
  {
    if st < 0 then Outcome(true, st, log)   // the body breaks off
    else if env == [] then Outcome(false, st, log)
    else if !GoesOn(env[0], st) then Outcome(true, st, log)
    else if env[0].pauseRequested then Loop(body, st, env[1..], log + [Pause])
    else
      var (st', log') := body(log);
      Loop(body, st', env[1..], log')
  }

  function ThrowBatch(p: Procs, log: Log, n: int): (int, Log) {
    var t := p.throw(log, n);
    (t, log + [Throw(n, t)])
  }

  function MainBatch(p: Procs, log: Log, n: int, throws: bool): (int, Log) {
    var m := p.main(log, n);
    var log' := log + [Main(n, m)];
    if m > 0 && throws then ThrowBatch(p, log', m) else (m, log')
  }

  // An iteration of the variant that has or lacks a fetch and a throw procedure.
  function Iteration(p: Procs, max: int, log: Log, fetches: bool, throws: bool): (int, Log) {
    if fetches then
      var n := p.fetch(log);
      var log' := log + [Fetch(max, n)];
      if n > 0 then MainBatch(p, log', n, throws) else (n, log')
    else MainBatch(p, log, max, throws)
  }

  function BodyOf(p: Procs, max: int, fetches: bool, throws: bool): Body {
    log => Iteration(p, max, log, fetches, throws)
  }

  // The result of a worker that has left its loop.
  function ExitCode(st: int, level: Level): int {
    if level != Unknown && st > 0 then 0 else st
  }

  lemma LoopStep(body: Body, st: int, env: seq<Flags>, log: Log, i: nat)
    requires i < |env| && st >= 0
    ensures Loop(body, st, env[i..], log) ==
      if !GoesOn(env[i], st) then Outcome(true, st, log)
      else if env[i].pauseRequested then Loop(body, st, env[i + 1..], log + [Pause])
      else Loop(body, body(log).0, env[i + 1..], body(log).1)
  {
    assert env[i..][1..] == env[i + 1..] && env[i..][0] == env[i];
  }

  method FetchMainThrow(p: Procs, max: int, env: seq<Flags>, atExit: Level)
    returns (finished: bool, ret: int, log: Log)
    ensures var out := Loop(BodyOf(p, max, true, true), 0, env, []);
      finished == out.finished && log == out.log && ret == if finished then ExitCode(out.st, atExit) else out.st
  {
    var st := 0;
    log := [];
    ghost var body := BodyOf(p, max, true, true);
    var i := 0;
    while i < |env| && GoesOn(env[i], st)
      invariant 0 <= i <= |env| && st >= 0
      invariant Loop(body, 0, env, []) == Loop(body, st, env[i..], log)
    {
      LoopStep(body, st, env, log, i);
      if !env[i].pauseRequested {
        st := p.fetch(log);
        log := log + [Fetch(max, st)];
        if st > 0 {
          var n := st;
          st := p.main(log, n);
          log := log + [Main(n, st)];
          if st > 0 {
            var m := st;
            st := p.throw(log, m);
            log := log + [Throw(m, st)];
          }
        }
        if st < 0 {
          return true, st, log;
        }
      } else {
        log := log + [Pause];
      }
      i := i + 1;
    }
    finished, ret := i < |env|, st;
    if finished {
      LoopStep(body, st, env, log, i);
      if atExit != Unknown && st > 0 {
        ret := 0;
      }
    } else {
      assert env[i..] == [];
    }
  }

  method FetchMain(p: Procs, max: int, env: seq<Flags>, atExit: Level)
    returns (finished: bool, ret: int, log: Log)
    ensures var out := Loop(BodyOf(p, max, true, false), 0, env, []);
      finished == out.finished && log == out.log && ret == if finished then ExitCode(out.st, atExit) else out.st
  {
    var st := 0;
    log := [];
    ghost var body := BodyOf(p, max, true, false);
    var i := 0;
    while i < |env| && GoesOn(env[i], st)
      invariant 0 <= i <= |env| && st >= 0
      invariant Loop(body, 0, env, []) == Loop(body, st, env[i..], log)
    {
      LoopStep(body, st, env, log, i);
      if !env[i].pauseRequested {
        st := p.fetch(log);
        log := log + [Fetch(max, st)];
        if st > 0 {
          var n := st;
          st := p.main(log, n);
          log := log + [Main(n, st)];
        }
        if st < 0 {
          return true, st, log;
        }
      } else {
        log := log + [Pause];
      }
      i := i + 1;
    }
    finished, ret := i < |env|, st;
    if finished {
      LoopStep(body, st, env, log, i);
      if atExit != Unknown && st > 0 {
        ret := 0;
      }
    } else {
      assert env[i..] == [];
    }
  }

  method MainThrow(p: Procs, max: int, env: seq<Flags>, atExit: Level)
    returns (finished: bool, ret: int, log: Log)
    ensures var out := Loop(BodyOf(p, max, false, true), 0, env, []);
      finished == out.finished && log == out.log && ret == if finished then ExitCode(out.st, atExit) else out.st
  {
    var st := 0;
    log := [];
    ghost var body := BodyOf(p, max, false, true);
    var i := 0;
    while i < |env| && GoesOn(env[i], st)
      invariant 0 <= i <= |env| && st >= 0
      invariant Loop(body, 0, env, []) == Loop(body, st, env[i..], log)
    {
      LoopStep(body, st, env, log, i);
      if !env[i].pauseRequested {
        st := p.main(log, max);
        log := log + [Main(max, st)];
        if st > 0 {
          var m := st;
          st := p.throw(log, m);
          log := log + [Throw(m, st)];
        }
        if st < 0 {
          return true, st, log;
        }
      } else {
        log := log + [Pause];
      }
      i := i + 1;
    }
    finished, ret := i < |env|, st;
    if finished {
      LoopStep(body, st, env, log, i);
      if atExit != Unknown && st > 0 {
        ret := 0;
      }
    } else {
      assert env[i..] == [];
    }
  }

  method MainOnly(p: Procs, max: int, env: seq<Flags>, atExit: Level)
    returns (finished: bool, ret: int, log: Log)
    ensures var out := Loop(BodyOf(p, max, false, false), 0, env, []);
      finished == out.finished && log == out.log && ret == if finished then ExitCode(out.st, atExit) else out.st
  {
    var st := 0;
    log := [];
    ghost var body := BodyOf(p, max, false, false);
    var i := 0;
    while i < |env| && GoesOn(env[i], st)
      invariant 0 <= i <= |env| && st >= 0
      invariant Loop(body, 0, env, []) == Loop(body, st, env[i..], log)
    {
      LoopStep(body, st, env, log, i);
      if !env[i].pauseRequested {
        st := p.main(log, max);
        log := log + [Main(max, st)];
        if st < 0 {
          return true, st, log;
        }
      } else {
        log := log + [Pause];
      }
      i := i + 1;
    }
    finished, ret := i < |env|, st;
    if finished {
      LoopStep(body, st, env, log, i);
      if atExit != Unknown && st > 0 {
        ret := 0;
      }
    } else {
      assert env[i..] == [];
    }
  }

  // ---------------------------------------------------------------- the variants are one loop

  // A log without the fetches, or without the throws, that a variant does not make.
  function Erased(log: Log, fetches: bool, throws: bool): (r: Log)
    ensures |r| <= |log|
  {
    if log == [] then []
    else
      var rest, last := Erased(log[..|log| - 1], fetches, throws), log[|log| - 1];
      if (last.Fetch? && !fetches) || (last.Throw? && !throws) then rest else rest + [last]
  }

  lemma ErasedAppend(log: Log, a: Act, fetches: bool, throws: bool)
    ensures Erased(log + [a], fetches, throws) ==
      Erased(log, fetches, throws) + if (a.Fetch? && !fetches) || (a.Throw? && !throws) then [] else [a]
  {
    assert (log + [a])[..|log|] == log;
  }

  // Procedures for the full loop: a missing fetch grants the whole batch, a missing throw takes what it is given.
  function Completed(p: Procs, max: int, fetches: bool, throws: bool): Procs {
    Procs(log => if fetches then p.fetch(Erased(log, fetches, throws)) else max,
          (log, n) => p.main(Erased(log, fetches, throws), n),
          (log, n) => if throws then p.throw(Erased(log, fetches, throws), n) else n)
  }

  lemma SameIteration(p: Procs, max: int, log: Log, fetches: bool, throws: bool)
    requires max > 0
    ensures var full := Iteration(Completed(p, max, fetches, throws), max, log, true, true);
      Iteration(p, max, Erased(log, fetches, throws), fetches, throws) == (full.0, Erased(full.1, fetches, throws))
  {
    var q := Completed(p, max, fetches, throws);
    var n := q.fetch(log);
    ErasedAppend(log, Fetch(max, n), fetches, throws);
    if n > 0 {
      var log1 := log + [Fetch(max, n)];
      var m := q.main(log1, n);
      ErasedAppend(log1, Main(n, m), fetches, throws);
      if m > 0 {
        var log2 := log1 + [Main(n, m)];
        ErasedAppend(log2, Throw(m, q.throw(log2, m)), fetches, throws);
      }
    }
  }

  lemma {:induction false} SameLoop(p: Procs, max: int, st: int, env: seq<Flags>, log: Log, fetches: bool, throws: bool)
    requires max > 0
    ensures var full := Loop(BodyOf(Completed(p, max, fetches, throws), max, true, true), st, env, log);
      Loop(BodyOf(p, max, fetches, throws), st, env, Erased(log, fetches, throws))
        == Outcome(full.finished, full.st, Erased(full.log, fetches, throws))
    decreases |env|
  {
    if st < 0 || env == [] || !GoesOn(env[0], st) {
    } else {
      if env[0].pauseRequested {
        ErasedAppend(log, Pause, fetches, throws);
        SameLoop(p, max, st, env[1..], log + [Pause], fetches, throws);
      } else {
        var (st', log') := Iteration(Completed(p, max, fetches, throws), max, log, true, true);
        SameIteration(p, max, log, fetches, throws);
        SameLoop(p, max, st', env[1..], log', fetches, throws);
      }
    }
  }

  /**
   * Whatever the procedures do and whenever the flags change, each variant behaves step for step like the
   * full loop whose fetch always returns the batch maximum and whose throw returns what it is given.
   */
  lemma VariantsAgree(p: Procs, max: int, env: seq<Flags>, fetches: bool, throws: bool)
    requires max > 0
    ensures var full := Loop(BodyOf(Completed(p, max, fetches, throws), max, true, true), 0, env, []);
      Loop(BodyOf(p, max, fetches, throws), 0, env, [])
        == Outcome(full.finished, full.st, Erased(full.log, fetches, throws))
  {
    SameLoop(p, max, 0, env, [], fetches, throws);
  }

  // ---------------------------------------------------------------- batches are never split

  // The log consists of pauses and whole batches: a positive fetch is followed by main with that count, and
  // a positive main by throw with its result.
  predicate WholeBatches(log: Log)
    decreases |log|
  {
    || log == []
    || (log[0].Pause? && WholeBatches(log[1..]))
    || (log[0].Fetch? && log[0].result <= 0 && WholeBatches(log[1..]))
    || (|log| > 1 && log[0].Fetch? && log[0].result > 0 && log[1].Main? && log[1].count == log[0].result
        && ((log[1].result <= 0 && WholeBatches(log[2..]))
            || (|log| > 2 && log[1].result > 0 && log[2].Throw? && log[2].count == log[1].result
                && WholeBatches(log[3..]))))
  }

  lemma DropConcat(a: Log, b: Log, n: nat)
    requires n <= |a|
    ensures (a + b)[n..] == a[n..] + b && forall i :: 0 <= i < n ==> (a + b)[i] == a[i]
  {}

  lemma {:induction false} WholeConcat(a: Log, b: Log)
    requires WholeBatches(a) && WholeBatches(b)
    ensures WholeBatches(a + b)
    decreases |a|
  {
    if a == [] {
      assert a + b == b;
    } else if a[0].Pause? || (a[0].Fetch? && a[0].result <= 0) {
      DropConcat(a, b, 1);
      WholeConcat(a[1..], b);
    } else if a[1].result <= 0 {
      DropConcat(a, b, 2);
      WholeConcat(a[2..], b);
    } else {
      DropConcat(a, b, 3);
      WholeConcat(a[3..], b);
    }
  }

  // The batch an iteration adds to the log, and its result.
  lemma IterationBatch(p: Procs, max: int, log: Log) returns (batch: Log)
    ensures Iteration(p, max, log, true, true).1 == log + batch && WholeBatches(batch)
    ensures batch != [] && !batch[|batch| - 1].Pause?
    ensures batch[|batch| - 1].result == Iteration(p, max, log, true, true).0
  {
    var n := p.fetch(log);
    var log1 := log + [Fetch(max, n)];
    if n <= 0 {
      batch := [Fetch(max, n)];
    } else {
      var m := p.main(log1, n);
      var log2 := log1 + [Main(n, m)];
      if m <= 0 {
        batch := [Fetch(max, n), Main(n, m)];
        assert log + batch == log2;
        assert batch[2..] == [];
      } else {
        var t := p.throw(log2, m);
        batch := [Fetch(max, n), Main(n, m), Throw(m, t)];
        assert log + batch == log2 + [Throw(m, t)];
        assert batch[3..] == [];
      }
    }
  }

  // The result of the last procedure called, 0 if there was none.
  function LastResult(log: Log): int {
    if log == [] then 0
    else
      var last := log[|log| - 1];
      if last.Pause? then LastResult(log[..|log| - 1]) else last.result
  }

  lemma LastOfConcat(log: Log, batch: Log)
    requires batch != [] && !batch[|batch| - 1].Pause?
    ensures LastResult(log + batch) == batch[|batch| - 1].result
  {
    assert (log + batch)[|log + batch| - 1] == batch[|batch| - 1];
  }

  /**
   * The full loop never splits a batch, however it is paused or shut down, and its state is the result of
   * the last procedure it called.
   */
  lemma {:induction false} BatchesStayWhole(p: Procs, max: int, st: int, env: seq<Flags>, log: Log)
    requires WholeBatches(log) && LastResult(log) == st
    ensures var out := Loop(BodyOf(p, max, true, true), st, env, log);
      WholeBatches(out.log) && LastResult(out.log) == out.st
    decreases |env|
  {
    if st < 0 || env == [] || !GoesOn(env[0], st) {
    } else {
      if env[0].pauseRequested {
        assert WholeBatches([Pause]);
        WholeConcat(log, [Pause]);
        assert (log + [Pause])[..|log|] == log;
        BatchesStayWhole(p, max, st, env[1..], log + [Pause]);
      } else {
        var batch := IterationBatch(p, max, log);
        WholeConcat(log, batch);
        LastOfConcat(log, batch);
        BatchesStayWhole(p, max, Iteration(p, max, log, true, true).0, env[1..], log + batch);
      }
    }
  }

  /**
   * Why a worker leaves its loop: a procedure failed, it was told to stop at once, or some shutdown was
   * requested and the last procedure it called returned nothing. So a graceful shutdown lets it go on as
   * long as there is something to do.
   */
  lemma {:induction false} ExitReasons(body: Body, st: int, env: seq<Flags>, log: Log)
    ensures var out := Loop(body, st, env, log);
      out.finished ==>
        || out.st < 0
        || (exists i :: 0 <= i < |env| && !env[i].doLoop)
        || (out.st == 0 && exists i :: 0 <= i < |env| && env[i].level != Unknown)
    decreases |env|
  {
    if st < 0 || env == [] || !GoesOn(env[0], st) {
    } else {
      if env[0].pauseRequested {
        ExitReasons(body, st, env[1..], log + [Pause]);
      } else {
        ExitReasons(body, body(log).0, env[1..], body(log).1);
      }
      assert forall i :: 0 <= i < |env[1..]| ==> env[1..][i] == env[i + 1];
    }
  }

  // ---------------------------------------------------------------- when a loop stops

  /** What one more reading of the flags comes to: this determines a loop reading by reading. */
  lemma {:induction false} OneReadingMore(body: Body, st: int, env: seq<Flags>, log: Log, f: Flags)
    ensures Loop(body, st, [], log) == Outcome(st < 0, st, log)
    ensures var out := Loop(body, st, env, log);
      Loop(body, st, env + [f], log) ==
        if out.finished then out
        else if !f.doLoop || (out.st == 0 && f.level != Unknown) then Outcome(true, out.st, out.log)
        else if f.pauseRequested then Outcome(false, out.st, out.log + [Pause])
        else Outcome(body(out.log).0 < 0, body(out.log).0, body(out.log).1)
    decreases |env|
  {
    if env == [] {
      assert ([f])[1..] == [] && env + [f] == [f];
    } else {
      assert (env + [f])[1..] == env[1..] + [f] && (env + [f])[0] == env[0];
      if env[0].pauseRequested {
        OneReadingMore(body, st, env[1..], log + [Pause], f);
      } else {
        OneReadingMore(body, body(log).0, env[1..], body(log).1, f);
      }
    }
  }

  // A loop that has finished reads nothing any more.
  lemma {:induction false} FinishedForGood(body: Body, env: seq<Flags>, i: nat)
    requires i <= |env| && Loop(body, 0, env[..i], []).finished
    ensures Loop(body, 0, env, []) == Loop(body, 0, env[..i], [])
    decreases |env|
  {
    if i == |env| {
      assert env[..i] == env;
    } else {
      var n := |env| - 1;
      assert env == env[..n] + [env[n]] && env[..i] == env[..n][..i];
      FinishedForGood(body, env[..n], i);
      OneReadingMore(body, 0, env[..n], [], env[n]);
    }
  }

  // Reading i of the schedule makes a loop that has come so far stop.
  predicate StopsAt(body: Body, env: seq<Flags>, i: nat)
    requires i < |env|
  {
    var out := Loop(body, 0, env[..i], []);
    && !out.finished
    && (!env[i].doLoop || (out.st == 0 && env[i].level != Unknown)
        || (!env[i].pauseRequested && body(out.log).0 < 0))
  }

  /**
   * A loop has finished if and only if at some reading the loop flag was cleared, or its state was 0 and a
   * shutdown requested, or a procedure failed.
   */
  lemma {:induction false} FinishedExactly(body: Body, env: seq<Flags>)
    ensures Loop(body, 0, env, []).finished <==> exists i :: 0 <= i < |env| && StopsAt(body, env, i)
    decreases |env|
  {
    if env == [] {
    } else {
      var n := |env| - 1;
      assert env == env[..n] + [env[n]];
      assert forall i :: 0 <= i < n ==> env[..n][..i] == env[..i] && env[..n][i] == env[i];
      FinishedExactly(body, env[..n]);
      OneReadingMore(body, 0, env[..n], [], env[n]);
      assert forall i :: 0 <= i < n ==> StopsAt(body, env[..n], i) == StopsAt(body, env, i);
      if Loop(body, 0, env, []).finished && !Loop(body, 0, env[..n], []).finished {
        assert StopsAt(body, env, n);
      }
    }
  }

  /**
   * A worker stops when it is told to: with the loop flag cleared whatever its state, with a shutdown
   * requested once its state is 0; what it has done then depends on the readings before only.
   */
  lemma StopsWhenTold(body: Body, env: seq<Flags>, i: nat)
    requires i < |env|
    ensures var out := Loop(body, 0, env[..i], []);
      !env[i].doLoop || (out.st == 0 && env[i].level != Unknown) ==>
        Loop(body, 0, env, []) == Outcome(true, out.st, out.log)
  {
    var out := Loop(body, 0, env[..i], []);
    if !env[i].doLoop || (out.st == 0 && env[i].level != Unknown) {
      assert env[..i + 1] == env[..i] + [env[i]];
      OneReadingMore(body, 0, env[..i], [], env[i]);
      FinishedForGood(body, env, i + 1);
    }
  }

  /** As long as every reading finds a pause requested, nothing but pausing is done. */
  lemma {:induction false} PausedDoesNothing(body: Body, env: seq<Flags>)
    requires forall i :: 0 <= i < |env| ==> env[i].pauseRequested
    ensures var out := Loop(body, 0, env, []); out.st == 0 && forall k :: 0 <= k < |out.log| ==> out.log[k] == Pause
    decreases |env|
  {
    if env == [] {
    } else {
      var n := |env| - 1;
      assert env == env[..n] + [env[n]];
      PausedDoesNothing(body, env[..n]);
      OneReadingMore(body, 0, env[..n], [], env[n]);
    }
  }

  // ---------------------------------------------------------------- the log is what was called

  // Act a records a call that was made after the acts of log.
  predicate Recorded(p: Procs, max: int, log: Log, a: Act) {
    match a
    case Fetch(m, r) => m == max && r == p.fetch(log)
    case Main(n, r) => r == p.main(log, n)
    case Throw(n, r) => r == p.throw(log, n)
    case Pause => true
  }

  predicate Truthful(p: Procs, max: int, log: Log) {
    forall k :: 0 <= k < |log| ==> Recorded(p, max, log[..k], log[k])
  }

  lemma TruthfulAppend(p: Procs, max: int, log: Log, a: Act)
    requires Truthful(p, max, log) && Recorded(p, max, log, a)
    ensures Truthful(p, max, log + [a])
  {
    assert (log + [a])[..|log|] == log;
    assert forall k :: 0 <= k < |log| ==> (log + [a])[..k] == log[..k];
  }

  lemma TruthfulIteration(p: Procs, max: int, log: Log, fetches: bool, throws: bool)
    requires Truthful(p, max, log)
    ensures Truthful(p, max, Iteration(p, max, log, fetches, throws).1)
  {
    var n, log1 := max, log;
    if fetches {
      n := p.fetch(log);
      log1 := log + [Fetch(max, n)];
      TruthfulAppend(p, max, log, Fetch(max, n));
    }
    var m := p.main(log1, n);
    TruthfulAppend(p, max, log1, Main(n, m));
    var log2 := log1 + [Main(n, m)];
    TruthfulAppend(p, max, log2, Throw(m, p.throw(log2, m)));
  }

  /** Whatever a variant logs, it has called: with that argument, with that result, in that order. */
  lemma {:induction false} LogIsTruthful(p: Procs, max: int, env: seq<Flags>, fetches: bool, throws: bool)
    ensures Truthful(p, max, Loop(BodyOf(p, max, fetches, throws), 0, env, []).log)
    decreases |env|
  {
    if env == [] {
    } else {
      var n := |env| - 1;
      assert env == env[..n] + [env[n]];
      LogIsTruthful(p, max, env[..n], fetches, throws);
      var body := BodyOf(p, max, fetches, throws);
      OneReadingMore(body, 0, env[..n], [], env[n]);
      TruthfulAppend(p, max, Loop(body, 0, env[..n], []).log, Pause);
      TruthfulIteration(p, max, Loop(body, 0, env[..n], []).log, fetches, throws);
    }
  }

  /** A worker that has left its loop reports the failure of its last procedure, or success; never a count. */
  lemma ExitCodeExactly(body: Body, env: seq<Flags>, atExit: Level)
    requires (exists i :: 0 <= i < |env| && !env[i].doLoop) ==> atExit != Unknown
    ensures var out := Loop(body, 0, env, []);
      out.finished ==> ExitCode(out.st, atExit) == if out.st < 0 then out.st else 0
  {
    ExitReasons(body, 0, env, []);
  }
}
