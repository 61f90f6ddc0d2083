/** The global state of the process: it only moves forward, and any number of threads wait for it to do so. */
module GlobalStates {
  import opened ShutdownLevels

  // The global states in order.
  const UNKNOWN: nat := 0
  const STARTED: nat := 4
  const REQUEST_SHUTDOWN: nat := 5
  const ACCEPT_SHUTDOWN: nat := 6
  const FINALIZED: nat := 10

  predicate IsState(s: int) {
    UNKNOWN < s <= FINALIZED
  }

  predicate IsShutdown(s: int) {
    s >= ACCEPT_SHUTDOWN
  }

  datatype Result = Ok | NotOperational | InvalidTransition | AnyFailure | InvalidArgs

  /** The state and the grace level of a shutdown. */
  datatype Global = Global(gs: nat, gl: Level)

  // ---------------------------------------------------------------- passes under the lock

  // Setting the state; the result, and whether waiters were notified.
  function Set(g: Global, s: int): (Global, Result, bool) {
    if !IsState(s) then (g, InvalidArgs, false)
    else if s >= g.gs then (g.(gs := s), Result.Ok, true)
    else (g, InvalidTransition, false)
  }

  /** A waiter either sleeps or returns. */
  datatype Pass = Sleep | Return(result: Result)

  function WaitPass(g: Global, target: int): Pass {
    if !IsState(target) then Return(InvalidArgs)
    else if g.gs < target && !IsShutdown(g.gs) then Sleep
    else if g.gs >= target then Return(Result.Ok)
    else if IsShutdown(g.gs) && !IsShutdown(target) then Return(NotOperational)
    else Return(Result.Ok)
  }

  // The first pass of a shutdown request; it sleeps at once after making the request.
  function RequestPass(g: Global, l: Level): (Global, Pass, bool) {
    if l == Unknown then (g, Return(InvalidArgs), false)
    else if !IsShutdown(g.gs) && g.gs != REQUEST_SHUTDOWN then
      if REQUEST_SHUTDOWN >= g.gs then (Global(REQUEST_SHUTDOWN, l), AcceptPass(Global(REQUEST_SHUTDOWN, l)), true)
      else (g, Return(InvalidTransition), false)
    else (g, Return(AnyFailure), false)
  }

  // The later passes of a shutdown request.
  function AcceptPass(g: Global): Pass {
    if !IsShutdown(g.gs) then Sleep else Return(Result.Ok)
  }

  class GlobalState {
    var gs: nat
    var gl: Level

    ghost function State(): Global
      reads this
    {
      Global(gs, gl)
    }

    constructor ()
      ensures State() == Global(UNKNOWN, Unknown)
    {
      gs, gl := UNKNOWN, Unknown;
    }

    method SetState(s: int) returns (ret: Result, notified: bool)
      modifies this
      ensures (State(), ret, notified) == Set(old(State()), s)
      ensures ret == if !IsState(s) then InvalidArgs else if s < old(gs) then InvalidTransition else Result.Ok
      ensures gs == (if ret == Result.Ok then s else old(gs)) && gs >= old(gs) && gl == old(gl)
      ensures notified <==> ret == Result.Ok
    {
      notified := false;
      if IsState(s) {
        if s >= gs {
          gs := s;
          notified := true;
          ret := Result.Ok;
        } else {
          ret := InvalidTransition;
        }
      } else {
        ret := InvalidArgs;
      }
    }

    method WaitOnce(target: int) returns (pass: Pass)
      ensures pass == WaitPass(State(), target)
      ensures pass == if !IsState(target) then Return(InvalidArgs)
                      else if gs < target && gs < ACCEPT_SHUTDOWN then Sleep else Return(Result.Ok)
    {
      if !IsState(target) {
        return Return(InvalidArgs);
      }
      if gs < target && !IsShutdown(gs) {
        pass := Sleep;
      } else if gs >= target {
        pass := Return(Result.Ok);
      } else if IsShutdown(gs) && !IsShutdown(target) {
        assert false;   // no state is a shutdown state, yet below a state that is none
      } else {
        pass := Return(Result.Ok);
      }
    }

    method RequestOnce(l: Level) returns (pass: Pass, notified: bool)
      modifies this
      ensures (State(), pass, notified) == RequestPass(old(State()), l)
      ensures notified <==> l != Unknown && old(gs) < REQUEST_SHUTDOWN
      ensures (gs, gl) == if notified then (REQUEST_SHUTDOWN, l) else (old(gs), old(gl))
      ensures pass == if notified then Sleep else Return(if l == Unknown then InvalidArgs else AnyFailure)
    {
      if l == Unknown {
        return Return(InvalidArgs), false;
      }
      notified, pass := false, Return(AnyFailure);
      if !IsShutdown(gs) && gs != REQUEST_SHUTDOWN {
        if REQUEST_SHUTDOWN >= gs {
          gs := REQUEST_SHUTDOWN;
          gl := l;
          notified := true;
          pass := Sleep;
        } else {
          assert false;
        }
      }
    }
  }

  // ---------------------------------------------------------------- many threads

  datatype Call = WaitFor(target: int) | Request(l: Level) | AwaitAccept

  datatype Client = Idle | Trying(call: Call) | Asleep(call: Call)

  /** What a call came back with, and the state then. */
  datatype Answer = Answer(call: Call, result: Result, at: nat)

  datatype System = System(g: Global, clients: seq<Client>, levelsSet: nat, answers: seq<Answer>)

  datatype Event = SetTo(s: int) | Begin(i: nat, call: Call) | Try(i: nat) | WakeUp(i: nat) | GiveUp(i: nat)

  function Broadcast(clients: seq<Client>): (r: seq<Client>)
    ensures |r| == |clients|
    ensures forall i :: 0 <= i < |r| ==> r[i] == if clients[i].Asleep? then Trying(clients[i].call) else clients[i]
  {
    seq(|clients|, i requires 0 <= i < |clients| => if clients[i].Asleep? then Trying(clients[i].call) else clients[i])
  }

  // Client i sleeps, in the call `later`, or returns.
  function Settle(s: System, i: nat, pass: Pass, later: Call): System
    requires i < |s.clients| && s.clients[i].Trying?
  {
    match pass
    case Sleep => s.(clients := s.clients[i := Asleep(later)])
    case Return(result) =>
      s.(clients := s.clients[i := Idle], answers := s.answers + [Answer(s.clients[i].call, result, s.g.gs)])
  }

  function TryStep(s: System, i: nat): System
    requires i < |s.clients| && s.clients[i].Trying?
  {
    match s.clients[i].call
    case WaitFor(target) => Settle(s, i, WaitPass(s.g, target), WaitFor(target))
    case AwaitAccept => Settle(s, i, AcceptPass(s.g), AwaitAccept)
    case Request(l) =>
      var (g, pass, notified) := RequestPass(s.g, l);
      var s' := s.(g := g, levelsSet := s.levelsSet + (if notified then 1 else 0),
                   clients := if notified then Broadcast(s.clients) else s.clients);
      Settle(s', i, pass, AwaitAccept)
  }

  function Step(s: System, e: Event): (s': System)
    ensures |s'.clients| == |s.clients|
  {
    match e
    case SetTo(v) =>
      var (g, _, notified) := Set(s.g, v);
      s.(g := g, clients := if notified then Broadcast(s.clients) else s.clients)
    case Begin(i, call) =>
      if i < |s.clients| && s.clients[i] == Idle && !call.AwaitAccept?
      then s.(clients := s.clients[i := Trying(call)]) else s
    case Try(i) => if i < |s.clients| && s.clients[i].Trying? then TryStep(s, i) else s
    case WakeUp(i) =>
      if i < |s.clients| && s.clients[i].Asleep? then s.(clients := s.clients[i := Trying(s.clients[i].call)]) else s
    case GiveUp(i) =>
      if i < |s.clients| && s.clients[i].Asleep? && s.clients[i].call.WaitFor?
      then s.(clients := s.clients[i := Idle]) else s
  }

  // A run is any sequence of events whatsoever.
  function Run(s: System, es: seq<Event>): (s': System)
    ensures |s'.clients| == |s.clients|
    decreases |es|
  {
    if es == [] then s else Run(Step(s, es[0]), es[1..])
  }

  function Init(n: nat): System {
    System(Global(UNKNOWN, Unknown), seq(n, _ => Idle), 0, [])
  }

  predicate ClientOk(g: Global, c: Client) {
    match c
    case Idle => true
    case Trying(call) => call.AwaitAccept? ==> g.gs >= REQUEST_SHUTDOWN
    case Asleep(WaitFor(target)) => g.gs < target && !IsShutdown(g.gs)
    case Asleep(AwaitAccept) => g.gs == REQUEST_SHUTDOWN
    case Asleep(Request(_)) => false
  }

  predicate AnswerOk(a: Answer) {
    match a.call
    case WaitFor(target) =>
      if IsState(target) then a.result == Result.Ok && (a.at >= target || IsShutdown(a.at)) else a.result == InvalidArgs
    case AwaitAccept => a.result == Result.Ok && IsShutdown(a.at)
    case Request(l) =>
      if l != Unknown then a.result == AnyFailure && a.at >= REQUEST_SHUTDOWN else a.result == InvalidArgs
  }

  predicate Inv(s: System) {
    && s.g.gs <= FINALIZED
    && (forall i :: 0 <= i < |s.clients| ==> ClientOk(s.g, s.clients[i]))
    && (forall a :: a in s.answers ==> AnswerOk(a))
    && s.levelsSet <= 1 && (s.g.gs < REQUEST_SHUTDOWN ==> s.levelsSet == 0)
  }

  lemma StepKeeps(s: System, e: Event)
    requires Inv(s)
    ensures Inv(Step(s, e)) && s.g.gs <= Step(s, e).g.gs
    ensures s.levelsSet == 1 ==> Step(s, e).g.gl == s.g.gl && Step(s, e).levelsSet == 1
    ensures s.answers <= Step(s, e).answers
  {
    if e.Try? && e.i < |s.clients| && s.clients[e.i].Trying? {
      assert ClientOk(s.g, s.clients[e.i]);
    }
  }

  lemma {:induction false} RunKeeps(s: System, es: seq<Event>)
    requires Inv(s)
    ensures Inv(Run(s, es)) && s.g.gs <= Run(s, es).g.gs
    ensures s.levelsSet == 1 ==> Run(s, es).g.gl == s.g.gl && Run(s, es).levelsSet == 1
    decreases |es|
  {
    if es == [] {
    } else {
      StepKeeps(s, es[0]);
      RunKeeps(Step(s, es[0]), es[1..]);
    }
  }

  lemma {:induction false} RunConcat(s: System, es: seq<Event>, fs: seq<Event>)
    ensures Run(s, es + fs) == Run(Run(s, es), fs)
    decreases |es|
  {
    if es == [] {
      assert es + fs == fs;
    } else {
      assert (es + fs)[1..] == es[1..] + fs;
      RunConcat(Step(s, es[0]), es[1..], fs);
    }
  }

  /** The state never decreases, and the grace level, once a request has set it, never changes. */
  lemma OnlyForward(n: nat, es: seq<Event>, fs: seq<Event>)
    ensures var s, t := Run(Init(n), es), Run(Init(n), es + fs);
      s.g.gs <= t.g.gs && t.levelsSet <= 1 && (s.levelsSet == 1 ==> t.g.gl == s.g.gl)
  {
    RunConcat(Init(n), es, fs);
    RunKeeps(Init(n), es);
    RunKeeps(Run(Init(n), es), fs);
  }

  // Client i makes a shutdown request of level l that is accepted.
  predicate Accepts(s: System, e: Event, l: Level) {
    && e.Try? && e.i < |s.clients| && s.clients[e.i] == Client.Trying(Request(l)) && l != Unknown
    && s.g.gs < REQUEST_SHUTDOWN
  }

  lemma GraceStep(s: System, e: Event)
    ensures var t := Step(s, e);
      if exists l :: Accepts(s, e, l) then Accepts(s, e, t.g.gl) && t.levelsSet == s.levelsSet + 1
      else t.g.gl == s.g.gl && t.levelsSet == s.levelsSet
  {
    if e.Try? && e.i < |s.clients| && s.clients[e.i].Trying? && s.clients[e.i].call.Request? {
      var l := s.clients[e.i].call.l;
      assert Accepts(s, e, l) <==> l != Unknown && s.g.gs < REQUEST_SHUTDOWN;
    }
  }

  /** At any time the grace level is that of the one request accepted so far, UNKNOWN if there was none. */
  lemma {:induction false} GraceLevelExactly(n: nat, es: seq<Event>)
    ensures var s := Run(Init(n), es);
      if s.levelsSet == 0 then s.g.gl == Unknown
      else exists j :: 0 <= j < |es| && Accepts(Run(Init(n), es[..j]), es[j], s.g.gl)
    decreases |es|
  {
    if es == [] {
    } else {
      var m := |es| - 1;
      var s := Run(Init(n), es[..m]);
      GraceLevelExactly(n, es[..m]);
      assert es == es[..m] + [es[m]];
      RunThen(Init(n), es[..m], s, es[m]);
      GraceStep(s, es[m]);
      RunKeeps(Init(n), es);
      var t := Step(s, es[m]);
      if exists l :: Accepts(s, es[m], l) {
        assert Accepts(Run(Init(n), es[..m]), es[m], t.g.gl);
      } else if s.levelsSet != 0 {
        var j :| 0 <= j < m && Accepts(Run(Init(n), es[..m][..j]), es[..m][j], s.g.gl);
        assert es[..m][..j] == es[..j];
        assert Accepts(Run(Init(n), es[..j]), es[j], t.g.gl);
      }
    }
  }

  /**
   * Every answer: a shutdown request returns only once the shutdown was accepted, unless it was refused for
   * being invalid or because a shutdown was requested before; a valid wait reports success, never that the
   * process is not operational, and may do so without its state having been reached once the shutdown is
   * accepted.
   */
  lemma Answers(n: nat, es: seq<Event>, a: Answer)
    requires a in Run(Init(n), es).answers
    ensures (a.call == AwaitAccept ==> a.at >= ACCEPT_SHUTDOWN)
    ensures a.call.Request? && a.call.l != Unknown ==> a.result == AnyFailure && a.at >= REQUEST_SHUTDOWN
    ensures a.call.WaitFor? && IsState(a.call.target) ==>
      a.result == Result.Ok && (a.at >= a.call.target || a.at >= ACCEPT_SHUTDOWN)
  {
    RunKeeps(Init(n), es);
    assert AnswerOk(a);
  }

  /** A thread that sleeps unnotified has something to wait for. */
  lemma NoLostWakeup(n: nat, es: seq<Event>, i: nat)
    requires i < n && Run(Init(n), es).clients[i].Asleep?
    ensures var s := Run(Init(n), es); var call := s.clients[i].call;
      && !IsShutdown(s.g.gs) && !call.Request?
      && (call.WaitFor? ==> s.g.gs < call.target) && (call.AwaitAccept? ==> s.g.gs == REQUEST_SHUTDOWN)
  {
    RunKeeps(Init(n), es);
    assert ClientOk(Run(Init(n), es).g, Run(Init(n), es).clients[i]);
  }

  // ---------------------------------------------------------------- every call is answered once

  // How many clients are in a call.
  function Active(clients: seq<Client>): nat {
    if clients == [] then 0 else (if clients[0].Idle? then 0 else 1) + Active(clients[1..])
  }

  lemma {:induction false} ActiveUpdate(clients: seq<Client>, i: nat, c: Client)
    requires i < |clients|
    ensures Active(clients[i := c]) + (if clients[i].Idle? then 0 else 1) == Active(clients) + if c.Idle? then 0 else 1
  {
    if i == 0 {
      assert clients[i := c][1..] == clients[1..];
    } else {
      assert clients[i := c][1..] == clients[1..][i - 1 := c];
      ActiveUpdate(clients[1..], i - 1, c);
    }
  }

  lemma {:induction false} ActiveBroadcast(clients: seq<Client>)
    ensures Active(Broadcast(clients)) == Active(clients)
  {
    if clients == [] {
    } else {
      assert Broadcast(clients)[1..] == Broadcast(clients[1..]);
      ActiveBroadcast(clients[1..]);
    }
  }

  // Whether a step begins a call, and whether it ends one by giving up.
  predicate Begins(s: System, e: Event) {
    e.Begin? && e.i < |s.clients| && s.clients[e.i] == Idle && !e.call.AwaitAccept?
  }

  predicate GivesUp(s: System, e: Event) {
    e.GiveUp? && e.i < |s.clients| && s.clients[e.i].Asleep? && s.clients[e.i].call.WaitFor?
  }

  // How many calls a run begins and has not ended by giving up.
  function Kept(s: System, es: seq<Event>): int
    decreases |es|
  {
    if es == [] then 0
    else (if Begins(s, es[0]) then 1 else if GivesUp(s, es[0]) then -1 else 0) + Kept(Step(s, es[0]), es[1..])
  }

  lemma TryAnswers(s: System, i: nat)
    requires i < |s.clients| && s.clients[i].Trying?
    ensures var t := TryStep(s, i); |t.answers| + Active(t.clients) == |s.answers| + Active(s.clients)
  {
    var woken := Broadcast(s.clients);
    var call := s.clients[i].call;
    ActiveBroadcast(s.clients);
    ActiveUpdate(s.clients, i, Idle);
    ActiveUpdate(s.clients, i, Asleep(call));
    ActiveUpdate(s.clients, i, Asleep(AwaitAccept));
    ActiveUpdate(woken, i, Idle);
    ActiveUpdate(woken, i, Asleep(AwaitAccept));
  }

  lemma StepAnswers(s: System, e: Event)
    ensures var t := Step(s, e);
      |t.answers| + Active(t.clients)
        == |s.answers| + Active(s.clients) + if Begins(s, e) then 1 else if GivesUp(s, e) then -1 else 0
  {
    match e
    case SetTo(_) => ActiveBroadcast(s.clients);
    case Try(i) =>
      if i < |s.clients| && s.clients[i].Trying? {
        TryAnswers(s, i);
      }
    case Begin(i, call) =>
      if i < |s.clients| {
        ActiveUpdate(s.clients, i, Client.Trying(call));
      }
    case WakeUp(i) =>
      if i < |s.clients| && s.clients[i].Asleep? {
        ActiveUpdate(s.clients, i, Client.Trying(s.clients[i].call));
      }
    case GiveUp(i) =>
      if i < |s.clients| {
        ActiveUpdate(s.clients, i, Idle);
      }
  }

  lemma {:induction false} RunAnswers(s: System, es: seq<Event>)
    ensures var t := Run(s, es); |t.answers| + Active(t.clients) == |s.answers| + Active(s.clients) + Kept(s, es)
    decreases |es|
  {
    if es == [] {
    } else {
      StepAnswers(s, es[0]);
      RunAnswers(Step(s, es[0]), es[1..]);
    }
  }

  lemma {:induction false} NobodyActive(n: nat)
    ensures Active(seq(n, _ => Idle)) == 0
  {
    if n > 0 {
      assert seq(n, _ => Idle)[1..] == seq(n - 1, _ => Idle);
      NobodyActive(n - 1);
    }
  }

  /** In every run each call that was begun and not given up has been answered once or still is under way. */
  lemma AnsweredOnce(n: nat, es: seq<Event>)
    ensures var s := Run(Init(n), es); |s.answers| + Active(s.clients) == Kept(Init(n), es)
  {
    NobodyActive(n);
    RunAnswers(Init(n), es);
  }

  // ---------------------------------------------------------------- workers wait for the start

  datatype Gate = MainLoop | Fatal | Leaves

  // What a worker does when its wait for STARTED returns with this result in state s.
  function AfterWait(result: Result, s: nat): Gate {
    if result == Result.Ok then if s == STARTED then MainLoop else Fatal
    else if result == NotOperational && !IsShutdown(s) then Fatal
    else Leaves
  }

  /**
   * A worker whose wait for the start returns enters its loop if and only if the state is still STARTED: it
   * aborts the process if the state has moved on by then, a requested shutdown included.
   */
  lemma GateExactly(n: nat, es: seq<Event>, a: Answer)
    requires a in Run(Init(n), es).answers && a.call == WaitFor(STARTED)
    ensures AfterWait(a.result, a.at) == MainLoop <==> a.at == STARTED
    ensures AfterWait(a.result, a.at) == Fatal <==> a.at > STARTED
  {
    Answers(n, es, a);
  }

  // A run of one event after another.
  lemma RunThen(s: System, es: seq<Event>, t: System, e: Event)
    requires Run(s, es) == t
    ensures Run(s, es + [e]) == Step(t, e)
  {
    RunConcat(s, es, [e]);
    RunOne(t, [e]);
  }

  lemma RunOne(s: System, es: seq<Event>)
    requires |es| == 1
    ensures Run(s, es) == Step(s, es[0])
  {
    var rest := es[1..];
    assert rest == [];
  }

  /**
   * This does happen: a worker asleep until the start is woken up by it, but the state has moved on by the
   * time it gets the lock.
   */
  lemma FatalReached(n: nat) returns (es: seq<Event>, a: Answer)
    requires n > 0
    ensures a in Run(Init(n), es).answers && a.call == WaitFor(STARTED) && AfterWait(a.result, a.at) == Fatal
  {
    var s0 := Init(n);
    var call := WaitFor(STARTED);
    var s1 := s0.(clients := s0.clients[0 := Client.Trying(call)]);
    var s2 := s0.(clients := s0.clients[0 := Asleep(call)]);
    var s3 := s1.(g := Global(STARTED, Unknown));
    var s4 := s1.(g := Global(REQUEST_SHUTDOWN, Unknown));
    assert Broadcast(s2.clients) == s1.clients == Broadcast(s1.clients);
    es := [];
    RunThen(s0, es, s0, Begin(0, call));
    es := es + [Begin(0, call)];
    RunThen(s0, es, s1, Try(0));
    es := es + [Try(0)];
    RunThen(s0, es, s2, SetTo(STARTED));
    es := es + [SetTo(STARTED)];
    RunThen(s0, es, s3, SetTo(REQUEST_SHUTDOWN));
    es := es + [SetTo(REQUEST_SHUTDOWN)];
    RunThen(s0, es, s4, Try(0));
    es := es + [Try(0)];
    a := Answer(call, Result.Ok, REQUEST_SHUTDOWN);
  }
}
