/** Calls against results: what the threads that use a circular buffer asked for, and what they got. */
module BufferCalls {
  import opened Basics
  import opened Bits
  import opened Rings
  import opened BufferMonitor

  function Asking(c: Client, req: Request): nat {
    if !c.Idle? && c.req == req then 1 else 0
  }

  // How many clients are in a call that asks for this.
  function Pending(clients: seq<Client>, req: Request): nat {
    if clients == [] then 0 else Asking(clients[0], req) + Pending(clients[1..], req)
  }

  // How many values were got.
  function Gots(exits: seq<Exit>): nat {
    if exits == [] then 0 else Gots(exits[..|exits| - 1]) + if exits[|exits| - 1].fate == Got then 1 else 0
  }

  // How often this was done.
  function Served(m: Monitor, req: Request): nat {
    match req
    case Put(v) => multiset(m.puts)[v]
    case Get => Gots(m.exits)
    case Peek => 0
  }

  // How often a step, or a run, calls for it.
  function Calls(m: Monitor, e: Event, req: Request): nat {
    if e.Call? && e.req == req && e.i < |m.clients| && m.clients[e.i] == Idle then 1 else 0
  }

  function AllCalls(m: Monitor, es: seq<Event>, req: Request): nat
    requires |m.ring.data| > 0
    decreases |es|
  {
    if es == [] then 0 else Calls(m, es[0], req) + AllCalls(Step(m, es[0]), es[1..], req)
  }

  lemma {:induction false} PendingUpdate(clients: seq<Client>, i: nat, c: Client, req: Request)
    requires i < |clients|
    ensures Pending(clients[i := c], req) + Asking(clients[i], req) == Pending(clients, req) + Asking(c, req)
  {
    if i == 0 {
      assert clients[i := c][1..] == clients[1..];
    } else {
      assert clients[i := c][1..] == clients[1..][i - 1 := c];
      PendingUpdate(clients[1..], i - 1, c, req);
    }
  }

  // Being notified leaves a client in its call.
  lemma {:induction false} PendingNotified(clients: seq<Client>, putters: bool, req: Request)
    ensures Pending(Notify(clients, putters), req) == Pending(clients, req)
  {
    if clients == [] {
    } else {
      assert Notify(clients, putters)[1..] == Notify(clients[1..], putters);
      PendingNotified(clients[1..], putters, req);
    }
  }

  lemma {:induction false} GotsConcat(a: seq<Exit>, b: seq<Exit>)
    requires forall x :: x in b ==> x.fate != Got
    ensures Gots(a + b) == Gots(a)
  {
    if b == [] {
      assert a + b == a;
    } else {
      var n := |b| - 1;
      assert (a + b)[..|a + b| - 1] == a + b[..n] && (a + b)[|a + b| - 1] == b[n];
      GotsConcat(a, b[..n]);
    }
  }

  lemma GotsAppend(a: seq<Exit>, x: Exit)
    ensures Gots(a + [x]) == Gots(a) + if x.fate == Got then 1 else 0
  {
    assert (a + [x])[..|a|] == a;
  }

  // What was done, or is about to be.
  function Accounted(m: Monitor, req: Request): nat {
    Served(m, req) + Pending(m.clients, req)
  }

  // A pass that is refused ends its call with nothing done.
  predicate Refused(m: Monitor, i: nat)
    requires |m.ring.data| > 0 && i < |m.clients| && m.clients[i].Trying?
  {
    Attempting(m, m.clients[i].req).outcome.NotOperational? || Attempting(m, m.clients[i].req).outcome.PointerError?
  }

  lemma ServedOne(m: Monitor, i: nat, req: Request)
    requires |m.ring.data| > 0 && i < |m.clients| && m.clients[i].Trying? && req != Peek
    requires Attempting(m, m.clients[i].req).outcome == Done
    ensures Served(TryStep(m, i), req) == Served(m, req) + Asking(m.clients[i], req)
  {
    GotsAppend(m.exits, Exit(Attempting(m, m.clients[i].req).value, Got));
  }

  lemma TryAccounted(m: Monitor, i: nat, req: Request)
    requires |m.ring.data| > 0 && i < |m.clients| && m.clients[i].Trying? && req != Peek
    ensures Accounted(TryStep(m, i), req)
         == Accounted(m, req) - if Refused(m, i) then Asking(m.clients[i], req) else 0
  {
    PendingUpdate(m.clients, i, Idle, req);
    PendingUpdate(m.clients, i, Asleep(m.clients[i].req), req);
    PendingNotified(m.clients[i := Idle], false, req);
    PendingNotified(m.clients[i := Idle], true, req);
    if Attempting(m, m.clients[i].req).outcome == Done {
      ServedOne(m, i, req);
    }
  }

  lemma EmptiedAccounted(m: Monitor, free: bool, req: Request)
    requires |m.ring.data| > 0
    ensures Accounted(Emptied(m, free), req) == Accounted(m, req)
  {
    GotsConcat(m.exits, Exits(CleanFreeing(m.ring, free && m.hasDelProc).1, Freed));
    GotsConcat(m.exits, []);
    if Shaped(m.ring) {
      GotsConcat(m.exits, Exits(Contents(m.ring), Dropped));
    }
  }

  // How many calls a step ends with nothing done.
  function Lost(m: Monitor, e: Event, req: Request): nat
    requires |m.ring.data| > 0
  {
    match e
    case GiveUp(i) => if i < |m.clients| && m.clients[i].Asleep? then Asking(m.clients[i], req) else 0
    case Try(i) =>
      if i < |m.clients| && m.clients[i].Trying? && Refused(m, i) then Asking(m.clients[i], req) else 0
    case _ => 0
  }

  lemma ClientAccounted(m: Monitor, e: Event, req: Request)
    requires |m.ring.data| > 0 && req != Peek && (e.Call? || e.Try? || e.WakeUp? || e.GiveUp?) && e.i < |m.clients|
    ensures Accounted(Step(m, e), req) + Lost(m, e, req) == Accounted(m, req) + Calls(m, e, req)
  {
    match e
    case Call(i, r) => PendingUpdate(m.clients, i, Trying(r), req);
    case Try(i) =>
      if m.clients[i].Trying? {
        TryAccounted(m, i, req);
      }
    case WakeUp(i) =>
      if m.clients[i].Asleep? {
        PendingUpdate(m.clients, i, Trying(m.clients[i].req), req);
      }
    case GiveUp(i) => PendingUpdate(m.clients, i, Idle, req);
  }

  lemma StepAccounted(m: Monitor, e: Event, req: Request)
    requires |m.ring.data| > 0 && req != Peek
    ensures Accounted(Step(m, e), req) + Lost(m, e, req) == Accounted(m, req) + Calls(m, e, req)
  {
    match e
    case Clear(free) =>
      EmptiedAccounted(m, free, req);
      PendingNotified(m.clients, true, req);
    case Shutdown(free) =>
      EmptiedAccounted(m, free, req);
      PendingNotified(m.clients, false, req);
      PendingNotified(Notify(m.clients, false), true, req);
    case Register(_, _, _) =>
    case _ =>
      if e.i < |m.clients| {
        ClientAccounted(m, e, req);
      }
  }

  lemma {:induction false} RunAccounted(m: Monitor, es: seq<Event>, req: Request)
    requires |m.ring.data| > 0 && req != Peek
    ensures Accounted(Run(m, es), req) <= Accounted(m, req) + AllCalls(m, es, req)
    decreases |es|
  {
    if es == [] {
    } else {
      StepAccounted(m, es[0], req);
      RunAccounted(Step(m, es[0]), es[1..], req);
    }
  }

  lemma {:induction false} NobodyPending(n: nat, req: Request)
    ensures Pending(seq(n, _ => Idle), req) == 0
  {
    if n > 0 {
      assert seq(n, _ => Idle)[1..] == seq(n - 1, _ => Idle);
      NobodyPending(n - 1, req);
    }
  }

  /**
   * For any number of threads and any interleaving, spurious wakeups included, a call is served at most once:
   * whatever is asked for, it was done no more often than called for, calls still pending counted as done.
   */
  lemma OncePerCall(n: nat, max: int, hasDelProc: bool, es: seq<Event>, req: Request)
    requires 0 < max && req != Peek
    ensures var m0 := Init(n, max, hasDelProc); var m := Run(m0, es);
      Served(m, req) + Pending(m.clients, req) <= AllCalls(m0, es, req)
  {
    NobodyPending(n, req);
    RunAccounted(Init(n, max, hasDelProc), es, req);
  }

  // Nobody gives up and the buffer stays in operation.
  predicate Patient(es: seq<Event>) {
    forall e :: e in es ==> !e.GiveUp? && !e.Shutdown?
  }

  lemma StaysOperational(m: Monitor, e: Event)
    requires |m.ring.data| > 0 && !e.Shutdown?
    ensures Step(m, e).ring.operational == m.ring.operational
  {}

  lemma NothingLost(m: Monitor, e: Event, req: Request)
    requires Inv(m) && m.ring.operational && !e.GiveUp?
    ensures Lost(m, e, req) == 0
  {
    if e.Try? && e.i < |m.clients| && m.clients[e.i].Trying? {
      NoPointerError(m, m.clients[e.i].req);
    }
  }

  lemma PatientStep(m: Monitor, e: Event, req: Request)
    requires Inv(m) && m.ring.operational && !e.GiveUp? && !e.Shutdown? && req != Peek
    ensures Accounted(Step(m, e), req) == Accounted(m, req) + Calls(m, e, req) && Step(m, e).ring.operational
  {
    StepAccounted(m, e, req);
    NothingLost(m, e, req);
    StaysOperational(m, e);
  }

  lemma {:induction false} PatientRun(m: Monitor, es: seq<Event>, req: Request)
    requires Inv(m) && m.ring.operational && Patient(es) && AlwaysBounded(m, es) && req != Peek
    ensures Accounted(Run(m, es), req) == Accounted(m, req) + AllCalls(m, es, req)
    decreases |es|
  {
    if es == [] {
    } else {
      assert es[0] in es;
      PatientStep(m, es[0], req);
      StepKeeps(m, es[0]);
      PatientRun(Step(m, es[0]), es[1..], req);
    }
  }

  /** As long as nobody gives up and the buffer is not shut down, every call was served once or still is pending. */
  lemma EveryCallServed(n: nat, max: int, hasDelProc: bool, es: seq<Event>, req: Request)
    requires 0 < max < TWO63 - 1 && req != Peek && Patient(es) && AlwaysBounded(Init(n, max, hasDelProc), es)
    ensures var m0 := Init(n, max, hasDelProc); var m := Run(m0, es);
      Served(m, req) + Pending(m.clients, req) == AllCalls(m0, es, req)
  {
    InitInv(n, max, hasDelProc);
    NobodyPending(n, req);
    PatientRun(Init(n, max, hasDelProc), es, req);
  }
}
