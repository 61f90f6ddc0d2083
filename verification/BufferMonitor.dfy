/**
 * Any number of threads putting into, getting from and peeking at one circular buffer: the steps they take
 * while holding its lock, with sleeping, waking up for no reason and timing out in between.
 */
module BufferMonitor {
  import opened Basics
  import opened Bits
  import opened Rings

  datatype Request = Put(value: Value) | Get | Peek

  /** A thread outside the buffer, about to make a pass through an operation, or asleep and not notified. */
  datatype Client = Idle | Trying(req: Request) | Asleep(req: Request)

  datatype Fate = Got | Freed | Dropped

  /** A value that left the buffer, and how. */
  datatype Exit = Exit(value: Value, fate: Fate)

  datatype Monitor = Monitor(ring: Ring, hasDelProc: bool, clients: seq<Client>, puts: seq<Value>, exits: seq<Exit>,
                             recent: nat)   // puts since the buffer was last emptied

  datatype Event =
    | Call(i: nat, req: Request)
    | Try(i: nat)
    | WakeUp(i: nat)
    | GiveUp(i: nat)
    | Clear(free: bool)
    | Shutdown(free: bool)
    | Register(qmuxer: Ptr, poll: Poll, isPre: bool)

  function Init(n: nat, max: int, hasDelProc: bool): Monitor
    requires 0 < max
  {
    Monitor(Create(max), hasDelProc, seq(n, _ => Idle), [], [], 0)
  }

  // Broadcasting the condition of the putters, or that of the getters and peekers.
  function Notify(clients: seq<Client>, putters: bool): (r: seq<Client>)
    ensures |r| == |clients|
    ensures forall i :: 0 <= i < |r| ==>
      r[i] == if clients[i].Asleep? && clients[i].req.Put? == putters then Trying(clients[i].req) else clients[i]
  {
    seq(|clients|, i requires 0 <= i < |clients| =>
      if clients[i].Asleep? && clients[i].req.Put? == putters then Trying(clients[i].req) else clients[i])
  }

  function Exits(values: seq<Value>, fate: Fate): (r: seq<Exit>)
    ensures |r| == |values| && forall i :: 0 <= i < |r| ==> r[i] == Exit(values[i], fate)
  {
    seq(|values|, i requires 0 <= i < |values| => Exit(values[i], fate))
  }

  function Attempting(m: Monitor, req: Request): Attempt
    requires |m.ring.data| > 0
  {
    match req
    case Put(v) => TryPut(m.ring, v)
    case Get => TryGet(m.ring)
    case Peek => TryPeek(m.ring)
  }

  // One pass of client i through its operation.
  function TryStep(m: Monitor, i: nat): Monitor
    requires |m.ring.data| > 0 && i < |m.clients| && m.clients[i].Trying?
  {
    var req := m.clients[i].req;
    var t := Attempting(m, req);
    match t.outcome
    case Blocked => m.(ring := t.after, clients := m.clients[i := Asleep(req)])
    case Done =>
      var out := m.(ring := t.after, clients := m.clients[i := Idle]);
      (match req
       case Put(v) => out.(clients := Notify(out.clients, false), puts := m.puts + [v], recent := m.recent + 1)
       case Get => out.(clients := Notify(out.clients, true), exits := m.exits + [Exit(t.value, Got)])
       case Peek => out)
    case _ => m.(ring := t.after, clients := m.clients[i := Idle])
  }

  // Emptying the buffer; the values go to the free procedure or are dropped.
  function Emptied(m: Monitor, free: bool): Monitor
    requires |m.ring.data| > 0
  {
    var freeing := free && m.hasDelProc;
    var (ring, freed) := CleanFreeing(m.ring, freeing);
    m.(ring := ring, recent := 0,
       exits := m.exits + if freeing then Exits(freed, Freed)
                          else if Shaped(m.ring) then Exits(Contents(m.ring), Dropped) else [])
  }

  function Step(m: Monitor, e: Event): (m': Monitor)
    requires |m.ring.data| > 0
    ensures |m'.ring.data| == |m.ring.data| && |m'.clients| == |m.clients| && m'.hasDelProc == m.hasDelProc
    ensures m.puts <= m'.puts
  {
    match e
    case Call(i, req) =>
      if i < |m.clients| && m.clients[i] == Idle then m.(clients := m.clients[i := Trying(req)]) else m
    case Try(i) => if i < |m.clients| && m.clients[i].Trying? then TryStep(m, i) else m
    case WakeUp(i) =>
      if i < |m.clients| && m.clients[i].Asleep? then m.(clients := m.clients[i := Trying(m.clients[i].req)]) else m
    case GiveUp(i) => if i < |m.clients| && m.clients[i].Asleep? then m.(clients := m.clients[i := Idle]) else m
    case Clear(free) =>
      var out := Emptied(m, free);
      out.(clients := Notify(out.clients, true))
    case Shutdown(free) =>
      if !m.ring.operational then m
      else
        var out := Emptied(m, free);
        out.(ring := out.ring.(operational := false), clients := Notify(Notify(out.clients, false), true))
    case Register(qmuxer, poll, isPre) => m.(ring := Setup(m.ring, qmuxer, poll, isPre).0)
  }

  // A run is any sequence of events whatsoever.
  function Run(m: Monitor, es: seq<Event>): (m': Monitor)
    requires |m.ring.data| > 0
    ensures |m'.ring.data| == |m.ring.data| && |m'.clients| == |m.clients| && m.puts <= m'.puts
    decreases |es|
  {
    if es == [] then m else Run(Step(m, es[0]), es[1..])
  }

  // ---------------------------------------------------------------- what every step keeps

  // The write index has not wrapped, for want of puts, or may wrap without harm.
  predicate Bounded(m: Monitor) {
    Aligned(m.ring) || m.recent < TWO63
  }

  // So it is all along a run.
  predicate AlwaysBounded(m: Monitor, es: seq<Event>)
    requires |m.ring.data| > 0
    decreases |es|
  {
    Bounded(m) && (es == [] || AlwaysBounded(Step(m, es[0]), es[1..]))
  }

  // A sleeper has a reason to sleep.
  predicate SleeperOk(b: Ring, c: Client) {
    c.Asleep? ==> b.operational && b.n == if c.req.Put? then b.max else 0
  }

  predicate SleepersOk(m: Monitor) {
    forall i :: 0 <= i < |m.clients| ==> SleeperOk(m.ring, m.clients[i])
  }

  function Values(exits: seq<Exit>): (r: seq<Value>)
    ensures |r| == |exits| && forall i :: 0 <= i < |r| ==> r[i] == exits[i].value
  {
    seq(|exits|, i requires 0 <= i < |exits| => exits[i].value)
  }

  // What was put is what left, in order, followed by what is still there.
  predicate LogOk(m: Monitor) {
    Shaped(m.ring) && m.puts == Values(m.exits) + Contents(m.ring)
  }

  predicate RingOk(m: Monitor) {
    Sound(m.ring) && (Aligned(m.ring) || m.ring.w == m.recent)
  }

  predicate Inv(m: Monitor) {
    RingOk(m) && LogOk(m) && SleepersOk(m)
  }

  lemma ExitsJoin(puts: seq<Value>, exits: seq<Exit>, values: seq<Value>, rest: seq<Value>, fate: Fate)
    requires puts == Values(exits) + (values + rest)
    ensures puts == Values(exits + Exits(values, fate)) + rest
  {
    assert Values(exits + Exits(values, fate)) == Values(exits) + values;
  }

  lemma PutKeeps(m: Monitor, i: nat)
    requires Inv(m) && i < |m.clients| && m.clients[i].Trying? && m.clients[i].req.Put? && Bounded(TryStep(m, i))
    ensures Inv(TryStep(m, i))
  {
    PutAppends(m.ring, m.clients[i].req.value);
    AdjustKeeps(m.ring);
  }

  lemma NoPointerError(m: Monitor, req: Request)
    requires Inv(m)
    ensures Attempting(m, req).outcome != PointerError
  {
    match req
    case Put(v) => PutAppends(m.ring, v);
    case Get => GetTakesFirst(m.ring);
    case Peek => PeekShowsFirst(m.ring);
  }

  lemma GetKeeps(m: Monitor, i: nat)
    requires Inv(m) && i < |m.clients| && m.clients[i] == Trying(Get)
    ensures Inv(TryStep(m, i))
  {
    GetTakesFirst(m.ring);
    var t := TryGet(m.ring);
    if t.outcome == Done {
      ExitsJoin(m.puts, m.exits, [t.value], Contents(t.after), Got);
      assert Exits([t.value], Got) == [Exit(t.value, Got)];
    }
  }

  lemma PeekKeeps(m: Monitor, i: nat)
    requires Inv(m) && i < |m.clients| && m.clients[i] == Trying(Peek)
    ensures Inv(TryStep(m, i))
  {
    PeekShowsFirst(m.ring);
  }

  lemma EmptiedKeeps(m: Monitor, free: bool)
    requires Inv(m)
    ensures var out := Emptied(m, free);
      RingOk(out) && LogOk(out) && out.ring.n == 0 && out.ring.max == m.ring.max
      && out.ring.operational == m.ring.operational
      && out.clients == m.clients
  {
    CleanEmpties(m.ring, free && m.hasDelProc);
    assert Contents(m.ring) == Contents(m.ring) + [];
    ExitsJoin(m.puts, m.exits, Contents(m.ring), [], if free && m.hasDelProc then Freed else Dropped);
  }

  lemma RegisterKeeps(m: Monitor, e: Event)
    requires Inv(m) && e.Register?
    ensures Inv(Step(m, e))
  {
    var ring := Step(m, e).ring;
    assert ring == m.ring.(reg := ring.reg);
    assert Contents(ring) == Contents(m.ring);
  }

  lemma StepKeeps(m: Monitor, e: Event)
    requires Inv(m) && Bounded(Step(m, e))
    ensures Inv(Step(m, e))
  {
    match e
    case Try(i) =>
      if i < |m.clients| && m.clients[i].Trying? {
        match m.clients[i].req
        case Put(_) => PutKeeps(m, i);
        case Get => GetKeeps(m, i);
        case Peek => PeekKeeps(m, i);
      }
    case Clear(free) =>
      EmptiedKeeps(m, free);
    case Shutdown(free) =>
      EmptiedKeeps(m, free);
      var out := Emptied(m, free);
      assert Contents(out.ring.(operational := false)) == Contents(out.ring);
    case Register(_, _, _) => RegisterKeeps(m, e);
    case _ =>
  }

  lemma {:induction false} RunKeeps(m: Monitor, es: seq<Event>)
    requires Inv(m) && AlwaysBounded(m, es)
    ensures Inv(Run(m, es)) && Bounded(Run(m, es))
    decreases |es|
  {
    if es == [] {
    } else {
      StepKeeps(m, es[0]);
      RunKeeps(Step(m, es[0]), es[1..]);
    }
  }

  lemma InitInv(n: nat, max: int, hasDelProc: bool)
    requires 0 < max < TWO63 - 1
    ensures Inv(Init(n, max, hasDelProc))
  {}

  // ---------------------------------------------------------------- what holds over whole runs

  /**
   * First in, first out, for any interleaving: the values put are the values that left, in order, followed
   * by the queue, as long as never 2 to the 63 values are put without the buffer being emptied in between,
   * or if the slot count divides that number.
   */
  lemma FirstInFirstOut(n: nat, max: int, hasDelProc: bool, es: seq<Event>)
    requires 0 < max < TWO63 - 1
    requires AlwaysBounded(Init(n, max, hasDelProc), es)
    ensures var m := Run(Init(n, max, hasDelProc), es);
      Shaped(m.ring) && m.puts == Values(m.exits) + Contents(m.ring)
  {
    InitInv(n, max, hasDelProc);
    RunKeeps(Init(n, max, hasDelProc), es);
  }

  /**
   * No wakeup is lost: an unnotified putter faces a full buffer and an unnotified getter or peeker an empty
   * one, so never both; nobody stays asleep after a shutdown; and no pass meets a pointer error.
   */
  lemma NoLostWakeup(n: nat, max: int, hasDelProc: bool, es: seq<Event>, i: nat, j: nat)
    requires 0 < max < TWO63 - 1 && i < n && j < n
    requires AlwaysBounded(Init(n, max, hasDelProc), es)
    ensures var m := Run(Init(n, max, hasDelProc), es);
      && Shaped(m.ring) && (m.clients[i].Asleep? ==> m.ring.operational)
      && (m.clients[i].Asleep? && m.clients[i].req.Put? ==> |Contents(m.ring)| == m.ring.max)
      && (m.clients[i].Asleep? && !m.clients[i].req.Put? ==> |Contents(m.ring)| == 0)
      && (m.clients[i].Asleep? && m.clients[j].Asleep? ==> m.clients[i].req.Put? == m.clients[j].req.Put?)
      && (m.clients[i].Trying? ==> Attempting(m, m.clients[i].req).outcome != PointerError)
  {
    InitInv(n, max, hasDelProc);
    var m := Run(Init(n, max, hasDelProc), es);
    RunKeeps(Init(n, max, hasDelProc), es);
    assert SleeperOk(m.ring, m.clients[i]) && SleeperOk(m.ring, m.clients[j]);
    if m.clients[i].Trying? {
      NoPointerError(m, m.clients[i].req);
    }
  }

  predicate Frees(e: Event) {
    (e.Clear? || e.Shutdown?) ==> e.free
  }

  /** With a free procedure and all free flags set, a value only leaves by being got or freed. */
  lemma {:induction false} NothingDropped(m: Monitor, es: seq<Event>)
    requires |m.ring.data| > 0 && m.hasDelProc && forall e :: e in es ==> Frees(e)
    requires forall x :: x in m.exits ==> x.fate != Dropped
    ensures forall x :: x in Run(m, es).exits ==> x.fate != Dropped
    decreases |es|
  {
    if es == [] {
    } else {
      assert Frees(es[0]);
      NothingDropped(Step(m, es[0]), es[1..]);
    }
  }

  /** Without a free procedure, or if no free flag is set, nothing is freed. */
  lemma {:induction false} NothingFreed(m: Monitor, es: seq<Event>)
    requires |m.ring.data| > 0 && (m.hasDelProc ==> forall e :: e in es && (e.Clear? || e.Shutdown?) ==> !e.free)
    requires forall x :: x in m.exits ==> x.fate != Freed
    ensures forall x :: x in Run(m, es).exits ==> x.fate != Freed
    decreases |es|
  {
    if es == [] {
    } else {
      assert es[0] in es;
      NothingFreed(Step(m, es[0]), es[1..]);
    }
  }

  function Count(exits: seq<Exit>, fate: Fate): (r: multiset<Value>) {
    if exits == [] then multiset{}
    else (if exits[0].fate == fate then multiset{exits[0].value} else multiset{}) + Count(exits[1..], fate)
  }

  lemma AddEither(v: multiset<Value>, a: multiset<Value>, b: multiset<Value>)
    ensures v + (a + b) == (v + a) + b && v + (a + b) == a + (v + b)
    ensures multiset{} + a == a
  {}

  lemma ValuesStep(exits: seq<Exit>)
    requires exits != []
    ensures multiset(Values(exits)) == multiset{exits[0].value} + multiset(Values(exits[1..]))
  {
    assert Values(exits) == [exits[0].value] + Values(exits[1..]);
  }

  lemma {:induction false} CountAll(exits: seq<Exit>)
    requires forall x :: x in exits ==> x.fate != Dropped
    ensures multiset(Values(exits)) == Count(exits, Got) + Count(exits, Freed)
  {
    if exits == [] {
      assert Values(exits) == [];
    } else {
      var rest, v := exits[1..], multiset{exits[0].value};
      assert exits[0] in exits;
      CountAll(rest);
      ValuesStep(exits);
      AddEither(v, Count(rest, Got), Count(rest, Freed));
      AddEither(v, Count(rest, Freed), multiset{});
      AddEither(v, Count(rest, Got), multiset{});
    }
  }

  /** Every value put was got, is still stored, or was freed, exactly once. */
  lemma Conservation(n: nat, max: int, es: seq<Event>)
    requires 0 < max < TWO63 - 1 && forall e :: e in es ==> Frees(e)
    requires AlwaysBounded(Init(n, max, true), es)
    ensures var m := Run(Init(n, max, true), es);
      Shaped(m.ring) && multiset(m.puts) == Count(m.exits, Got) + Count(m.exits, Freed) + multiset(Contents(m.ring))
  {
    FirstInFirstOut(n, max, true, es);
    NothingDropped(Init(n, max, true), es);
    CountAll(Run(Init(n, max, true), es).exits);
  }
}
