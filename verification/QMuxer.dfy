/** Polling many queues with one muxer: who is registered where, and what a registration is worth. */
module QMuxers {
  import opened Basics
  import opened Bits
  import opened Rings

  // ---------------------------------------------------------------- one queue between polls

  /** A queue, and whether its muxer was notified since it was last set up. */
  datatype Watched = Watched(ring: Ring, notified: bool)

  datatype Event =
    | PutValue(value: Value)
    | GetValue
    | PeekValue
    | Clear
    | Shutdown
    | SetUp(qmuxer: Ptr, poll: Poll, isPre: bool)

  function Step(w: Watched, e: Event): Watched
    requires |w.ring.data| > 0
  {
    match e
    case PutValue(v) =>
      var t := TryPut(w.ring, v);
      Watched(t.after, w.notified || t.notified)
    case GetValue =>
      var t := TryGet(w.ring);
      Watched(t.after, w.notified || t.notified)
    case PeekValue => w.(ring := TryPeek(w.ring).after)
    case Clear =>
      Watched(Clean(w.ring), w.notified || (w.ring.reg.qmuxer != NULL && NeedWaitReadable(w.ring.reg.poll)))
    case Shutdown =>
      if !w.ring.operational then w
      else Watched(Clean(w.ring).(operational := false), w.notified || w.ring.reg.qmuxer != NULL)
    case SetUp(qmuxer, poll, isPre) =>
      var (ring, ret) := Setup(w.ring, qmuxer, poll, isPre);
      if ret.Failed? then w else Watched(ring, false)
  }

  function Run(w: Watched, es: seq<Event>): Watched
    requires |w.ring.data| > 0
    decreases |es|
  {
    if es == [] then w
    else
      StepSize(w, es[0]);
      Run(Step(w, es[0]), es[1..])
  }

  lemma StepSize(w: Watched, e: Event)
    requires |w.ring.data| > 0
    ensures |Step(w, e).ring.data| == |w.ring.data|
  {}

  predicate Pending(w: Watched) {
    w.ring.reg.qmuxer != NULL && !w.notified
  }

  // A muxer that was not notified has missed nothing: the queue it waits to read is empty, the queue it
  // waits to write is full. A queue is never registered for both.
  predicate Honest(w: Watched) {
    Pending(w) ==>
      || (w.ring.reg.poll == Readable && w.ring.n == 0)
      || (w.ring.reg.poll == Writable && w.ring.n == w.ring.max)
  }

  predicate Proper(w: Watched) {
    |w.ring.data| > 0 && 0 <= w.ring.n <= w.ring.max && 0 < w.ring.max
  }

  predicate Fine(e: Event) {
    e.SetUp? ==> e.qmuxer != NULL
  }

  /** Every operation keeps a registration honest, except clearing a queue that is waited for to write. */
  lemma HonestExactly(w: Watched, e: Event)
    requires Proper(w) && Honest(w) && Fine(e)
    ensures Honest(Step(w, e)) <==> !(e.Clear? && Pending(w) && w.ring.reg.poll == Writable)
  {}

  /**
   * A muxer with an honest registration is notified exactly when the queue changes under it by a put or a get,
   * when it is shut down, or when it is cleared while being waited for to read, which changes nothing.
   */
  lemma NotifiedExactly(w: Watched, e: Event)
    requires Proper(w) && Honest(w) && Pending(w) && !e.SetUp?
    ensures Step(w, e).notified <==>
      if e.Clear? then w.ring.reg.poll == Readable
      else if e.Shutdown? then w.ring.operational
      else Step(w, e).ring.n != w.ring.n
  {}

  lemma StepProper(w: Watched, e: Event)
    requires Proper(w)
    ensures Proper(Step(w, e))
  {}

  /** In runs without clear every registration stays honest, whatever else is done to the queue. */
  lemma {:induction false} HonestWithoutClear(w: Watched, es: seq<Event>)
    requires Proper(w) && Honest(w) && Clear !in es && forall e :: e in es ==> Fine(e)
    ensures Honest(Run(w, es))
    decreases |es|
  {
    if es == [] {
    } else {
      assert Fine(es[0]);
      StepProper(w, es[0]);
      HonestExactly(w, es[0]);
      HonestWithoutClear(Step(w, es[0]), es[1..]);
    }
  }

  lemma {:induction false} RunThen(w: Watched, es: seq<Event>, e: Event)
    requires |w.ring.data| > 0
    ensures |Run(w, es).ring.data| == |w.ring.data| && Run(w, es + [e]) == Step(Run(w, es), e)
    decreases |es|
  {
    if es == [] {
      assert [e][1..] == [] && es + [e] == [e];
    } else {
      assert (es + [e])[1..] == es[1..] + [e];
      StepSize(w, es[0]);
      RunThen(Step(w, es[0]), es[1..], e);
    }
  }

  lemma {:induction false} FillUp(max: nat, k: nat) returns (es: seq<Event>)
    requires 0 < max < TWO63 - 1 && k <= max
    ensures var b := Run(Watched(Create(max), false), es).ring;
      b.n == k == b.w && b.max == max && |b.data| == max + 1 && b.operational && b.reg == NOT_REGISTERED
  {
    if k == 0 {
      es := [];
    } else {
      es := FillUp(max, k - 1);
      RunThen(Watched(Create(max), false), es, PutValue(NULL));
      es := es + [PutValue(NULL)];
    }
  }

  /** For every buffer there is a run in which a clear leaves a muxer waiting to write to an empty queue. */
  lemma ClearMisses(max: nat, qmuxer: Ptr) returns (es: seq<Event>)
    requires 0 < max < TWO63 - 1 && qmuxer != NULL
    ensures var w := Run(Watched(Create(max), false), es);
      && |w.ring.data| > 0 && Honest(w) && w.ring.reg == Registration(qmuxer, Writable)
      && var w' := Step(w, Clear); w'.ring.reg == w.ring.reg && !w'.notified && w'.ring.n == 0 && !Honest(w')
  {
    var w0 := Watched(Create(max), false);
    es := FillUp(max, max);
    RunThen(w0, es, SetUp(qmuxer, Writable, true));
    es := es + [SetUp(qmuxer, Writable, true)];
  }

  // ---------------------------------------------------------------- setting up all polls

  /** A poll object: its queue, NoQueue for a NULL one, the events it waits for, and the sizes it saw. */
  datatype PollSlot = NoPoll | NoQueue(size: int, rem: int) | OnQueue(q: nat, poll: Poll, size: int, rem: int)

  datatype PassResult = Events(n: nat) | NotOperationalError | InvalidArgs

  predicate ReadyFor(b: Ring, poll: Poll) {
    b.operational && !(NeedWaitReadable(poll) && b.n == 0) && !(NeedWaitWritable(poll) && b.n == b.max)
  }

  predicate InRange(polls: seq<PollSlot>, queues: seq<Ring>) {
    forall i :: 0 <= i < |polls| && polls[i].OnQueue? ==> polls[i].q < |queues|
  }

  // How many polls find their queue ready.
  function CountReady(polls: seq<PollSlot>, queues: seq<Ring>): nat
    requires InRange(polls, queues)
  {
    if polls == [] then 0
    else
      var last := polls[|polls| - 1];
      CountReady(polls[..|polls| - 1], queues)
      + if last.OnQueue? && ReadyFor(queues[last.q], last.poll) then 1 else 0
  }

  // Whether a pre-wait pass stops at this poll.
  predicate Bad(slot: PollSlot, queues: seq<Ring>)
    requires slot.OnQueue? ==> slot.q < |queues|
  {
    slot.NoPoll? || (slot.OnQueue? && !queues[slot.q].operational)
  }

  // What a queue is registered for by a poll that has to wait for it.
  function Awaited(b: Ring): Poll {
    if b.n == 0 then Readable else Writable
  }

  // The queues as they were, but for registrations.
  predicate SameQueues(queues: seq<Ring>, before: seq<Ring>) {
    |queues| == |before| && forall q :: 0 <= q < |queues| ==> queues[q] == before[q].(reg := queues[q].reg)
  }

  // Poll i has written the sizes it saw.
  predicate SizesSeen(slot: PollSlot, before: PollSlot, queues: seq<Ring>)
    requires before.OnQueue? ==> before.q < |queues|
  {
    match before
    case NoPoll => slot == before
    case NoQueue(_, _) => slot == NoQueue(0, 0)
    case OnQueue(q, poll, _, _) =>
      var b := queues[q];
      slot == if b.operational then OnQueue(q, poll, b.n, b.max - b.n) else before
  }

  lemma CountStep(polls: seq<PollSlot>, queues: seq<Ring>, i: nat)
    requires InRange(polls, queues) && i < |polls|
    ensures CountReady(polls[..i + 1], queues) ==
      CountReady(polls[..i], queues)
      + if polls[i].OnQueue? && ReadyFor(queues[polls[i].q], polls[i].poll) then 1 else 0
  {
    assert polls[..i + 1][..i] == polls[..i];
  }

  // What visiting one poll does to it and to the queues, and what it counts.
  function Visited(slot: PollSlot, queues: seq<Ring>, qmuxer: Ptr, isPre: bool): (PollSlot, seq<Ring>, int)
    requires slot.OnQueue? ==> slot.q < |queues|
  {
    match slot
    case NoPoll => (slot, queues, 0)
    case NoQueue(_, _) => (NoQueue(0, 0), queues, 0)
    case OnQueue(q, poll, _, _) =>
      var (ring, st) := Setup(queues[q], qmuxer, poll, isPre);
      (if ring.operational then OnQueue(q, poll, ring.n, ring.max - ring.n) else slot,
       queues[q := ring],
       if st == Ready then 1 else 0)
  }

  // Queue q waits for this muxer, poll i having found nothing to do.
  predicate Registered(slot: PollSlot, queues: seq<Ring>, before: seq<Ring>, qmuxer: Ptr)
    requires slot.OnQueue? ==> slot.q < |queues| && slot.q < |before|
  {
    slot.OnQueue? ==>
      queues[slot.q].reg == Registration(qmuxer, Awaited(before[slot.q])) && !ReadyFor(before[slot.q], slot.poll)
  }

  predicate Unregistered(slot: PollSlot, queues: seq<Ring>)
    requires slot.OnQueue? ==> slot.q < |queues|
  {
    slot.OnQueue? && queues[slot.q].operational ==> queues[slot.q].reg == NOT_REGISTERED
  }

  predicate SizesOk(queues: seq<Ring>) {
    forall q :: 0 <= q < |queues| ==> 0 <= queues[q].n <= queues[q].max && 0 < queues[q].max
  }

  // The state of a pass that has visited i polls without having to stop.
  predicate Midway(i: nat, polls: seq<PollSlot>, queues: seq<Ring>, polls0: seq<PollSlot>, queues0: seq<Ring>,
                   qmuxer: Ptr, isPre: bool, nNulls: nat, nev: nat)
  {
    && i <= |polls| == |polls0| && InRange(polls0, queues0) && SizesOk(queues0) && SameQueues(queues, queues0)
    && nev == CountReady(polls0[..i], queues0)
    && nNulls <= i && (nNulls == i <==> forall j :: 0 <= j < i ==> polls0[j].NoQueue?)
    && (isPre ==> forall j :: 0 <= j < i ==> !Bad(polls0[j], queues0))
    && (forall j :: 0 <= j < i ==> SizesSeen(polls[j], polls0[j], queues0))
    && (forall j :: i <= j < |polls| ==> polls[j] == polls0[j])
    && (isPre && nev == 0 ==> forall j :: 0 <= j < i ==> Registered(polls0[j], queues, queues0, qmuxer))
    && (!isPre ==> forall j :: 0 <= j < i ==> Unregistered(polls0[j], queues))
  }

  lemma MidwayStep(i: nat, polls: seq<PollSlot>, queues: seq<Ring>, polls0: seq<PollSlot>, queues0: seq<Ring>,
                   qmuxer: Ptr, isPre: bool, nNulls: nat, nev: nat)
    requires Midway(i, polls, queues, polls0, queues0, qmuxer, isPre, nNulls, nev) && i < |polls|
    requires !(isPre && Bad(polls0[i], queues0))
    ensures var (slot, queues', n) := Visited(polls[i], queues, qmuxer, isPre);
      Midway(i + 1, polls[i := slot], queues', polls0, queues0, qmuxer, isPre,
             if polls[i].NoQueue? then nNulls + 1 else nNulls, nev + n)
  {
    CountStep(polls0, queues0, i);
  }

  // The poll a pre-wait pass stops at: the first bad one.
  predicate StopsAt(i: nat, polls: seq<PollSlot>, queues: seq<Ring>)
    requires InRange(polls, queues)
  {
    i < |polls| && Bad(polls[i], queues) && forall j :: 0 <= j < i ==> !Bad(polls[j], queues)
  }

  // Sets up one poll.
  method VisitPoll(i: nat, qmuxer: Ptr, polls: array<PollSlot>, queues: array<Ring>, isPre: bool)
    returns (failed: bool, n: nat)
    requires i < polls.Length && (polls[i].OnQueue? ==> polls[i].q < queues.Length)
    modifies polls, queues
    ensures var (slot, queues', n') := Visited(old(polls[i]), old(queues[..]), qmuxer, isPre);
      polls[..] == old(polls[..])[i := slot] && queues[..] == queues' && n == n'
    ensures failed <==> Bad(old(polls[i]), old(queues[..]))
    ensures polls[i].NoPoll? == old(polls[i]).NoPoll? && polls[i].NoQueue? == old(polls[i]).NoQueue?
  {
    failed, n := false, 0;
    match polls[i] {
    case NoPoll =>
      failed := true;
      assert polls[..][i := NoPoll] == polls[..];
    case NoQueue(_, _) =>
      polls[i] := NoQueue(0, 0);
    case OnQueue(q, poll, _, _) =>
      var (ring, st) := Setup(queues[q], qmuxer, poll, isPre);
      queues[q] := ring;
      n := if st == Ready then 1 else 0;
      failed := st.Failed?;
      if ring.operational {
        polls[i] := OnQueue(q, poll, ring.n, ring.max - ring.n);
      } else {
        assert polls[..][i := polls[i]] == polls[..];
      }
    }
  }

  /**
   * One pass over all polls. Before the wait it stops at the first missing poll object or dead queue; if
   * there is none it returns exactly how many polls have something to do, and if nothing is to be done,
   * every queue is registered with the muxer for what is being waited for. After the wait errors are passed
   * over, and no queue that is alive stays registered.
   */
  method SetupForPoll(qmuxer: Ptr, polls: array<PollSlot>, queues: array<Ring>, isPre: bool)
    returns (ret: PassResult, ghost stop: nat)
    requires qmuxer != NULL && InRange(polls[..], queues[..]) && SizesOk(queues[..])
    modifies polls, queues
    ensures SameQueues(queues[..], old(queues[..])) && stop <= polls.Length
    ensures stop < polls.Length ==> isPre && StopsAt(stop, old(polls[..]), old(queues[..]))
    ensures stop < polls.Length ==> ret == if old(polls[stop]).NoPoll? then InvalidArgs else NotOperationalError
    ensures stop == polls.Length ==>
      && (isPre ==> forall i :: 0 <= i < polls.Length ==> !Bad(old(polls[..])[i], old(queues[..])))
      && ret == (if forall i :: 0 <= i < polls.Length ==> old(polls[..])[i].NoQueue? then InvalidArgs
                 else Events(CountReady(old(polls[..]), old(queues[..]))))
      && (forall i :: 0 <= i < polls.Length ==> SizesSeen(polls[i], old(polls[..])[i], old(queues[..])))
      && (isPre && ret == Events(0) ==>
            forall i :: 0 <= i < polls.Length ==> Registered(old(polls[..])[i], queues[..], old(queues[..]), qmuxer))
      && (!isPre ==> forall i :: 0 <= i < polls.Length ==> Unregistered(old(polls[..])[i], queues[..]))
  {
    stop := polls.Length;
    if polls.Length == 0 {
      return InvalidArgs, stop;
    }
    ghost var polls0, queues0 := polls[..], queues[..];
    var nNulls, nev := 0, 0;
    var i := 0;
    while i < polls.Length
      invariant 0 <= i <= polls.Length
      invariant Midway(i, polls[..], queues[..], polls0, queues0, qmuxer, isPre, nNulls, nev)
    {
      if !(isPre && Bad(polls0[i], queues0)) {
        MidwayStep(i, polls[..], queues[..], polls0, queues0, qmuxer, isPre, nNulls, nev);
      }
      var failed, n := VisitPoll(i, qmuxer, polls, queues, isPre);
      if isPre && failed {
        return if polls[i].NoPoll? then InvalidArgs else NotOperationalError, i;
      }
      nNulls := if polls[i].NoQueue? then nNulls + 1 else nNulls;
      nev := nev + n;
      i := i + 1;
    }
    assert polls0[..polls.Length] == polls0;
    ret := if nNulls == polls.Length then InvalidArgs else Events(nev);
  }
}
