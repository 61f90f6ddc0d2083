/**
 * The circular buffer as a value: what one pass of put, get, peek, clear and shutdown does to it while the
 * lock is held, and how its ever-growing 64-bit indices stand for a queue.
 */
module Rings {
  import opened Basics
  import opened Bits

  datatype Poll = Unknown | Readable | Writable | Both

  predicate NeedWaitReadable(t: Poll) {
    t == Readable || t == Both
  }

  predicate NeedWaitWritable(t: Poll) {
    t == Writable || t == Both
  }

  /** The muxer a buffer is to notify, NULL for none, and of what. */
  datatype Registration = Registration(qmuxer: Ptr, poll: Poll)

  const NOT_REGISTERED := Registration(NULL, Unknown)

  datatype Ring = Ring(data: seq<Value>, r: int, w: int, n: int, max: int, operational: bool, reg: Registration)

  datatype Outcome = Done | Blocked | NotOperational | PointerError

  /** One pass through an operation: the buffer afterwards, a value read, and whether the muxer was notified. */
  datatype Attempt = Attempt(after: Ring, outcome: Outcome, value: Value, notified: bool)

  function Create(max: int): Ring
    requires 0 < max
  {
    Ring(seq(max + 1, _ => NULL), 0, 0, 0, max, true, NOT_REGISTERED)
  }

  // Incrementing a signed 64-bit integer, in two's complement.
  function Inc64(x: int): int {
    if x == 0x7fff_ffff_ffff_ffff then -0x8000_0000_0000_0000 else x + 1
  }

  // The remainder of division truncating toward zero.
  function Rem(x: int, m: nat): int
    requires m > 0
  {
    if x >= 0 then x % m else -(-x % m)
  }

  // Re-basing the indices once the write index has gone negative.
  function Adjust(b: Ring): (b': Ring)
    requires |b.data| > 0
    ensures b' == b.(r := b'.r, w := b'.w) && b'.w >= 0
  {
    if b.w >= 0 then b else b.(w := |b.data|, r := Rem(b.r, |b.data|))
  }

  // The slot of an index, -1 for none.
  function DataAddr(b: Ring, idx: int): (slot: int)
    requires |b.data| > 0
    ensures -1 <= slot < |b.data| && (slot >= 0 <==> idx >= 0)
  {
    if idx >= 0 then idx % |b.data| else -1
  }

  function TryPut(b: Ring, v: Value): Attempt
    requires |b.data| > 0
  {
    if !b.operational then Attempt(b, NotOperational, NULL, false)
    else
      var a := Adjust(b);
      if a.n < a.max then
        var dst := DataAddr(a, a.w);
        if dst >= 0 then
          Attempt(a.(data := a.data[dst := v], w := Inc64(a.w), n := a.n + 1), Done, NULL,
                  a.reg.qmuxer != NULL && NeedWaitReadable(a.reg.poll))
        else Attempt(a, PointerError, NULL, false)
      else Attempt(a, Blocked, NULL, false)
  }

  function TryGet(b: Ring): Attempt
    requires |b.data| > 0
  {
    if !b.operational then Attempt(b, NotOperational, NULL, false)
    else
      var a := Adjust(b);
      if a.n > 0 then
        var src := DataAddr(a, a.r);
        if src >= 0 then
          Attempt(a.(r := Inc64(a.r), n := a.n - 1), Done, a.data[src],
                  a.reg.qmuxer != NULL && NeedWaitWritable(a.reg.poll))
        else Attempt(a, PointerError, NULL, false)
      else Attempt(a, Blocked, NULL, false)
  }

  function TryPeek(b: Ring): Attempt
    requires |b.data| > 0
  {
    if !b.operational then Attempt(b, NotOperational, NULL, false)
    else
      var a := Adjust(b);
      if a.n > 0 then
        var src := DataAddr(a, a.r);
        if src >= 0 then Attempt(a, Done, a.data[src], false) else Attempt(a, PointerError, NULL, false)
      else Attempt(a, Blocked, NULL, false)
  }

  // The slot of the i-th index from r on.
  function Slot(r: int, i: int, m: nat): (slot: nat)
    requires m > 0
    ensures slot < m
  {
    (r + i) % m
  }

  // What a free procedure is called with: the slots from the read index up to the write index; there is
  // no slot for a negative index.
  function Between(b: Ring): seq<Value>
    requires |b.data| > 0
  {
    var first := if b.r < 0 then 0 else b.r;
    seq(if b.w < first then 0 else b.w - first, i requires i >= 0 => b.data[Slot(first, i, |b.data|)])
  }

  function Clean(b: Ring): Ring {
    b.(r := 0, w := 0, n := 0, data := seq(|b.data|, _ => NULL))
  }

  // The buffer cleaned, and the values the free procedure was called with.
  function CleanFreeing(b: Ring, freeing: bool): (Ring, seq<Value>)
    requires |b.data| > 0
  {
    (Clean(b), if freeing then Between(Adjust(b)) else [])
  }

  datatype SetupResult = Ready | Wait(poll: Poll) | Failed

  // Asking whether a muxer has to wait for the buffer and, ahead of its wait, registering it.
  function Setup(b: Ring, qmuxer: Ptr, poll: Poll, isPre: bool): (Ring, SetupResult) {
    if !b.operational then (b, Failed)
    else
      var ret := if NeedWaitReadable(poll) && b.n == 0 then Wait(Readable)
                 else if NeedWaitWritable(poll) && b.max - b.n == 0 then Wait(Writable)
                 else Ready;
      (b.(reg := if isPre && ret.Wait? then Registration(qmuxer, ret.poll) else NOT_REGISTERED), ret)
  }

  // ---------------------------------------------------------------- the queue a buffer stands for

  // The buffer's indices are consistent; a write index that has just wrapped stands for 2 to the 63.
  predicate Valid(b: Ring) {
    && 0 < b.max && |b.data| == b.max + 1 < TWO63 && 0 <= b.n <= b.max && 0 <= b.r < TWO63
    && (if b.w < 0 then b.w + TWO63 == 0 && b.r + b.n == TWO63 && b.n > 0 else b.w < TWO63 && b.r + b.n == b.w)
  }

  predicate Shaped(b: Ring) {
    |b.data| > 0 && b.n >= 0 && b.r >= 0
  }

  // The values that successive gets return.
  function Contents(b: Ring): seq<Value>
    requires Shaped(b)
  {
    seq(b.n, i requires i >= 0 => b.data[Slot(b.r, i, |b.data|)])
  }

  // The number of slots divides 2 to the 63.
  predicate Aligned(b: Ring) {
    |b.data| > 0 && TWO63 % |b.data| == 0
  }

  // Neither does the write index have to be re-based, or re-basing it is harmless.
  predicate Sound(b: Ring) {
    Valid(b) && (b.w < 0 ==> Aligned(b))
  }

  lemma SlotsDiffer(x: nat, k: nat, n: nat, m: nat)
    requires k < n < m
    ensures Slot(x, k, m) != Slot(x, n, m)
  {
    var q, p := (x + k) / m, (x + n) / m;
    assert x + k == q * m + (x + k) % m && x + n == p * m + (x + n) % m;
    assert (p - q) * m == p * m - q * m;
    MulSign(p - q, m);
  }

  lemma RebaseSlot(r: nat, k: nat, m: nat)
    requires m > 0
    ensures Slot(r % m, k, m) == Slot(r, k, m)
  {
    var q, s := r / m, r % m;
    assert (r + k) == (q + (s + k) / m) * m + (s + k) % m by {
      assert r == q * m + s && s + k == ((s + k) / m) * m + (s + k) % m;
      assert (q + (s + k) / m) * m == q * m + ((s + k) / m) * m;
    }
    DivModUnique(r + k, m, q + (s + k) / m, (s + k) % m);
  }

  // Re-basing leaves the right gap between the indices exactly for the sizes that divide 2 to the 63.
  lemma RebaseGap(r: nat, n: nat, m: nat)
    requires r + n == TWO63 && 0 < n < m
    ensures m - r % m == n <==> TWO63 % m == 0
  {
    if m - r % m == n {
      var q := r / m;
      assert TWO63 == (q + 1) * m + 0 by {
        assert r == q * m + r % m;
        assert (q + 1) * m == q * m + m;
      }
      DivModUnique(TWO63, m, q + 1, 0);
    } else if TWO63 % m == 0 {
      var q: nat := TWO63 / m;
      assert r == (q - 1) * m + (m - n) by {
        assert TWO63 == q * m;
        assert (q - 1) * m == q * m - m;
      }
      DivModUnique(r, m, q - 1, m - n);
      assert false;
    }
  }

  /** Re-basing a sound buffer changes the indices, not the queue. */
  lemma AdjustKeeps(b: Ring)
    requires Sound(b)
    ensures Valid(Adjust(b)) && Contents(Adjust(b)) == Contents(b) && Sound(Adjust(b))
  {
    if b.w < 0 {
      var m := |b.data|;
      RebaseGap(b.r, b.n, m);
      forall i | 0 <= i < b.n
        ensures Slot(b.r % m, i, m) == Slot(b.r, i, m)
      {
        RebaseSlot(b.r, i, m);
      }
    }
  }

  // Writing at the write index appends to the queue.
  lemma WriteAppends(b: Ring, v: Value)
    requires Valid(b) && b.w >= 0 && b.n < b.max
    ensures var b' := b.(data := b.data[b.w % |b.data| := v], w := Inc64(b.w), n := b.n + 1);
      Valid(b') && Contents(b') == Contents(b) + [v]
  {
    var m := |b.data|;
    forall i | 0 <= i < b.n
      ensures Slot(b.r, i, m) != Slot(b.r, b.n, m)
    {
      SlotsDiffer(b.r, i, b.n, m);
    }
  }

  /** A put appends its value unless the buffer is full; it never meets a pointer error. */
  lemma PutAppends(b: Ring, v: Value)
    requires Sound(b)
    ensures var t := TryPut(b, v);
      && Valid(t.after) && t.outcome != PointerError && t.after.max == b.max && |t.after.data| == |b.data|
      && (t.outcome == NotOperational <==> !b.operational)
      && (t.outcome == Blocked <==> b.operational && b.n == b.max)
      && Contents(t.after) == Contents(b) + (if t.outcome == Done then [v] else [])
      && (t.outcome != Done || Aligned(b) || b.w + 1 < TWO63 ==> Sound(t.after))
  {
    AdjustKeeps(b);
    if b.operational && b.n < b.max {
      WriteAppends(Adjust(b), v);
    }
  }

  /** A get takes the first value unless the buffer is empty; it never meets a pointer error. */
  lemma GetTakesFirst(b: Ring)
    requires Sound(b)
    ensures var t := TryGet(b);
      && Sound(t.after) && t.outcome != PointerError && t.after.max == b.max && |t.after.data| == |b.data|
      && (t.outcome == NotOperational <==> !b.operational)
      && (t.outcome == Blocked <==> b.operational && b.n == 0)
      && Contents(b) == (if t.outcome == Done then [t.value] else []) + Contents(t.after)
  {
    AdjustKeeps(b);
    if b.operational && b.n > 0 {
      var a := Adjust(b);
      var c := TryGet(b).after;
      assert forall i :: 0 <= i < c.n ==> Contents(c)[i] == Contents(a)[i + 1];
    }
  }

  /** A peek shows the first value and changes nothing but the indices. */
  lemma PeekShowsFirst(b: Ring)
    requires Sound(b)
    ensures var t := TryPeek(b);
      && Sound(t.after) && t.outcome != PointerError && t.after.max == b.max && |t.after.data| == |b.data|
      && (t.outcome == NotOperational <==> !b.operational)
      && (t.outcome == Blocked <==> b.operational && b.n == 0)
      && Contents(t.after) == Contents(b) && (t.outcome == Done ==> t.value == Contents(b)[0])
  {
    AdjustKeeps(b);
  }

  /** Freeing all values frees the queue, in order and each value once. */
  lemma FreesContents(b: Ring)
    requires Sound(b)
    ensures Between(Adjust(b)) == Contents(b)
  {
    AdjustKeeps(b);
  }

  /** Cleaning leaves a sound, empty buffer, and frees exactly the queue. */
  lemma CleanEmpties(b: Ring, freeing: bool)
    requires Sound(b)
    ensures var (after, freed) := CleanFreeing(b, freeing);
      Sound(after) && Contents(after) == [] && freed == if freeing then Contents(b) else []
  {
    FreesContents(b);
  }

  /**
   * Once the write index has wrapped, the next put appends its value whatever the value is if and only if
   * the number of slots divides 2 to the 63.
   */
  lemma WrapExactly(b: Ring)
    requires Valid(b) && b.w < 0 && b.operational && b.n < b.max
    ensures (forall v :: AppendsAfterWrap(b, v)) <==> Aligned(b)
  {
    if Aligned(b) {
      forall v
        ensures AppendsAfterWrap(b, v)
      {
        AdjustKeeps(b);
        WriteAppends(Adjust(b), v);
      }
    } else {
      var v := Misplaced(b);
    }
  }

  // What a reader of the queue, which starts at the read index, meets after a put of v.
  predicate AppendsAfterWrap(b: Ring, v: Value)
    requires Valid(b) && b.w < 0
  {
    var a := TryPut(b, v).after;
    Shaped(a) && Contents(a) == Contents(b) + [v]
  }

  // A value that such a put loses: it is written to slot 0, and another slot is read for it.
  lemma Misplaced(b: Ring) returns (v: Value)
    requires Valid(b) && b.w < 0 && b.operational && b.n < b.max && !Aligned(b)
    ensures !AppendsAfterWrap(b, v)
  {
    var m := |b.data|;
    var slot := TWO63 % m;
    v := b.data[slot] + 1;
    var a := TryPut(b, v).after;
    assert a.data == b.data[0 := v] && a.r == b.r % m by {
      assert m % m == 0;
    }
    RebaseSlot(b.r, b.n, m);
    assert Slot(a.r, b.n, m) == slot != 0;
    assert a.data[slot] == b.data[slot];
    assert Contents(a)[b.n] == b.data[slot];
    assert (Contents(b) + [v])[b.n] == v;
  }
}
