/** The circular buffer over an array, its methods being what happens while its lock is held. */
module CBuffers {
  import opened Basics
  import opened Bits
  import opened Rings

  class CBuffer {
    const data: array<Value>
    const maxElements: int
    const hasDelProc: bool
    var rIdx: int
    var wIdx: int
    var nElements: int
    var isOperational: bool
    var qmuxer: Ptr
    var kind: Poll
    // What the free procedure was called with so far.
    var freed: seq<Value>

    ghost function State(): Ring
      reads this, data
    {
      Ring(data[..], rIdx, wIdx, nElements, maxElements, isOperational, Registration(qmuxer, kind))
    }

    ghost function Queue(): seq<Value>
      requires Valid(State())
      reads this, data
    {
      Contents(State())
    }

    constructor (max: int, hasDelProc: bool)
      requires 0 < max < TWO63 - 1
      ensures State() == Create(max) && Sound(State()) && Queue() == [] && freed == [] && fresh(data)
      ensures this.hasDelProc == hasDelProc
    {
      data := new Value[max + 1](_ => NULL);
      maxElements, this.hasDelProc := max, hasDelProc;
      rIdx, wIdx, nElements, isOperational, qmuxer, kind, freed := 0, 0, 0, true, NULL, Unknown, [];
    }

    method AdjustIndices()
      requires data.Length > 0
      modifies this`rIdx, this`wIdx
      ensures State() == Adjust(old(State()))
    {
      if wIdx >= 0 {
        return;
      }
      wIdx := data.Length;
      rIdx := Rem(rIdx, data.Length);
    }

    // The address of an index as a slot number, -1 for NULL.
    method SlotOf(idx: int) returns (slot: int)
      requires data.Length > 0
      ensures slot == DataAddr(State(), idx) && -1 <= slot < data.Length
    {
      slot := if idx >= 0 then idx % data.Length else -1;
    }

    method FreeupAllValues()
      requires data.Length > 0
      modifies this`rIdx, this`wIdx, this`freed
      ensures State() == (if hasDelProc then Adjust(old(State())) else old(State()))
      ensures freed == old(freed) + if hasDelProc then Between(State()) else []
      ensures old(Sound(State())) ==> Sound(State()) && Queue() == old(Queue())
      ensures old(Sound(State())) ==> freed == old(freed) + if hasDelProc then Queue() else []
    {
      if Sound(State()) {
        AdjustKeeps(State());
        FreesContents(State());
      }
      if hasDelProc {
        AdjustIndices();
        var i := rIdx;
        ghost var first, all := if rIdx < 0 then 0 else rIdx, Between(State());
        ghost var done := 0;
        while i < wIdx
          invariant if i < first then done == 0 else i == first + done
          invariant rIdx <= i && done <= |all| && freed == old(freed) + all[..done]
          modifies this`freed
        {
          var addr := SlotOf(i);
          if addr != -1 {
            assert all[done] == data[Slot(first, done, data.Length)] == data[addr];
            freed := freed + [data[addr]];
            done := done + 1;
          }
          i := i + 1;
        }
        assert all[..done] == all;
      }
    }

    method Clean(freeValues: bool)
      requires data.Length > 0
      modifies this`rIdx, this`wIdx, this`nElements, this`freed, data
      ensures State() == Rings.Clean(old(State()))
      ensures freed == old(freed) + CleanFreeing(old(State()), freeValues && hasDelProc).1
      ensures old(Sound(State())) ==> Sound(State()) && Queue() == []
      ensures old(Sound(State())) ==> freed == old(freed) + if freeValues && hasDelProc then old(Queue()) else []
    {
      if Sound(State()) {
        CleanEmpties(State(), freeValues && hasDelProc);
      }
      if freeValues {
        FreeupAllValues();
      }
      rIdx, wIdx := 0, 0;
      forall i | 0 <= i < data.Length {
        data[i] := NULL;
      }
      nElements := 0;
      assert data[..] == seq(data.Length, _ => NULL);
    }

    /** One pass of a put; the caller waits and tries again if it is blocked. */
    method Put(v: Value) returns (outcome: Outcome, notified: bool)
      requires data.Length > 0
      modifies this`rIdx, this`wIdx, this`nElements, data
      ensures var t := TryPut(old(State()), v); State() == t.after && outcome == t.outcome && notified == t.notified
      ensures old(Sound(State())) ==>
        && Valid(State()) && (Aligned(State()) || old(wIdx) + 1 < TWO63 ==> Sound(State()))
        && outcome == (if !old(isOperational) then NotOperational
                       else if old(nElements) == maxElements then Blocked else Done)
        && Queue() == old(Queue()) + if outcome == Done then [v] else []
      ensures notified <==> outcome == Done && qmuxer != NULL && (kind == Readable || kind == Both)
    {
      if Sound(State()) {
        PutAppends(State(), v);
      }
      notified := false;
      if isOperational {
        AdjustIndices();
        if nElements < maxElements {
          var dst := SlotOf(wIdx);
          if dst != -1 {
            data[dst] := v;
            wIdx := Inc64(wIdx);
            nElements := nElements + 1;
            notified := qmuxer != NULL && NeedWaitReadable(kind);
            outcome := Done;
          } else {
            outcome := PointerError;   // "Circular buffer write pointer error."
          }
        } else {
          outcome := Blocked;
        }
      } else {
        outcome := NotOperational;
      }
    }

    /** One pass of a get. */
    method Get() returns (outcome: Outcome, value: Value, notified: bool)
      requires data.Length > 0
      modifies this`rIdx, this`wIdx, this`nElements
      ensures var t := TryGet(old(State()));
        State() == t.after && outcome == t.outcome && value == t.value && notified == t.notified
      ensures old(Sound(State())) ==>
        && Sound(State())
        && outcome == (if !old(isOperational) then NotOperational else if old(nElements) == 0 then Blocked else Done)
        && old(Queue()) == (if outcome == Done then [value] else []) + Queue()
      ensures notified <==> outcome == Done && qmuxer != NULL && (kind == Writable || kind == Both)
    {
      if Sound(State()) {
        GetTakesFirst(State());
      }
      notified, value := false, NULL;
      if isOperational {
        AdjustIndices();
        if nElements > 0 {
          var src := SlotOf(rIdx);
          if src != -1 {
            value := data[src];
            rIdx := Inc64(rIdx);
            nElements := nElements - 1;
            notified := qmuxer != NULL && NeedWaitWritable(kind);
            outcome := Done;
          } else {
            outcome := PointerError;   // "Circular buffer read pointer error."
          }
        } else {
          outcome := Blocked;
        }
      } else {
        outcome := NotOperational;
      }
    }

    /** One pass of a peek. */
    method Peek() returns (outcome: Outcome, value: Value)
      requires data.Length > 0
      modifies this`rIdx, this`wIdx
      ensures var t := TryPeek(old(State())); State() == t.after && outcome == t.outcome && value == t.value
      ensures old(Sound(State())) ==>
        && Sound(State()) && Queue() == old(Queue())
        && outcome == (if !old(isOperational) then NotOperational else if old(nElements) == 0 then Blocked else Done)
        && (outcome == Done ==> value == Queue()[0])
    {
      if Sound(State()) {
        PeekShowsFirst(State());
      }
      value := NULL;
      if isOperational {
        AdjustIndices();
        if nElements > 0 {
          var src := SlotOf(rIdx);
          if src != -1 {
            value := data[src];
            outcome := Done;
          } else {
            outcome := PointerError;   // "Circular buffer read pointer error."
          }
        } else {
          outcome := Blocked;
        }
      } else {
        outcome := NotOperational;
      }
    }

    method Clear(freeValues: bool) returns (notified: bool)
      requires data.Length > 0
      modifies this`rIdx, this`wIdx, this`nElements, this`freed, data
      ensures State() == Rings.Clean(old(State()))
      ensures freed == old(freed) + CleanFreeing(old(State()), freeValues && hasDelProc).1
      ensures old(Sound(State())) ==> Sound(State()) && Queue() == []
      ensures old(Sound(State())) ==> freed == old(freed) + if freeValues && hasDelProc then old(Queue()) else []
      ensures notified <==> qmuxer != NULL && (kind == Readable || kind == Both)
    {
      Clean(freeValues);
      notified := qmuxer != NULL && NeedWaitReadable(kind);
    }

    // Shutting down twice, as destroying after a shutdown does, frees nothing again.
    method Shutdown(freeValues: bool) returns (notified: bool)
      requires data.Length > 0
      modifies this`rIdx, this`wIdx, this`nElements, this`freed, this`isOperational, data
      ensures !isOperational && notified == (old(isOperational) && qmuxer != NULL)
      ensures State() == if old(isOperational) then Rings.Clean(old(State())).(operational := false) else old(State())
      ensures freed == old(freed)
        + if old(isOperational) then CleanFreeing(old(State()), freeValues && hasDelProc).1 else []
      ensures old(Sound(State())) ==> Sound(State())
      ensures old(Sound(State())) ==>
        freed == old(freed) + if old(isOperational) && freeValues && hasDelProc then old(Queue()) else []
    {
      notified := false;
      if isOperational {
        isOperational := false;
        assert old(Shaped(State())) ==> Contents(State()) == old(Contents(State()));
        Clean(freeValues);
        notified := qmuxer != NULL;
      }
    }

    method SetupForQmuxer(qmx: Ptr, poll: Poll, isPre: bool) returns (ret: SetupResult, sz: int, rem: int)
      modifies this`qmuxer, this`kind
      ensures (State(), ret) == Setup(old(State()), qmx, poll, isPre)
      ensures isOperational ==>
        ret == (if nElements == 0 && (poll == Readable || poll == Both) then Wait(Readable)
                else if nElements == maxElements && (poll == Writable || poll == Both) then Wait(Writable) else Ready)
        && (qmuxer, kind) == if isPre && ret.Wait? then (qmx, ret.poll) else (NULL, Unknown)
      ensures !isOperational ==> ret == Failed && qmuxer == old(qmuxer) && kind == old(kind)
      ensures sz == (if isOperational then nElements else -1)
      ensures rem == if isOperational then maxElements - nElements else -1
    {
      sz, rem := -1, -1;
      if isOperational {
        sz, rem := nElements, maxElements - nElements;
        ret := Ready;
        if NeedWaitReadable(poll) && sz == 0 {
          ret := Wait(Readable);
        } else if NeedWaitWritable(poll) && rem == 0 {
          ret := Wait(Writable);
        }
        if isPre && ret.Wait? {
          qmuxer, kind := qmx, ret.poll;
        } else {
          qmuxer, kind := NULL, Unknown;
        }
      } else {
        ret := Failed;
      }
    }
  }
}
