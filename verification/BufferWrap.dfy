/** What becomes of a circular buffer after 2 to the 63 puts, shown on runs of the monitor. */
module BufferWrap {
  import opened Basics
  import opened Bits
  import opened Rings
  import opened BufferMonitor

  lemma {:induction false} RunConcat(m: Monitor, es: seq<Event>, fs: seq<Event>)
    requires |m.ring.data| > 0
    ensures Run(m, es + fs) == Run(Run(m, es), fs)
    decreases |es|
  {
    if es == [] {
      assert es + fs == fs;
    } else {
      assert (es + fs)[1..] == es[1..] + fs;
      RunConcat(Step(m, es[0]), es[1..], fs);
    }
  }

  // A run of one event after another.
  lemma RunThen(m: Monitor, es: seq<Event>, t: Monitor, e: Event)
    requires |m.ring.data| > 0 && Run(m, es) == t
    ensures Run(m, es + [e]) == Step(t, e)
  {
    RunConcat(m, es, [e]);
    RunOne(t, [e]);
  }

  lemma RunOne(m: Monitor, es: seq<Event>)
    requires |m.ring.data| > 0 && |es| == 1
    ensures Run(m, es) == Step(m, es[0])
  {
    var rest := es[1..];
    assert rest == [];
  }

  function Zeros(n: nat): seq<Value> {
    seq(n, _ => NULL)
  }

  // The monitor after k pairs of putting and getting NULL.
  function AfterPairs(n: nat, max: nat, hasDelProc: bool, k: nat): Monitor {
    Monitor(Ring(Zeros(max + 1), k, k, 0, max, true, NOT_REGISTERED), hasDelProc, seq(n, _ => Idle),
            Zeros(k), seq(k, _ => Exit(NULL, Got)), k)
  }

  lemma PutNull(n: nat, max: nat, hasDelProc: bool, k: nat) returns (s: Monitor, t: Monitor)
    requires 0 < n && 0 < max && k < TWO63 - 1
    ensures var m := AfterPairs(n, max, hasDelProc, k);
      && s == m.(clients := m.clients[0 := Trying(Put(NULL))]) && Step(m, Call(0, Put(NULL))) == s
      && t == m.(ring := m.ring.(w := k + 1, n := 1), puts := Zeros(k + 1), recent := k + 1) && Step(s, Try(0)) == t
  {
    var m := AfterPairs(n, max, hasDelProc, k);
    s := m.(clients := m.clients[0 := Trying(Put(NULL))]);
    t := m.(ring := m.ring.(w := k + 1, n := 1), puts := Zeros(k + 1), recent := k + 1);
    var slot := k % (max + 1);
    assert m.ring.data[slot := NULL] == m.ring.data;
    assert Notify(s.clients[0 := Idle], false) == m.clients;
    assert m.puts + [NULL] == Zeros(k + 1);
  }

  lemma GetNull(n: nat, max: nat, hasDelProc: bool, k: nat) returns (s: Monitor)
    requires 0 < n && 0 < max && k < TWO63 - 1
    ensures var m := AfterPairs(n, max, hasDelProc, k);
      var t := m.(ring := m.ring.(w := k + 1, n := 1), puts := Zeros(k + 1), recent := k + 1);
      && s == t.(clients := t.clients[0 := Trying(Get)]) && Step(t, Call(0, Get)) == s
      && Step(s, Try(0)) == AfterPairs(n, max, hasDelProc, k + 1)
  {
    var m := AfterPairs(n, max, hasDelProc, k);
    var t := m.(ring := m.ring.(w := k + 1, n := 1), puts := Zeros(k + 1), recent := k + 1);
    s := t.(clients := t.clients[0 := Trying(Get)]);
    assert Notify(s.clients[0 := Idle], true) == m.clients;
    assert m.exits + [Exit(NULL, Got)] == seq(k + 1, _ => Exit(NULL, Got));
  }

  lemma {:induction false} Pairs(n: nat, max: nat, hasDelProc: bool, k: nat) returns (es: seq<Event>)
    requires 0 < n && 0 < max && k < TWO63
    ensures Run(Init(n, max, hasDelProc), es) == AfterPairs(n, max, hasDelProc, k)
  {
    var m := Init(n, max, hasDelProc);
    if k == 0 {
      es := [];
      assert m == AfterPairs(n, max, hasDelProc, 0);
    } else {
      es := Pairs(n, max, hasDelProc, k - 1);
      var s, t := PutNull(n, max, hasDelProc, k - 1);
      var u := GetNull(n, max, hasDelProc, k - 1);
      RunThen(m, es, AfterPairs(n, max, hasDelProc, k - 1), Call(0, Put(NULL)));
      RunThen(m, es + [Call(0, Put(NULL))], s, Try(0));
      RunThen(m, es + [Call(0, Put(NULL))] + [Try(0)], t, Call(0, Get));
      RunThen(m, es + [Call(0, Put(NULL))] + [Try(0)] + [Call(0, Get)], u, Try(0));
      es := es + [Call(0, Put(NULL))] + [Try(0)] + [Call(0, Get)] + [Try(0)];
    }
  }

  /** For every size there is a run that leads to a buffer whose write index has just wrapped. */
  lemma WrapReached(n: nat, max: nat, hasDelProc: bool) returns (es: seq<Event>, m: Monitor)
    requires 0 < n && 1 < max < TWO63 - 1
    ensures m == Run(Init(n, max, hasDelProc), es) && LogOk(m) && m.clients == seq(n, _ => Idle)
    ensures Valid(m.ring) && m.ring.w < 0 && m.ring.operational && m.ring.n < m.ring.max && m.ring.max == max
  {
    var k := TWO63 - 1;
    es := Pairs(n, max, hasDelProc, k);
    var p := AfterPairs(n, max, hasDelProc, k);
    var s := p.(clients := p.clients[0 := Trying(Put(NULL))]);
    m := p.(ring := p.ring.(w := -0x8000_0000_0000_0000, n := 1), puts := Zeros(k + 1), recent := k + 1);
    assert Step(s, Try(0)) == m by {
      assert p.ring.data[k % (max + 1) := NULL] == p.ring.data;
      assert Notify(s.clients[0 := Idle], false) == p.clients;
      assert p.puts + [NULL] == Zeros(k + 1);
    }
    RunThen(Init(n, max, hasDelProc), es, p, Call(0, Put(NULL)));
    RunThen(Init(n, max, hasDelProc), es + [Call(0, Put(NULL))], s, Try(0));
    es := es + [Call(0, Put(NULL))] + [Try(0)];
    assert Values(m.exits) + Contents(m.ring) == Zeros(k + 1);
  }

  // Putting a value that is misplaced.
  lemma PutMisplaced(m: Monitor, v: Value) returns (s: Monitor)
    requires Valid(m.ring) && m.ring.w < 0 && m.ring.operational && m.ring.n < m.ring.max && LogOk(m)
    requires |m.clients| > 0 && m.clients[0] == Idle && !AppendsAfterWrap(m.ring, v)
    ensures s == Step(m, Call(0, Put(v))) && !LogOk(Step(s, Try(0)))
  {
    s := m.(clients := m.clients[0 := Trying(Put(v))]);
    var t := Step(s, Try(0));
    assert t.puts == m.puts + [v] && t.exits == m.exits && t.ring == TryPut(m.ring, v).after;
    if LogOk(t) {
      Cancel(Values(m.exits), Contents(m.ring) + [v], Contents(t.ring));
    }
  }

  lemma Cancel<T>(a: seq<T>, b: seq<T>, c: seq<T>)
    ensures a + b == a + c ==> b == c
  {
    if a + b == a + c {
      assert b == (a + b)[|a|..] && c == (a + c)[|a|..];
    }
  }

  /** For a slot count that does not divide 2 to the 63 some run loses its place in the queue. */
  lemma SomeRunFails(n: nat, max: nat, hasDelProc: bool) returns (es: seq<Event>)
    requires 0 < n && 0 < max < TWO63 - 1 && TWO63 % (max + 1) != 0
    ensures !LogOk(Run(Init(n, max, hasDelProc), es))
  {
    assert max != 1;
    var m;
    es, m := WrapReached(n, max, hasDelProc);
    var v := Misplaced(m.ring);
    var s := PutMisplaced(m, v);
    RunThen(Init(n, max, hasDelProc), es, m, Call(0, Put(v)));
    RunThen(Init(n, max, hasDelProc), es + [Call(0, Put(v))], s, Try(0));
    es := es + [Call(0, Put(v))] + [Try(0)];
  }

  lemma {:induction false} AlignedBounded(m: Monitor, es: seq<Event>)
    requires |m.ring.data| > 0 && Aligned(m.ring)
    ensures AlwaysBounded(m, es)
    decreases |es|
  {
    if es == [] {
    } else {
      AlignedBounded(Step(m, es[0]), es[1..]);
    }
  }

  /** Order is kept over all runs, however long, if and only if the number of slots divides 2 to the 63. */
  lemma FifoExactly(n: nat, max: nat, hasDelProc: bool)
    requires 0 < n && 0 < max < TWO63 - 1
    ensures (forall es :: LogOk(Run(Init(n, max, hasDelProc), es))) <==> TWO63 % (max + 1) == 0
  {
    if TWO63 % (max + 1) == 0 {
      forall es
        ensures LogOk(Run(Init(n, max, hasDelProc), es))
      {
        AlignedBounded(Init(n, max, hasDelProc), es);
        FirstInFirstOut(n, max, hasDelProc, es);
      }
    } else {
      var es := SomeRunFails(n, max, hasDelProc);
    }
  }
}
