/** What iterating a map with a callback does, given the order in which the entries are met. */
module Iterations {
  import opened Basics
  import opened ValueBags

  datatype Update = Keep | Assign(value: Value)

  /** What the callback answers: whether to go on, and a value it assigned to the entry. */
  datatype Verdict = Verdict(goOn: bool, update: Update)

  // A callback may depend on everything it has seen, the current entry last.
  type Proc<!K(!new)> = seq<(K, Value)> -> Verdict

  datatype Result<K> = Result(contents: map<K, Value>, visited: seq<(K, Value)>, ok: bool)

  function Assigned<K>(m: map<K, Value>, k: K, u: Update): map<K, Value> {
    match u
    case Keep => m
    case Assign(v) => m[k := v]
  }

  // The loop of an iteration that has yet to meet `order` and answers `ok` if there is nothing left.
  function Iterate<K(!new)>(order: seq<K>, m: map<K, Value>, proc: Proc<K>, seen: seq<(K, Value)>, ok: bool): Result<K>
    requires forall k :: k in order ==> k in m
    decreases |order|
  {
    if order == [] then Result(m, seen, ok)
    else
      var now := seen + [(order[0], m[order[0]])];
      var verdict := proc(now);
      var m' := Assigned(m, order[0], verdict.update);
      if verdict.goOn then Iterate(order[1..], m', proc, now, true) else Result(m', now, false)
  }

  // The iteration over `order` has come to `keys`, with contents m and the entries `seen` behind it.
  ghost predicate Midway<K(!new)>(order: seq<K>, start: map<K, Value>, proc: Proc<K>,
                                  keys: seq<K>, m: map<K, Value>, seen: seq<(K, Value)>, ok: bool)
  {
    && (forall k :: k in order ==> k in start)
    && (forall k :: k in keys ==> k in m)
    && Iterate(order, start, proc, [], false) == Iterate(keys, m, proc, seen, ok)
  }

  lemma MidwayStep<K(!new)>(order: seq<K>, start: map<K, Value>, proc: Proc<K>,
                            keys: seq<K>, m: map<K, Value>, seen: seq<(K, Value)>, ok: bool)
    requires Midway(order, start, proc, keys, m, seen, ok) && keys != []
    ensures var now := seen + [(keys[0], m[keys[0]])];
      var m' := Assigned(m, keys[0], proc(now).update);
      if proc(now).goOn then Midway(order, start, proc, keys[1..], m', now, true)
      else Iterate(order, start, proc, [], false) == Result(m', now, false)
  {}

  /**
   * The callback sees a part of the entries from the start, each once; it stops the iteration exactly at
   * its first refusal, and the iteration succeeds exactly if there are entries and none was refused.
   */
  lemma {:induction false} IterateOutcome<K(!new)>(order: seq<K>, m: map<K, Value>, proc: Proc<K>,
                                                   seen: seq<(K, Value)>, ok: bool)
    requires forall k :: k in order ==> k in m
    ensures var r := Iterate(order, m, proc, seen, ok);
      && seen <= r.visited && |r.visited| - |seen| <= |order| && r.contents.Keys == m.Keys
      && (forall i :: |seen| <= i < |r.visited| ==> r.visited[i].0 == order[i - |seen|])
      && (forall n :: |seen| < n < |r.visited| ==> proc(r.visited[..n]).goOn)
      && (order == [] ==> r.ok == ok && r.visited == seen)
      && (order != [] ==> |r.visited| > |seen| && r.ok == proc(r.visited).goOn)
      && (r.ok && order != [] ==> |r.visited| - |seen| == |order|)
    decreases |order|
  {
    if order == [] {
    } else {
      var now := seen + [(order[0], m[order[0]])];
      var verdict := proc(now);
      var m' := Assigned(m, order[0], verdict.update);
      if verdict.goOn {
        IterateOutcome(order[1..], m', proc, now, true);
        var r := Iterate(order[1..], m', proc, now, true);
        assert r.visited[..|now|] == now;
      } else {
        assert now[..|now|] == now;
      }
    }
  }

  // The non-NULL values of the visited entries.
  function Values<K>(visited: seq<(K, Value)>): multiset<Value> {
    if visited == [] then multiset{} else One(visited[0].1) + Values(visited[1..])
  }

  lemma {:induction false} ValuesConcat<K>(s: seq<(K, Value)>, t: seq<(K, Value)>)
    ensures Values(s + t) == Values(s) + Values(t)
  {
    if s == [] {
      assert s + t == t;
    } else {
      assert (s + t)[1..] == s[1..] + t;
      ValuesConcat(s[1..], t);
    }
  }

  lemma EnumeratesTail<K(!new)>(order: seq<K>, m: map<K, Value>)
    requires Enumerates(order, m) && order != []
    ensures order[0] in m && Enumerates(order[1..], m - {order[0]})
  {
    assert order == [order[0]] + order[1..];
    DistinctHead(order[0], order[1..]);
    assert forall x :: x in order <==> x == order[0] || x in order[1..];
  }

  // The values a callback assigns, and the values it replaces.
  function Books<K(!new)>(order: seq<K>, m: map<K, Value>, proc: Proc<K>, seen: seq<(K, Value)>)
    : (multiset<Value>, multiset<Value>)
    requires forall k :: k in order ==> k in m
    decreases |order|
  {
    if order == [] then (multiset{}, multiset{})
    else
      var now := seen + [(order[0], m[order[0]])];
      var verdict := proc(now);
      var m' := Assigned(m, order[0], verdict.update);
      var rest := if verdict.goOn then Books(order[1..], m', proc, now) else (multiset{}, multiset{});
      match verdict.update
      case Keep => rest
      case Assign(v) => (One(v) + rest.0, One(m[order[0]]) + rest.1)
  }

  lemma Replace(b: multiset<Value>, b': multiset<Value>, rest: multiset<Value>, o: multiset<Value>, n: multiset<Value>,
                e: multiset<Value>, a: multiset<Value>, r: multiset<Value>)
    requires b == o + rest && b' == n + rest && e + r == b' + a
    ensures e + (o + r) == b + (n + a)
  {
    assert e + (o + r) == o + (e + r);
  }

  /** An iteration replaces values one for one. */
  lemma {:induction false} BooksBalance<K(!new)>(order: seq<K>, m: map<K, Value>, proc: Proc<K>,
                                                 seen: seq<(K, Value)>, ok: bool)
    requires forall k :: k in order ==> k in m
    ensures var books := Books(order, m, proc, seen);
      Bag(Iterate(order, m, proc, seen, ok).contents) + books.1 == Bag(m) + books.0
    decreases |order|
  {
    if order == [] {
    } else {
      var k := order[0];
      var now := seen + [(k, m[k])];
      var verdict := proc(now);
      var m' := Assigned(m, k, verdict.update);
      if verdict.goOn {
        BooksBalance(order[1..], m', proc, now, true);
      }
      if verdict.update.Assign? {
        var rest := if verdict.goOn then Books(order[1..], m', proc, now) else (multiset{}, multiset{});
        BagSplit(m, k);
        BagUpdate(m, k, verdict.update.value);
        Replace(Bag(m), Bag(m'), Bag(m - {k}), One(m[k]), One(verdict.update.value),
                Bag(Iterate(order, m, proc, seen, ok).contents), rest.0, rest.1);
      }
    }
  }

  /** A callback that never assigns leaves the contents alone. */
  lemma {:induction false} IterateKeeps<K(!new)>(order: seq<K>, m: map<K, Value>, proc: Proc<K>, seen: seq<(K, Value)>,
                                                 ok: bool)
    requires forall s :: proc(s).update == Keep
    requires forall k :: k in order ==> k in m
    ensures Iterate(order, m, proc, seen, ok).contents == m
    decreases |order|
  {
    if order == [] {
    } else {
      var now := seen + [(order[0], m[order[0]])];
      assert proc(now).update == Keep;
      if proc(now).goOn {
        IterateKeeps(order[1..], m, proc, now, true);
      }
    }
  }

  /** A callback that never refuses nor assigns is shown every value of the map exactly once. */
  lemma {:induction false} IterateAll<K(!new)>(order: seq<K>, m: map<K, Value>, proc: Proc<K>, seen: seq<(K, Value)>,
                                               ok: bool, left: map<K, Value>)
    requires forall s :: proc(s) == Verdict(true, Keep)
    requires forall k :: k in left ==> k in m && left[k] == m[k]
    requires forall k :: k in order ==> k in m
    requires Enumerates(order, left)
    ensures Values(Iterate(order, m, proc, seen, ok).visited) == Values(seen) + Bag(left)
    decreases |order|
  {
    if order == [] {
      assert left == map[];
    } else {
      var k := order[0];
      var now := seen + [(k, m[k])];
      assert proc(now) == Verdict(true, Keep);
      assert Iterate(order, m, proc, seen, ok) == Iterate(order[1..], m, proc, now, true);
      EnumeratesTail(order, left);
      assert forall x :: x in order[1..] ==> x in order;
      IterateAll(order[1..], m, proc, now, true, left - {k});
      BagSplit(left, k);
      ValuesConcat(seen, [(k, m[k])]);
      assert Values([(k, m[k])]) == One(m[k]);
      Regroup(Values(seen), One(m[k]), Bag(left - {k}));
    }
  }

  lemma Regroup(a: multiset<Value>, b: multiset<Value>, c: multiset<Value>)
    ensures (a + b) + c == a + (b + c)
  {}
}
