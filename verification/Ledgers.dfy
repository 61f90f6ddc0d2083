/** Where the values handed to a map go: an accounting that does not depend on how the map is stored. */
module Ledgers {
  import opened Basics
  import opened Iterations
  import opened ValueBags

  datatype Status = Ok | NotFound | AlreadyExists | NotOperational | NoMemory | IterationHalted

  // ---------------------------------------------------------------- the ledger of a map's values

  /**
   * What a map holds and where its values went: `accepted` were stored in it, `handedBack` were given up to
   * the caller who overwrote them, by an add, an assignment or a callback, `freed` went to the free
   * procedure, and `released` were left to the callers.
   */
  datatype Ledger<K> = Ledger(operational: bool, contents: map<K, Value>, accepted: multiset<Value>,
                           handedBack: multiset<Value>, freed: multiset<Value>, released: multiset<Value>)

  datatype Op<!K(!new)> =
    | Find(key: K)
    | Add(key: K, val: Value, overwrite: bool, hasMemory: bool)
    | Delete(key: K, free: bool)
    | Clear(free: bool)
    | Shutdown(free: bool)
    | SetValue(key: K, val: Value)
    | Walk(order: seq<K>, proc: Proc<K>)   // iterating, the entries being met in this order

  function Empty<K>(): Ledger<K> {
    Ledger(true, map[], multiset{}, multiset{}, multiset{}, multiset{})
  }

  // Taking all values out of the map, to the free procedure or not.
  ghost function Drop<K>(l: Ledger<K>, freeing: bool): Ledger<K> {
    if freeing then l.(contents := map[], freed := l.freed + Bag(l.contents))
    else l.(contents := map[], released := l.released + Bag(l.contents))
  }

  ghost function Step<K(!new)>(l: Ledger<K>, op: Op<K>, hasDelProc: bool): Ledger<K> {
    if !l.operational then l
    else match op
      case Find(_) => l
      case Add(k, v, overwrite, hasMemory) =>
        if k in l.contents && overwrite then
          l.(contents := l.contents[k := v], accepted := l.accepted + One(v),
             handedBack := l.handedBack + One(l.contents[k]))
        else if k !in l.contents && hasMemory then
          l.(contents := l.contents[k := v], accepted := l.accepted + One(v))
        else l
      case Delete(k, free) =>
        if k !in l.contents then l
        else
          var v, rest := l.contents[k], l.(contents := l.contents - {k});
          if free && hasDelProc then rest.(freed := rest.freed + One(v))
          else rest.(released := rest.released + One(v))
      case Clear(free) => Drop(l, free && hasDelProc)
      case Shutdown(free) => Drop(l, free && hasDelProc).(operational := false)
      case SetValue(k, v) =>
        if k !in l.contents then l
        else
          l.(contents := l.contents[k := v], accepted := l.accepted + One(v),
             handedBack := l.handedBack + One(l.contents[k]))
      case Walk(order, proc) =>
        if exists k :: k in order && k !in l.contents then l
        else
          var books := Books(order, l.contents, proc, []);
          l.(contents := Iterate(order, l.contents, proc, [], false).contents,
             accepted := l.accepted + books.0, handedBack := l.handedBack + books.1)
  }

  // The status of an operation and the value it hands out through its value pointer.
  ghost function Outcome<K(!new)>(l: Ledger<K>, op: Op<K>): (Status, Value) {
    var former := if (op.Find? || op.Add? || op.Delete?) && op.key in l.contents then l.contents[op.key] else NULL;
    if !l.operational then (NotOperational, if op.Add? then op.val else NULL)
    else match op
      case Find(k) => (if k in l.contents then Ok else NotFound, former)
      case Add(k, _, overwrite, hasMemory) =>
        (if k in l.contents then (if overwrite then Ok else AlreadyExists)
         else if hasMemory then Ok else NoMemory, former)
      case Delete(_, _) => (Ok, former)
      case Clear(_) => (Ok, NULL)
      case Shutdown(_) => (Ok, NULL)
      case SetValue(_, _) => (Ok, NULL)
      case Walk(order, proc) =>
        if exists k :: k in order && k !in l.contents then (Ok, NULL)
        else (if Iterate(order, l.contents, proc, [], false).ok then Ok else IterationHalted, NULL)
  }

  lemma WalkStep<K(!new)>(l: Ledger<K>, order: seq<K>, proc: Proc<K>, hasDelProc: bool, r: Result<K>)
    returns (next: Ledger<K>)
    requires l.operational && forall k :: k in order ==> k in l.contents
    requires r == Iterate(order, l.contents, proc, [], false)
    ensures next == Step(l, Op.Walk(order, proc), hasDelProc)
    ensures next.contents == r.contents && next.operational && next.freed == l.freed
  {
    next := Step(l, Op.Walk(order, proc), hasDelProc);
  }

  ghost predicate Balanced<K>(l: Ledger<K>) {
    l.accepted == Bag(l.contents) + l.handedBack + l.freed + l.released
  }

  // A part p of the stored bag b may leave for any of the three other bags while x comes in.
  lemma Rebalance(a: multiset<Value>, b: multiset<Value>, h: multiset<Value>, f: multiset<Value>,
                  r: multiset<Value>, p: multiset<Value>, rest: multiset<Value>, x: multiset<Value>)
    requires a == b + h + f + r && b == p + rest
    ensures a + x == (x + rest) + (h + p) + f + r
    ensures a == rest + h + (f + p) + r
    ensures a == rest + h + f + (r + p)
    ensures a + x == (x + b) + h + f + r
  {}

  // A walk that ends with the bag e, having assigned the bag n and replaced the bag o.
  lemma RebalanceWalk(a: multiset<Value>, b: multiset<Value>, h: multiset<Value>, f: multiset<Value>,
                      r: multiset<Value>, e: multiset<Value>, n: multiset<Value>, o: multiset<Value>)
    requires a == b + h + f + r && e + o == b + n
    ensures a + n == e + (h + o) + f + r
  {
    assert a + n == (b + n) + h + f + r;
  }

  lemma StepBalanced<K(!new)>(l: Ledger<K>, op: Op<K>, hasDelProc: bool)
    requires Balanced(l)
    ensures Balanced(Step(l, op, hasDelProc))
  {
    var all := Bag(l.contents);
    match op
    case Add(k, v, _, _) =>
      BagUpdate(l.contents, k, v);
      if k in l.contents {
        BagSplit(l.contents, k);
        Rebalance(l.accepted, all, l.handedBack, l.freed, l.released,
                  One(l.contents[k]), Bag(l.contents - {k}), One(v));
      } else {
        NothingOut(l.contents, k);
        Rebalance(l.accepted, all, l.handedBack, l.freed, l.released, multiset{}, all, One(v));
      }
    case SetValue(k, v) =>
      if k in l.contents {
        BagUpdate(l.contents, k, v);
        BagSplit(l.contents, k);
        Rebalance(l.accepted, all, l.handedBack, l.freed, l.released,
                  One(l.contents[k]), Bag(l.contents - {k}), One(v));
      }
    case Walk(order, proc) =>
      if forall k :: k in order ==> k in l.contents {
        var books := Books(order, l.contents, proc, []);
        BooksBalance(order, l.contents, proc, [], false);
        RebalanceWalk(l.accepted, all, l.handedBack, l.freed, l.released,
                      Bag(Iterate(order, l.contents, proc, [], false).contents), books.0, books.1);
      }
    case Delete(k, _) =>
      if k in l.contents {
        BagSplit(l.contents, k);
        Rebalance(l.accepted, all, l.handedBack, l.freed, l.released,
                  One(l.contents[k]), Bag(l.contents - {k}), multiset{});
      }
    case _ =>
      Rebalance(l.accepted, all, l.handedBack, l.freed, l.released, all, multiset{}, multiset{});
  }

  ghost function Run<K(!new)>(l: Ledger<K>, ops: seq<Op<K>>, hasDelProc: bool): Ledger<K>
    decreases |ops|
  {
    if ops == [] then l else Run(Step(l, ops[0], hasDelProc), ops[1..], hasDelProc)
  }

  predicate Frees<K(!new)>(op: Op<K>) {
    match op
    case Delete(_, free) => free
    case Clear(free) => free
    case Shutdown(free) => free
    case _ => true
  }

  /**
   * In every run each non-NULL value that was stored is, exactly once, still stored, handed back by an
   * overwriting call, freed or released; with a free procedure and all free flags set none is released.
   */
  lemma {:induction false} Conservation<K(!new)>(l: Ledger<K>, ops: seq<Op<K>>, hasDelProc: bool)
    requires Balanced(l)
    ensures Balanced(Run(l, ops, hasDelProc))
    ensures hasDelProc && (forall op :: op in ops ==> Frees(op)) ==> Run(l, ops, hasDelProc).released == l.released
    decreases |ops|
  {
    if ops == [] {
    } else {
      StepBalanced(l, ops[0], hasDelProc);
      Conservation(Step(l, ops[0], hasDelProc), ops[1..], hasDelProc);
      assert (forall op :: op in ops ==> Frees(op)) ==> Frees(ops[0]) && forall op :: op in ops[1..] ==> Frees(op);
    }
  }

  predicate AsksToFree<K(!new)>(op: Op<K>) {
    match op
    case Delete(_, free) => free
    case Clear(free) => free
    case Shutdown(free) => free
    case _ => false
  }

  /** Without a free procedure, or as long as no call asks for it, nothing is freed. */
  lemma {:induction false} NothingFreed<K(!new)>(l: Ledger<K>, ops: seq<Op<K>>, hasDelProc: bool)
    requires !hasDelProc || forall op :: op in ops ==> !AsksToFree(op)
    ensures Run(l, ops, hasDelProc).freed == l.freed
    decreases |ops|
  {
    if ops == [] {
    } else {
      assert hasDelProc ==> !AsksToFree(ops[0]);
      NothingFreed(Step(l, ops[0], hasDelProc), ops[1..], hasDelProc);
    }
  }
}
