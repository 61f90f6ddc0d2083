/** The hash map over the table: status codes, value ownership, and iteration with callbacks. */
module HashMaps {
  import opened Basics
  import opened HashIndex
  import opened Chains
  import opened HashTables
  import opened Ledgers
  import opened Iterations
  import opened ValueBags

  lemma CreatedOne<K>(m: map<K, Value>, k: K, v: Value, w: Value)
    requires k !in m
    ensures |m[k := v]| == |m| + 1 && m[k := v][k := w] == m[k := w]
  {
    assert m[k := v].Keys == m.Keys + {k};
  }

  // What a delete comes to.
  lemma DeleteOne(l: Ledger<Key>, k: Key, free: bool, hasDelProc: bool)
    requires l.operational || l.contents == map[]
    ensures var next := Step(l, Op.Delete(k, free), hasDelProc);
      && Outcome(l, Op.Delete(k, free)).1 == (if k in l.contents then l.contents[k] else NULL)
      && next.contents == l.contents - {k}
      && next.freed == l.freed + if l.operational && free && hasDelProc && k in l.contents then One(l.contents[k])
                                 else multiset{}
  {
    if k !in l.contents {
      NothingOut(l.contents, k);
    }
  }

  class HashMap {
    const keyType: nat
    const hasDelProc: bool
    const table: HashTable
    var nEntries: int
    var isOperational: bool
    // What went through the free procedure so far.
    var freedValues: multiset<Value>

    ghost var ledger: Ledger<Key>

    ghost predicate Valid()
      reads this, table, table.buckets
    {
      && table.staticBuckets.Length == SMALL_TABLE && ledger.operational == isOperational
      && freedValues == ledger.freed
      && (if isOperational then Ready() && table.Contents() == ledger.contents
          else ledger.contents == map[] && nEntries == 0)
    }

    // The table is in use and both counters agree.
    ghost predicate ReadyFacts()
      reads this`nEntries, table, table.buckets
    {
      table.Valid() && table.kind == KindOf(keyType) && nEntries == table.numEntries
    }

    // The facts about a table in use, available only where Open(Tables) is mentioned.
    ghost predicate Ready()
      reads this`nEntries, table, table.buckets
    {
      forall t {:trigger Open(t)} :: Open(t) ==> t == Tables ==> ReadyFacts()
    }

    constructor (keyType: nat, hasDelProc: bool)
      ensures Valid() && ledger == Empty()
      ensures fresh(table) && fresh(table.buckets) && fresh(table.staticBuckets)
      ensures this.keyType == keyType && this.hasDelProc == hasDelProc
    {
      this.keyType, this.hasDelProc := keyType, hasDelProc;
      table := new HashTable(keyType);
      nEntries, isOperational, freedValues, ledger := 0, true, multiset{}, Empty();
      new;
      assert ReadyFacts();
      assert Ready();
    }

    // The walk s stands at entry he, and `left` lists it and what s has yet to yield.
    ghost predicate Walking(s: HashSearch, he: Ptr, left: seq<Ptr>)
      reads this, table, table.buckets, s
    {
      && table.Valid() && s.tablePtr == table && s.Ok()
      && left == if he == NULL then [] else [he] + s.Pending()
    }

    // Shows one entry to the callback and stores the value it assigns.
    method Visit(proc: Proc<Key>, he: Ptr, visited: seq<(Key, Value)>, ghost s: HashSearch, ghost left: seq<Ptr>,
                 ghost keys: seq<Key>)
      returns (ret: bool, now: seq<(Key, Value)>)
      requires Walking(s, he, left) && he != NULL && AreKeys(table.store, left, keys)
      modifies table`store, table`view
      ensures Walking(s, he, left) && AreKeys(table.store, left, keys) && table.level == old(table.level)
      ensures keys != [] && keys[0] in old(table.Contents())
      ensures now == visited + [(keys[0], old(table.Contents())[keys[0]])] && ret == proc(now).goOn
      ensures table.Contents() == Iterations.Assigned(old(table.Contents()), keys[0], proc(now).update)
    {
      assert he == left[0];
      ContentsOf(table.view, he);
      now := visited + [(table.store[he].key, table.store[he].clientData)];
      var verdict := proc(now);
      match verdict.update {
      case Keep =>
      case Assign(value) =>
        AssignKeeps(table.store, he, value, s.nextEntryPtr, s.current, left, keys);
        table.SetValue(he, value);
      }
      ret := verdict.goOn;
    }

    method Advance(s: HashSearch, ghost he: Ptr, ghost left: seq<Ptr>, ghost keys: seq<Key>) returns (next: Ptr)
      requires Walking(s, he, left) && he != NULL && AreKeys(table.store, left, keys)
      modifies s`nextIndex, s`nextEntryPtr, s`current
      ensures Walking(s, next, left[1..]) && AreKeys(table.store, left[1..], keys[1..]) && |left| == |keys| > 0
    {
      assert left[1..] == s.Pending();
      AreKeysTail(table.store, left, keys);
      next := s.Next();
      assert left[1..] == if next == NULL then [] else [next] + s.Pending();
    }

    // One iteration: shows an entry to the callback and, unless that refuses, goes on to the next one.
    method VisitOne(proc: Proc<Key>, he: Ptr, visited: seq<(Key, Value)>, s: HashSearch, ghost left: seq<Ptr>,
                    ghost keys: seq<Key>)
      returns (ret: bool, now: seq<(Key, Value)>, next: Ptr)
      requires Walking(s, he, left) && he != NULL && AreKeys(table.store, left, keys)
      modifies table`store, table`view, s`nextIndex, s`nextEntryPtr, s`current
      ensures table.Valid() && table.level == old(table.level) && |left| == |keys| > 0
      ensures keys[0] in old(table.Contents()) && ret == proc(now).goOn
      ensures now == visited + [(keys[0], old(table.Contents())[keys[0]])]
      ensures table.Contents() == Iterations.Assigned(old(table.Contents()), keys[0], proc(now).update)
      ensures ret ==> Walking(s, next, left[1..]) && AreKeys(table.store, left[1..], keys[1..])
    {
      ret, now := Visit(proc, he, visited, s, left, keys);
      next := he;
      if ret {
        next := Advance(s, he, left, keys);
      }
    }

    /** Calls the callback for entry after entry until it refuses; false, too, if there are no entries. */
    method DoIterate(proc: Proc<Key>) returns (ret: bool, visited: seq<(Key, Value)>, ghost order: seq<Key>)
      requires table.Valid()
      modifies table`store, table`view
      ensures table.Valid() && table.level == old(table.level)
      ensures Enumerates(order, old(table.Contents()))
      ensures Iterate(order, old(table.Contents()), proc, [], false) == Result(table.Contents(), visited, ret)
    {
      ret, visited := false, [];
      ghost var start := table.Contents();
      order := WalkEnumerates(table.view);
      ghost var left, keys := Flatten(table.view.chains), order;
      var s := new HashSearch(table);
      var he := s.First(table);
      while he != NULL
        invariant Walking(s, he, left) && AreKeys(table.store, left, keys) && fresh(s)
        invariant Midway(order, start, proc, keys, table.Contents(), visited, ret)
        invariant table.level == old(table.level)
        modifies s, table`store, table`view
        decreases |left|
      {
        assert keys != [];
        MidwayStep(order, start, proc, keys, table.Contents(), visited, ret);
        ret, visited, he := VisitOne(proc, he, visited, s, left, keys);
        if !ret {
          break;
        }
        left, keys := left[1..], keys[1..];
      }
    }

    method Find(key: Key) returns (st: Status, val: Value)
      requires Valid() && KindOf(keyType).Fits(key)
      ensures (st, val) == Outcome(ledger, Op.Find(key))
      ensures st == if !isOperational then NotOperational else if key in ledger.contents then Ok else NotFound
      ensures val == if st == Ok then ledger.contents[key] else NULL
    {
      val := NULL;
      if isOperational {
        assert Open(Tables);
        var he := table.Find(key);
        if he != NULL {
          val := table.store[he].clientData;
          st := Ok;
        } else {
          st := NotFound;
        }
      } else {
        st := NotOperational;
      }
    }

    // Enters into the ledger what happened to the table.
    ghost method Book(next: Ledger<Key>)
      requires Ready() && isOperational && next.operational && freedValues == next.freed
      requires table.Contents() == next.contents && table.staticBuckets.Length == SMALL_TABLE
      modifies this`ledger
      ensures Valid() && ledger == next
    {
      ledger := next;
    }

    // Stores a value under a key while the map is operational.
    method AddToTable(key: Key, val: Value, overwrite: bool, memory: Ptr, ghost l: Ledger<Key>)
      returns (st: Status, oldval: Value)
      requires l.operational && l.contents == table.Contents()
      requires Ready() && KindOf(keyType).Fits(key) && memory !in table.store
      requires |table.Contents()| + 1 < Ideal(MAX_LEVEL).rebuildSize
      modifies this`nEntries, table, table.buckets
      ensures Ready() && (table.buckets == old(table.buckets) || fresh(table.buckets))
      ensures var op := Op.Add(key, val, overwrite, memory != NULL);
        && table.Contents() == Step(l, op, hasDelProc).contents && (st, oldval) == Outcome(l, op)
        && Step(l, op, hasDelProc).operational && Step(l, op, hasDelProc).freed == l.freed
    {
      assert Open(Tables);
      table.CountIsSize();
      oldval := NULL;
      var he := table.Find(key);
      if he != NULL {
        oldval := table.store[he].clientData;
        if overwrite {
          SetValueOf(he, key, val);
          st := Ok;
        } else {
          st := AlreadyExists;
        }
      } else {
        st := AddNew(key, val, memory);
      }
    }

    method AddNew(key: Key, val: Value, memory: Ptr) returns (st: Status)
      requires ReadyFacts() && KindOf(keyType).Fits(key) && memory !in table.store && key !in table.Contents()
      requires table.numEntries + 1 < Ideal(MAX_LEVEL).rebuildSize
      modifies this`nEntries, table, table.buckets
      ensures ReadyFacts() && (table.buckets == old(table.buckets) || fresh(table.buckets))
      ensures st == if memory != NULL then Ok else NoMemory
      ensures table.Contents() == if memory != NULL then old(table.Contents())[key := val] else old(table.Contents())
    {
      table.CountIsSize();
      ghost var before := table.Contents();
      var he, isNew := table.Create(key, memory);
      table.CountIsSize();
      if he != NULL {
        CreatedOne(before, key, NULL, val);
        SetValueOf(he, key, val);
        nEntries := nEntries + 1;
        st := Ok;
      } else {
        st := NoMemory;
      }
    }

    /** Adds or overwrites a value; `memory` is what malloc would return for a new entry. */
    method Add(key: Key, val: Value, overwrite: bool, memory: Ptr) returns (st: Status, out: Value)
      requires Valid() && KindOf(keyType).Fits(key) && memory !in table.store
      requires |ledger.contents| + 1 < Ideal(MAX_LEVEL).rebuildSize
      modifies this`nEntries, this`ledger, table, table.buckets
      ensures Valid() && (table.buckets == old(table.buckets) || fresh(table.buckets))
      ensures ledger == Step(old(ledger), Op.Add(key, val, overwrite, memory != NULL), hasDelProc)
      ensures (st, out) == Outcome(old(ledger), Op.Add(key, val, overwrite, memory != NULL))
      ensures !isOperational ==> st == NotOperational && out == val
      ensures isOperational && key in old(ledger.contents) ==>
        st == (if overwrite then Ok else AlreadyExists) && out == old(ledger.contents)[key]
      ensures isOperational && key !in old(ledger.contents) ==>
        st == (if memory != NULL then Ok else NoMemory) && out == NULL
      ensures ledger.contents == if st == Ok then old(ledger.contents)[key := val] else old(ledger.contents)
    {
      ghost var next := Step(ledger, Op.Add(key, val, overwrite, memory != NULL), hasDelProc);
      out := val;
      if isOperational {
        st, out := AddToTable(key, val, overwrite, memory, ledger);
        Book(next);
      } else {
        st := NotOperational;
      }
    }

    method SetValueOf(he: Ptr, key: Key, val: Value)
      requires table.Valid() && key in table.view.byKey && table.view.byKey[key] == he
      modifies table`store, table`view
      ensures table.Valid() && table.Contents() == old(table.Contents())[key := val]
    {
      assert he in table.store && table.store[he].key == key by {
        assert Open(Entries);
        assert table.view.KeysOk();
      }
      table.SetValue(he, val);
    }

    // Deletes a key while the map is operational.
    method DeleteFromTable(key: Key, free: bool, ghost l: Ledger<Key>) returns (out: Value)
      requires l.operational && l.contents == table.Contents() && l.freed == freedValues
      requires Ready() && KindOf(keyType).Fits(key)
      modifies this`nEntries, this`freedValues, table`store, table`view, table`numEntries, table.buckets
      ensures Ready()
      ensures var next := Step(l, Op.Delete(key, free), hasDelProc);
        && table.Contents() == next.contents && freedValues == next.freed && next.operational
        && (Ok, out) == Outcome(l, Op.Delete(key, free))
    {
      assert Open(Tables);
      out := NULL;
      var he := table.Find(key);
      if he != NULL {
        out := table.store[he].clientData;
        if out != NULL && free && hasDelProc {
          freedValues := freedValues + multiset{out};
        }
        DeleteFound(he, key);
      }
    }

    method DeleteFound(he: Ptr, key: Key)
      requires ReadyFacts() && key in table.view.byKey && table.view.byKey[key] == he
      modifies this`nEntries, table`store, table`view, table`numEntries, table.buckets
      ensures ReadyFacts() && table.Contents() == old(table.Contents()) - {key}
    {
      assert he in table.store && table.store[he].key == key by {
        assert Open(Entries);
        assert table.view.KeysOk();
      }
      table.DeleteEntry(he);
      nEntries := nEntries - 1;
    }

    // A delete on an operational map.
    method DeleteOperational(key: Key, free: bool) returns (out: Value)
      requires Valid() && isOperational && KindOf(keyType).Fits(key)
      modifies this`nEntries, this`freedValues, this`ledger, table`store, table`view, table`numEntries, table.buckets
      ensures Valid() && ledger == Step(old(ledger), Op.Delete(key, free), hasDelProc)
      ensures (Ok, out) == Outcome(old(ledger), Op.Delete(key, free))
    {
      ghost var next := Step(ledger, Op.Delete(key, free), hasDelProc);
      out := DeleteFromTable(key, free, ledger);
      Book(next);
    }

    /** Deletes a key, if it is there, and hands its value out or to the free procedure. */
    method Delete(key: Key, free: bool) returns (st: Status, out: Value)
      requires Valid() && KindOf(keyType).Fits(key)
      modifies this`nEntries, this`freedValues, this`ledger, table`store, table`view, table`numEntries, table.buckets
      ensures Valid()
      ensures ledger == Step(old(ledger), Op.Delete(key, free), hasDelProc)
      ensures (st, out) == Outcome(old(ledger), Op.Delete(key, free))
      ensures st == if isOperational then Ok else NotOperational
      ensures out == if key in old(ledger.contents) then old(ledger.contents)[key] else NULL
      ensures ledger.contents == old(ledger.contents) - {key}
      ensures freedValues == old(freedValues) + if isOperational && free && hasDelProc then One(out) else multiset{}
    {
      DeleteOne(ledger, key, free, hasDelProc);
      out := NULL;
      if isOperational {
        out := DeleteOperational(key, free);
        st := Ok;
      } else {
        st := NotOperational;
      }
    }

    // Hands every value to the free procedure, if there is one; the callback refuses if there is none.
    method FreeAllValues()
      requires table.Valid()
      modifies table`store, table`view, this`freedValues
      ensures table.Valid() && table.Contents() == old(table.Contents())
      ensures freedValues == old(freedValues) + if hasDelProc then Bag(table.Contents()) else multiset{}
    {
      var proc: Proc<Key> := seen => Verdict(hasDelProc, Keep);
      ghost var before := table.Contents();
      var ret, visited;
      ghost var order;
      ret, visited, order := DoIterate(proc);
      IterateKeeps(order, before, proc, [], false);
      if hasDelProc {
        IterateAll(order, before, proc, [], false, before);
        freedValues := freedValues + Values(visited);
      }
    }

    method Clean(free: bool)
      requires table.Valid()
      modifies table`store, table`view, table`isLive, this`freedValues, this`nEntries
      ensures nEntries == 0 && !table.isLive && table.store == map[]
      ensures freedValues == old(freedValues)
                + if free && hasDelProc then Bag(old(table.Contents())) else multiset{}
    {
      if free {
        FreeAllValues();
      }
      table.DeleteTable();
      nEntries := 0;
    }

    // Empties the table and puts it to use again.
    method Reset(free: bool)
      requires Ready() && isOperational && table.staticBuckets.Length == SMALL_TABLE
      modifies this`freedValues, this`nEntries, this`isOperational, table, table.staticBuckets
      ensures Ready() && isOperational && table.Contents() == map[] && table.buckets == table.staticBuckets
      ensures freedValues == old(freedValues) + if free && hasDelProc then Bag(old(table.Contents())) else multiset{}
    {
      assert Open(Tables);
      isOperational := false;
      Clean(free);
      table.Init(keyType);
      isOperational := true;
    }

    /** Drops all entries; the map stays operational. */
    method Clear(free: bool) returns (st: Status)
      requires Valid()
      modifies this`freedValues, this`nEntries, this`isOperational, this`ledger, table, table.staticBuckets
      ensures Valid() && (table.buckets == old(table.buckets) || table.buckets == table.staticBuckets)
      ensures ledger == Step(old(ledger), Op.Clear(free), hasDelProc)
      ensures st == Outcome(old(ledger), Op.Clear(free)).0
      ensures isOperational == old(isOperational) && st == if isOperational then Ok else NotOperational
      ensures ledger.contents == map[]
      ensures freedValues == old(freedValues) + if free && hasDelProc then Bag(old(ledger.contents)) else multiset{}
    {
      ghost var next := Step(ledger, Op.Clear(free), hasDelProc);
      if isOperational {
        Reset(free);
        Book(next);
        st := Ok;
      } else {
        st := NotOperational;
      }
    }

    /** Drops all entries for good; the map becomes unusable. */
    method Shutdown(free: bool)
      requires Valid()
      modifies this`freedValues, this`nEntries, this`isOperational, this`ledger, table`store, table`view, table`isLive
      ensures Valid() && ledger == Step(old(ledger), Op.Shutdown(free), hasDelProc)
      ensures !isOperational && ledger.contents == map[]
      ensures freedValues == old(freedValues) + if free && hasDelProc then Bag(old(ledger.contents)) else multiset{}
    {
      ghost var next := Step(ledger, Op.Shutdown(free), hasDelProc);
      if isOperational {
        assert Open(Tables);
        isOperational := false;
        Clean(free);
      }
      ledger := next;
    }

    /** Assigns a value to an entry. */
    method SetEntryValue(he: Ptr, val: Value) returns (ghost key: Key)
      requires Valid() && isOperational && he in table.store
      modifies this`ledger, table`store, table`view
      ensures Valid() && key == old(table.store)[he].key && key in old(ledger).contents
      ensures ledger == Step(old(ledger), Op.SetValue(key, val), hasDelProc)
      ensures ledger.contents == old(ledger.contents)[key := val]
    {
      key := table.store[he].key;
      ghost var next := Step(ledger, Op.SetValue(key, val), hasDelProc);
      assert Open(Tables);
      table.SetValue(he, val);
      assert Ready();
      Book(next);
    }

    // Iterates while the map is operational, and enters what the callback assigned into the ledger.
    method IterateTable(proc: Proc<Key>, ghost l: Ledger<Key>)
      returns (ret: bool, visited: seq<(Key, Value)>, ghost order: seq<Key>, ghost next: Ledger<Key>)
      requires Ready() && l.operational && l.contents == table.Contents()
      modifies table`store, table`view
      ensures Ready() && Enumerates(order, l.contents) && next == Step(l, Op.Walk(order, proc), hasDelProc)
      ensures table.Contents() == next.contents && next.operational && next.freed == l.freed
      ensures Iterate(order, l.contents, proc, [], false) == Result(next.contents, visited, ret)
    {
      assert ReadyFacts() by { assert Open(Tables); }
      ret, visited, order := DoIterate(proc);
      next := WalkStep(l, order, proc, hasDelProc, Result(table.Contents(), visited, ret));
      assert ReadyFacts();
    }

    /** Iterates with a callback that may assign values; OK only if there are entries and none was refused. */
    method IterateMap(proc: Proc<Key>) returns (st: Status, visited: seq<(Key, Value)>, ghost order: seq<Key>)
      requires Valid()
      modifies this`ledger, table`store, table`view
      ensures Valid() && ledger == Step(old(ledger), Op.Walk(order, proc), hasDelProc)
      ensures old(ledger).operational ==> Enumerates(order, old(ledger).contents)
      ensures old(ledger).operational ==>
        Iterate(order, old(ledger).contents, proc, [], false) == Result(ledger.contents, visited, st == Ok)
      ensures old(ledger).operational ==> st == Ok || st == IterationHalted
      ensures !old(ledger).operational ==> st == NotOperational && visited == []
    {
      visited, order := [], [];
      if isOperational {
        var ret;
        ghost var next;
        ret, visited, order, next := IterateTable(proc, ledger);
        Book(next);
        st := if ret then Ok else IterationHalted;
      } else {
        st := NotOperational;
      }
    }
  }
}
