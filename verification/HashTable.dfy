/** The chained hash table: find, create, delete, and the in-place rebuild that quadruples it. */
module HashTables {
  import opened Basics
  import opened Bits
  import opened HashIndex
  import opened Chains

  // Instantiates the link between a placement and the computed index of one key.
  ghost predicate Mention(k: Key) { true }

  ghost predicate SizedFacts(g: Geometry, level: nat, place: Placement<Key>) {
    && level <= MAX_LEVEL && g == Ideal(level)
    && (forall k :: place[k] < g.numBuckets)
    && (forall k {:trigger Mention(k)} :: Mention(k) ==> place[k] == Index(g, k))
  }

  // The sizing fields are those of a table rebuilt `level` times, and `place` is its index function.
  ghost predicate Sized(g: Geometry, level: nat, place: Placement<Key>) {
    forall t {:trigger Open(t)} :: Open(t) ==> t == Sizes ==> SizedFacts(g, level, place)
  }

  ghost function IndexMap(level: nat): Placement<Key>
    requires level <= MAX_LEVEL
  {
    imap k: Key :: Index(Ideal(level), k)
  }

  // A table without entries after `level` rebuilds.
  ghost function EmptyView(level: nat): View<Key>
    requires level <= MAX_LEVEL
  {
    View(seq(Ideal(level).numBuckets, _ => []), map[], map[], IndexMap(level), level)
  }

  lemma EmptyGood(level: nat)
    requires level <= MAX_LEVEL
    ensures EmptyView(level).Good() && Sized(Ideal(level), level, EmptyView(level).place)
    ensures |EmptyView(level).chains| == Ideal(level).numBuckets
    ensures forall b :: 0 <= b < Ideal(level).numBuckets ==> EmptyView(level).Head(b) == NULL
  {
    assert EmptyView(level).Facts();
    assert SizedFacts(Ideal(level), level, IndexMap(level)) by {
      AllInRange(level);
    }
  }

  lemma AllInRange(level: nat)
    requires level <= MAX_LEVEL
    ensures forall k :: IndexMap(level)[k] < Ideal(level).numBuckets
  {
    forall k ensures IndexMap(level)[k] < Ideal(level).numBuckets {
      IndexInRange(k, level);
    }
  }

  lemma InitialIsIdeal()
    ensures INITIAL == Ideal(0)
  {
    assert Pow2(2) == 4;
  }

  // The empty view a rebuild starts from.
  lemma NextLevel(g: Geometry, level: nat, place: Placement<Key>) returns (none: View<Key>)
    requires Sized(g, level, place) && level < MAX_LEVEL
    ensures Sized(Grow(g), level + 1, none.place) && none.level == level + 1
    ensures Grow(g).rebuildSize == 4 * g.rebuildSize > 0 && Grow(g).numBuckets == |none.chains|
    ensures none.Good() && none.byKey == map[] && none.store == map[] && none.Contents() == map[]
    ensures forall b :: 0 <= b < |none.chains| ==> none.Head(b) == NULL
  {
    assert g == Ideal(level) by { assert Open(Sizes); }
    GrowIdeal(level);
    EmptyGood(level + 1);
    none := EmptyView(level + 1);
    NoContents(none);
  }

  // The bucket whose chain holds an entry is the index of its key.
  lemma InChainOfIndex(g: Geometry, v: View<Key>, k: Key, b: nat)
    requires v.Good() && Sized(g, v.level, v.place) && k in v.byKey && b < |v.chains|
    ensures v.byKey[k] in v.chains[b] <==> b == Index(g, k)
  {
    assert v.place[k] == Index(g, k) by {
      assert Open(Sizes) && Mention(k);
    }
    assert v.ChainsOk() && v.KeysOk() by { assert Open(Entries); }
  }

  /**
   * A rebuild that keeps the entries splits each chain: a word or array key moves from bucket b to one of
   * 4b..4b+3, a string key from bucket b to one congruent to b modulo the old bucket count.
   */
  lemma RebuildSplits(g: Geometry, v: View<Key>, w: View<Key>, k: Key, b: nat, c: nat)
    requires v.Good() && w.Good() && Sized(g, v.level, v.place) && Sized(Grow(g), w.level, w.place)
    requires w.level == v.level + 1 && w.byKey == v.byKey && k in v.byKey && b < |v.chains| && c < |w.chains|
    requires v.byKey[k] in v.chains[b] && v.byKey[k] in w.chains[c] && |v.chains| == g.numBuckets
    ensures if k.StringKey? then c % |v.chains| == b else 4 * b <= c <= 4 * b + 3
  {
    InChainOfIndex(g, v, k, b);
    InChainOfIndex(Grow(g), w, k, c);
    assert g == Ideal(v.level) && Grow(g) == Ideal(v.level + 1) by { assert Open(Sizes); }
    assert v.level < MAX_LEVEL by { assert Open(Sizes); }
    SplitOnGrow(k, v.level);
  }

  ghost predicate AllFit(kind: KeyKind, keys: set<Key>) {
    forall k :: k in keys ==> kind.Fits(k)
  }

  // A bucket array with every slot cleared.
  method NewBuckets(n: nat) returns (arr: array<Ptr>)
    ensures fresh(arr) && arr.Length == n && forall b :: 0 <= b < n ==> arr[b] == NULL
  {
    arr := new Ptr[n];
    var count := 0;
    while count < n
      invariant 0 <= count <= n && forall b :: 0 <= b < count ==> arr[b] == NULL
    {
      arr[count] := NULL;
      count := count + 1;
    }
  }

  class HashTable {
    var buckets: array<Ptr>
    const staticBuckets: array<Ptr>
    var store: Store<Key>
    var numEntries: nat
    var level: nat        // which bucket array this is: the number of rebuilds since initialization
    var sizes: Geometry   // numBuckets, rebuildSize, downShift and mask
    var kind: KeyKind
    var isLive: bool      // false once the find and create procedures were replaced by the bogus ones

    ghost var view: View<Key>

    // Each slot of an array heads the chain of that bucket.
    ghost predicate Heads(arr: array<Ptr>, v: View<Key>)
      reads arr
    {
      arr.Length == |v.chains| && forall b :: 0 <= b < arr.Length ==> arr[b] == v.Head(b)
    }

    // Everything Valid says except that the table is not due for a rebuild.
    ghost predicate Consistent()
      reads this, buckets
    {
      && Sized(sizes, level, view.place) && view.level == level && sizes.numBuckets == buckets.Length
      && view.Good() && view.store == store && Heads(buckets, view) && AllFit(kind, view.byKey.Keys)
      && numEntries == |view.byKey| && isLive && staticBuckets.Length == SMALL_TABLE
    }

    ghost predicate Valid()
      reads this, buckets
    {
      Consistent() && numEntries < sizes.rebuildSize
    }

    // The finite map the table stands for.
    ghost function Contents(): map<Key, Value>
      reads this
    {
      view.Contents()
    }

    constructor (keyLen: nat)
      ensures Valid() && kind == KindOf(keyLen) && Contents() == map[] && level == 0 && numEntries == 0
      ensures kind == if keyLen == 0 then Strings else if keyLen <= 8 then OneWord else Arrays(keyLen)
      ensures fresh(buckets) && fresh(staticBuckets)
    {
      staticBuckets := new Ptr[SMALL_TABLE](_ => NULL);
      buckets := staticBuckets;
      store, numEntries, level, sizes, kind, isLive := map[], 0, 0, INITIAL, KindOf(keyLen), false;
      view := EmptyView(0);
      new;
      Init(keyLen);
    }

    method Init(keyLen: nat)
      requires staticBuckets.Length == SMALL_TABLE
      modifies this, staticBuckets
      ensures Valid() && kind == KindOf(keyLen) && Contents() == map[] && level == 0 && numEntries == 0
      ensures kind == if keyLen == 0 then Strings else if keyLen <= 8 then OneWord else Arrays(keyLen)
      ensures buckets == staticBuckets
    {
      buckets := staticBuckets;
      forall i | 0 <= i < SMALL_TABLE {
        staticBuckets[i] := NULL;
      }
      store, numEntries, level, sizes := map[], 0, 0, INITIAL;
      kind := KindOf(keyLen);
      isLive := true;
      view := EmptyView(0);
      InitialIsIdeal();
      EmptyGood(0);
    }

    lemma CountIsSize()
      requires Consistent()
      ensures numEntries == |Contents()|
    {
      assert view.KeysOk() by { assert Open(Entries); }
      assert Contents().Keys == view.byKey.Keys;
    }

    // The bucket a key belongs to, computed by hashing it as the table's kind demands.
    method ComputeIndex(key: Key) returns (idx: nat)
      requires kind.Fits(key) && Sized(sizes, level, view.place)
      ensures idx == view.place[key] < sizes.numBuckets
    {
      assert Open(Sizes);
      match kind {
      case Strings =>
        var h := HashString(key.chars);
        idx := And(h, sizes.mask);
      case OneWord =>
        idx := RandomIndex(key.word, sizes);
      case Arrays(_) =>
        var h := HashArray(key.bytes);
        idx := RandomIndex(h, sizes);
      }
      assert Mention(key);
    }

    // Searches one chain for a key.
    method SearchChain(idx: nat, key: Key) returns (hPtr: Ptr)
      requires Consistent() && idx == view.place[key] < buckets.Length
      ensures hPtr == if key in view.byKey then view.byKey[key] else NULL
      ensures hPtr != NULL <==> key in view.byKey
      ensures hPtr != NULL ==> hPtr in store && store[hPtr].key == key
    {
      hPtr := buckets[idx];
      ghost var c, i := view.chains[idx], 0;
      assert Open(Entries);
      while hPtr != NULL
        invariant 0 <= i <= |c| && hPtr == At(c, i)
        invariant forall j :: 0 <= j < i ==> store[c[j]].key != key
        decreases |c| - i
      {
        if store[hPtr].key == key {
          return;
        }
        hPtr := store[hPtr].nextPtr;
        i := i + 1;
      }
    }

    method Find(key: Key) returns (hPtr: Ptr)
      requires Valid() && kind.Fits(key)
      ensures hPtr == if key in view.byKey then view.byKey[key] else NULL
      ensures hPtr != NULL <==> key in Contents()
      ensures hPtr != NULL ==> hPtr in store && store[hPtr].clientData == Contents()[key]
    {
      var idx := ComputeIndex(key);
      hPtr := SearchChain(idx, key);
      assert Open(Entries);
    }

    /** Finds the entry of a key or adds one at the address malloc returned, which may be NULL. */
    method Create(key: Key, memory: Ptr) returns (hPtr: Ptr, isNew: bool)
      requires Valid() && kind.Fits(key) && memory !in store
      requires numEntries + 1 < Ideal(MAX_LEVEL).rebuildSize
      modifies this, buckets
      ensures Valid() && kind == old(kind) && (buckets == old(buckets) || fresh(buckets))
      ensures isNew == (key !in old(Contents()) && memory != NULL)
      ensures hPtr == if key in old(Contents()) then old(view.byKey[key]) else memory
      ensures hPtr != NULL ==> key in view.byKey && view.byKey[key] == hPtr
      ensures Contents() == if isNew then old(Contents())[key := NULL] else old(Contents())
      ensures level == if isNew && old(numEntries) + 1 >= old(sizes).rebuildSize then old(level) + 1 else old(level)
    {
      var idx := ComputeIndex(key);
      hPtr := SearchChain(idx, key);
      isNew := false;
      assert key in Contents() <==> key in view.byKey by { assert Open(Entries); }
      if hPtr == NULL {
        hPtr := memory;
        if hPtr != NULL {
          isNew := true;
          AddEntry(hPtr, key, idx);
          RebuildIfDue();
        }
      }
    }

    // Links a new entry into the table.
    method AddEntry(hPtr: Ptr, key: Key, idx: nat)
      requires Consistent() && kind.Fits(key) && key !in view.byKey && hPtr != NULL && hPtr !in store
      requires idx == view.place[key] < buckets.Length
      modifies this`numEntries, this`view, this`store, buckets
      ensures Consistent() && numEntries == old(numEntries) + 1
      ensures Contents() == old(Contents())[key := NULL] && view.byKey == old(view.byKey)[key := hPtr]
    {
      view := Pushed(view, hPtr, key, NULL);
      store := store[hPtr := Entry(buckets[idx], Slot(level, idx), NULL, key)];
      buckets[idx] := hPtr;
      numEntries := numEntries + 1;
    }

    // Half-way through a rebuild: `rest` is what the old array still holds, `view` what was moved.
    ghost predicate Rehashing(oldBuckets: array<Ptr>, rest: View<Key>)
      reads this, buckets, oldBuckets
    {
      && Sized(sizes, level, view.place) && view.level == level && sizes.numBuckets == buckets.Length
      && oldBuckets != buckets && Heads(oldBuckets, rest) && Heads(buckets, view)
      && rest.Good() && view.Good() && Shared(store, rest, view)
      && AllFit(kind, rest.byKey.Keys) && AllFit(kind, view.byKey.Keys)
    }

    // Moves the first entry of an old chain to the new array.
    method MoveEntry(oldBuckets: array<Ptr>, chain: nat, ghost rest: View<Key>) returns (ghost after: View<Key>)
      requires chain < oldBuckets.Length && oldBuckets[chain] != NULL && Rehashing(oldBuckets, rest)
      modifies this`store, this`view, oldBuckets, buckets
      ensures Rehashing(oldBuckets, after)
      ensures forall b :: 0 <= b < oldBuckets.Length && b != chain ==> oldBuckets[b] == old(oldBuckets[b])
      ensures |after.byKey| < |rest.byKey| && SameUnion(rest, old(view), after, view)
    {
      var hPtr := oldBuckets[chain];
      assert forall k :: view.place[k] < |view.chains| by { assert Open(Sizes); }
      ghost var w, e, i;
      after, w, e, i := Moved(store, rest, view, chain);
      oldBuckets[chain] := store[hPtr].nextPtr;
      var idx := ComputeIndex(store[hPtr].key);
      store := store[hPtr := store[hPtr].(bucketPtr := Slot(level, idx), nextPtr := buckets[idx])];
      buckets[idx] := hPtr;
      view := w;
    }

    // Empties one old chain.
    method MoveChain(oldBuckets: array<Ptr>, chain: nat, ghost rest: View<Key>) returns (ghost after: View<Key>)
      requires chain < oldBuckets.Length && Rehashing(oldBuckets, rest)
      modifies this`store, this`view, oldBuckets, buckets
      ensures Rehashing(oldBuckets, after) && oldBuckets[chain] == NULL
      ensures forall b :: 0 <= b < oldBuckets.Length && b != chain ==> oldBuckets[b] == old(oldBuckets[b])
      ensures SameUnion(rest, old(view), after, view)
    {
      after := rest;
      assert SameUnionFacts(rest, view, after, view);
      while oldBuckets[chain] != NULL
        invariant Rehashing(oldBuckets, after) && SameUnion(rest, old(view), after, view)
        invariant forall b :: 0 <= b < oldBuckets.Length && b != chain ==> oldBuckets[b] == old(oldBuckets[b])
        decreases |after.byKey|
      {
        ghost var a, v := after, view;
        after := MoveEntry(oldBuckets, chain, after);
        SameUnionTrans(rest, old(view), a, v, after, view);
      }
    }

    /** Quadruples the bucket array and moves every entry to the chain its key hashes to now. */
    method RebuildTable()
      requires Consistent() && numEntries <= sizes.rebuildSize && level < MAX_LEVEL
      modifies this`buckets, this`sizes, this`level, this`store, this`view, buckets
      ensures Valid() && fresh(buckets) && level == old(level) + 1
      ensures view.byKey == old(view.byKey) && Contents() == old(Contents())
      ensures forall i :: 0 <= i < old(buckets).Length ==> old(buckets)[i] == NULL
    {
      var oldSize, oldBuckets := sizes.numBuckets, buckets;
      ghost var rest, before := view, view;
      Enlarge();
      ghost var none := view;
      ghost var newBuckets := buckets;
      assert SameUnionFacts(before, none, rest, view);
      var chain := 0;
      while oldSize > 0
        invariant chain + oldSize == oldBuckets.Length
        invariant Rehashing(oldBuckets, rest) && SameUnion(before, none, rest, view)
        invariant forall b :: 0 <= b < chain ==> oldBuckets[b] == NULL
        modifies this`store, this`view, oldBuckets, newBuckets
      {
        ghost var a, v := rest, view;
        rest := MoveChain(oldBuckets, chain, rest);
        SameUnionTrans(before, none, a, v, rest, view);
        oldSize := oldSize - 1;
        chain := chain + 1;
      }
      AllEmpty(rest);
      SameUnionDone(before, none, rest, view);
      SharedEnds(store, view, rest);
    }

    method RebuildIfDue()
      requires Consistent() && numEntries <= sizes.rebuildSize && numEntries < Ideal(MAX_LEVEL).rebuildSize
      modifies this`buckets, this`sizes, this`level, this`store, this`view, buckets
      ensures Valid() && (buckets == old(buckets) || fresh(buckets))
      ensures view.byKey == old(view.byKey) && Contents() == old(Contents())
      ensures level == if numEntries >= old(sizes).rebuildSize then old(level) + 1 else old(level)
    {
      if numEntries >= sizes.rebuildSize {
        assert level < MAX_LEVEL by { assert Open(Sizes); }
        RebuildTable();
      }
    }

    // Allocates the new bucket array and sets up the sizing fields for it.
    method Enlarge()
      requires Consistent() && level < MAX_LEVEL
      modifies this`buckets, this`sizes, this`level, this`view
      ensures fresh(buckets) && Rehashing(old(buckets), old(view)) && view.byKey == map[] && view.Contents() == map[]
      ensures level == old(level) + 1 && sizes.rebuildSize == 4 * old(sizes).rebuildSize > 0
    {
      ghost var none := NextLevel(sizes, level, view.place);
      SharedEnds(store, view, none);
      sizes := Grow(sizes);
      buckets := NewBuckets(sizes.numBuckets);
      level := level + 1;
      view := none;
    }

    // Values are assigned in place.
    method SetValue(p: Ptr, val: Value)
      requires Valid() && p in store
      modifies this`store, this`view
      ensures Valid() && Contents() == old(Contents())[old(store)[p].key := val]
      ensures old(store)[p].key in old(Contents())
      ensures store == old(store)[p := old(store)[p].(clientData := val)]
      ensures view == old(view).(store := store)
    {
      ContentsOf(view, p);
      view := Assigned(view, p, val);
      store := store[p := store[p].(clientData := val)];
    }

    /** Takes an entry out of its chain and frees it; the search for its predecessor cannot fail. */
    method DeleteEntry(p: Ptr)
      requires Valid() && p in store
      modifies this`store, this`view, this`numEntries, buckets
      ensures Valid() && p !in store && numEntries == old(numEntries) - 1
      ensures Contents() == old(Contents()) - {old(store)[p].key} && old(store)[p].key in old(Contents())
    {
      ContentsOf(view, p);
      ghost var w, b, at := Removed(view, p);
      Unlink(p, b, at);
      numEntries := numEntries - 1;
      store := store - {p};
      view := w;
    }

    // Makes whatever pointed at an entry point at its successor.
    method Unlink(p: Ptr, ghost b: nat, ghost at: nat)
      requires Consistent() && p in store && b == view.place[store[p].key] < buckets.Length
      requires at < |view.chains[b]| && view.chains[b][at] == p && (at == 0 <==> view.Head(b) == p)
      requires at > 0 ==> view.chains[b][at - 1] in store
      modifies this`store, buckets
      ensures at == 0 ==> store == old(store) && buckets[b] == store[p].nextPtr
      ensures at > 0 ==> buckets[b] == old(buckets[b]) && var q := view.chains[b][at - 1];
                store == old(store)[q := old(store)[q].(nextPtr := old(store)[p].nextPtr)]
      ensures forall i :: 0 <= i < buckets.Length && i != b ==> buckets[i] == old(buckets[i])
    {
      var bucket := store[p].bucketPtr.idx;
      assert bucket == b by { assert Open(Entries); }
      if buckets[bucket] == p {
        buckets[bucket] := store[p].nextPtr;
      } else {
        var prevPtr := FindPrevious(p, bucket, at);
        store := store[prevPtr := store[prevPtr].(nextPtr := store[p].nextPtr)];
      }
    }

    method FindPrevious(p: Ptr, bucket: nat, ghost at: nat) returns (prevPtr: Ptr)
      requires Consistent() && p in store && bucket < buckets.Length
      requires 0 < at < |view.chains[bucket]| && view.chains[bucket][at] == p
      ensures prevPtr == view.chains[bucket][at - 1]
    {
      ghost var c, i := view.chains[bucket], 0;
      assert Open(Entries);
      prevPtr := buckets[bucket];
      while true
        invariant 0 <= i < at && prevPtr == c[i]
        decreases at - i
      {
        if prevPtr == NULL {
          assert false;   // "malformed bucket chain"
        }
        if store[prevPtr].nextPtr == p {
          break;
        }
        prevPtr := store[prevPtr].nextPtr;
        i := i + 1;
      }
    }

    // Frees the entries of one chain.
    method FreeChain(head: Ptr, ghost chain: seq<Ptr>, ghost rest: seq<Ptr>)
      requires Follows(store, head, chain) && Exactly(store, chain + rest)
      modifies this`store
      ensures Exactly(store, rest) && forall p :: p in store ==> p in old(store) && store[p] == old(store)[p]
    {
      var hPtr := head;
      ghost var c := chain;
      while hPtr != NULL
        invariant Follows(store, hPtr, c) && Exactly(store, c + rest)
        invariant forall p :: p in store ==> p in old(store) && store[p] == old(store)[p]
        decreases |c|
      {
        FreeStep(store, hPtr, c, rest);
        var nextPtr := store[hPtr].nextPtr;
        store := store - {hPtr};
        c := c[1..];
        hPtr := nextPtr;
      }
      FollowsStep(store, hPtr, c);
      assert c + rest == rest;
    }

    /** Frees every entry, each exactly once, and disables the table until the next Init. */
    method DeleteTable()
      requires Valid()
      modifies this`store, this`isLive
      ensures store == map[] && !isLive
    {
      WalkMeetsAll(view);
      ghost var chains := view.chains;
      var i := 0;
      while i < sizes.numBuckets
        invariant 0 <= i <= |chains| == sizes.numBuckets && Exactly(store, Flatten(chains[i..]))
        invariant forall p :: p in store ==> p in view.store && store[p] == view.store[p]
      {
        FlattenStep(chains, i);
        ChainFollows(view, i);
        FreeChain(buckets[i], chains[i], Flatten(chains[i + 1..]));
        i := i + 1;
      }
      isLive := false;
    }
  }

  /** The state of a walk over a table. */
  class HashSearch {
    var tablePtr: HashTable
    var nextIndex: nat
    var nextEntryPtr: Ptr
    ghost var current: seq<Ptr>   // what is left of the chain the walk is in

    constructor (t: HashTable)
      ensures tablePtr == t
    {
      tablePtr, nextIndex, nextEntryPtr, current := t, 0, NULL, [];
    }

    ghost predicate Ok()
      reads this, tablePtr
    {
      nextIndex <= |tablePtr.view.chains| && Follows(tablePtr.store, nextEntryPtr, current)
    }

    // The entries the walk has yet to yield, in order.
    ghost function Pending(): seq<Ptr>
      requires Ok()
      reads this, tablePtr
    {
      current + Flatten(tablePtr.view.chains[nextIndex..])
    }

    method First(t: HashTable) returns (hPtr: Ptr)
      requires t.Valid()
      modifies this
      ensures tablePtr == t && Ok()
      ensures var order := Flatten(t.view.chains);
        if order == [] then hPtr == NULL && Pending() == []
        else hPtr == order[0] && hPtr != NULL && hPtr in t.store && Pending() == order[1..]
    {
      tablePtr, nextIndex, nextEntryPtr, current := t, 0, NULL, [];
      assert Pending() == Flatten(t.view.chains);
      hPtr := Next();
    }

    // Goes on to the next chain that has entries.
    method SkipEmptyChains()
      requires tablePtr.Valid() && Ok()
      modifies this`nextIndex, this`nextEntryPtr, this`current
      ensures Ok() && Pending() == old(Pending()) && (nextEntryPtr == NULL ==> Pending() == [])
    {
      ghost var t, chains := tablePtr, tablePtr.view.chains;
      while nextEntryPtr == NULL && nextIndex < tablePtr.sizes.numBuckets
        invariant Ok() && Pending() == old(Pending())
        decreases |chains| - nextIndex
      {
        FollowsStep(t.store, nextEntryPtr, current);
        FlattenStep(chains, nextIndex);
        ChainFollows(t.view, nextIndex);
        nextEntryPtr := tablePtr.buckets[nextIndex];
        current := chains[nextIndex];
        nextIndex := nextIndex + 1;
      }
      FollowsStep(t.store, nextEntryPtr, current);
    }

    method Next() returns (hPtr: Ptr)
      requires tablePtr.Valid() && Ok()
      modifies this`nextIndex, this`nextEntryPtr, this`current
      ensures Ok()
      ensures if old(Pending()) == [] then hPtr == NULL && Pending() == []
        else hPtr == old(Pending())[0] && hPtr != NULL && hPtr in tablePtr.store && Pending() == old(Pending())[1..]
    {
      SkipEmptyChains();
      hPtr := nextEntryPtr;
      if hPtr == NULL {
        return;
      }
      FollowsStep(tablePtr.store, hPtr, current);
      HeadFirst(current, Flatten(tablePtr.view.chains[nextIndex..]));
      nextEntryPtr := tablePtr.store[hPtr].nextPtr;
      current := current[1..];
    }
  }
}
