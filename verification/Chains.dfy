/**
 * The shape of a chained hash table, whatever its keys and its hash function are.
 * Entries live in a store from addresses to records, as malloc hands them out; `free` takes an address
 * out of the store, so that following a dangling pointer would not verify.
 */
module Chains {
  import opened Basics


  /** The address of slot `idx` of the bucket array allocated by the `level`-th rebuild. */
  datatype Slot = Slot(level: nat, idx: nat)

  datatype Entry<K> = Entry(nextPtr: Ptr, bucketPtr: Slot, clientData: Value, key: K)

  type Store<K> = map<Ptr, Entry<K>>

  // ---------------------------------------------------------------- the shape of a table

  function At(c: seq<Ptr>, i: nat): Ptr {
    if i < |c| then c[i] else NULL
  }

  // The bucket of every key.
  type Placement<!K(!new)> = p: imap<K, nat> | forall k :: k in p ghost witness imap k: K :: 0

  // What a proof step needs to look into; each kind of fact is unfolded only where it is opened.
  datatype Topic = Entries | Sizes | Merges | Tables

  ghost predicate Open(t: Topic) { true }

  /** The entries of a table: chain by chain, by address, and by key. */
  datatype View<!K(!new)> =
    View(chains: seq<seq<Ptr>>, store: Store<K>, byKey: map<K, Ptr>, place: Placement<K>, level: nat)
  {
    // Chain b follows the next pointers and holds entries whose keys belong to bucket b.
    ghost predicate ChainsOk() {
      forall b, i :: 0 <= b < |chains| && 0 <= i < |chains[b]| ==>
        var p := chains[b][i];
        p in store && store[p].nextPtr == At(chains[b], i + 1) && place[store[p].key] == b
    }

    // Every entry has an address other than NULL, points back at its bucket and is found by its key.
    ghost predicate EntriesOk() {
      forall p :: p in store ==>
        && p != NULL && store[p].key in byKey && byKey[store[p].key] == p
        && store[p].bucketPtr == Slot(level, place[store[p].key])
    }

    // Every key's entry is in the chain of the key's bucket.
    ghost predicate KeysOk() {
      forall k :: k in byKey ==>
        byKey[k] in store && store[byKey[k]].key == k && place[k] < |chains| && byKey[k] in chains[place[k]]
    }

    ghost predicate NoRepeats() {
      forall b :: 0 <= b < |chains| ==> Distinct(chains[b])
    }

    ghost predicate Facts() {
      ChainsOk() && EntriesOk() && KeysOk() && NoRepeats()
    }

    // The facts about a view, available only where Open(Entries) is mentioned.
    ghost predicate Good() {
      forall t {:trigger Open(t)} :: Open(t) ==> t == Entries ==> Facts()
    }

    // The first entry of bucket b.
    ghost function Head(b: nat): Ptr
      requires b < |chains|
    {
      At(chains[b], 0)
    }

    // The finite map from keys to values.
    ghost function Contents(): map<K, Value> {
      map k | k in byKey && byKey[k] in store :: store[byKey[k]].clientData
    }

    // The view with an entry for key k at address p, first in its chain.
    ghost function Push(p: Ptr, k: K, data: Value): View<K>
      requires place[k] < |chains|
    {
      var b := place[k];
      this.(chains := chains[b := [p] + chains[b]],
            store := store[p := Entry(Head(b), Slot(level, b), data, k)],
            byKey := byKey[k := p])
    }

    // The view without the entry at position `at` of chain b.
    ghost function Remove(b: nat, at: nat): View<K>
      requires b < |chains| && at < |chains[b]| && chains[b][at] in store
      requires at > 0 ==> chains[b][at - 1] in store
    {
      var c := chains[b];
      var e := store[c[at]];
      this.(chains := chains[b := Without(c, at)],
            store := (if at > 0 then store[c[at - 1] := store[c[at - 1]].(nextPtr := e.nextPtr)] else store) - {c[at]},
            byKey := byKey - {e.key})
    }
  }

  lemma PushChains<K(!new)>(v: View<K>, p: Ptr, k: K, data: Value)
    requires v.ChainsOk() && p !in v.store && v.place[k] < |v.chains|
    ensures v.Push(p, k, data).ChainsOk()
  {
    var w, idx := v.Push(p, k, data), v.place[k];
    assert forall i :: 0 < i < |w.chains[idx]| ==> w.chains[idx][i] == v.chains[idx][i - 1];
  }

  lemma PushKeys<K(!new)>(v: View<K>, p: Ptr, k: K, data: Value)
    requires v.KeysOk() && v.EntriesOk() && p !in v.store && p != NULL && v.place[k] < |v.chains|
    requires k !in v.byKey
    ensures v.Push(p, k, data).KeysOk() && v.Push(p, k, data).EntriesOk()
  {
    var w, idx := v.Push(p, k, data), v.place[k];
    assert w.chains[idx][0] == p;
    assert forall x :: x in v.chains[idx] ==> x in w.chains[idx];
  }

  lemma PushNoRepeats<K(!new)>(v: View<K>, p: Ptr, k: K, data: Value)
    requires v.NoRepeats() && v.ChainsOk() && p !in v.store && v.place[k] < |v.chains|
    ensures v.Push(p, k, data).NoRepeats()
  {
    assert p !in v.chains[v.place[k]];
  }

  lemma PushGood<K(!new)>(v: View<K>, p: Ptr, k: K, data: Value)
    requires v.Good() && p !in v.store && p != NULL && k !in v.byKey && v.place[k] < |v.chains|
    ensures v.Push(p, k, data).Good()
  {
    assert Open(Entries);
    PushChains(v, p, k, data);
    PushKeys(v, p, k, data);
    PushNoRepeats(v, p, k, data);
  }

  /** Adding an entry for a new key at the head of its chain. */
  lemma Pushed<K(!new)>(v: View<K>, p: Ptr, k: K, data: Value) returns (w: View<K>)
    requires v.Good() && p !in v.store && p != NULL && k !in v.byKey && v.place[k] < |v.chains|
    ensures w.Good() && w.place == v.place && w.level == v.level && |w.chains| == |v.chains|
    ensures w.store == v.store[p := Entry(v.Head(v.place[k]), Slot(v.level, v.place[k]), data, k)]
    ensures w.byKey == v.byKey[k := p] && |w.byKey| == |v.byKey| + 1
    ensures forall b :: 0 <= b < |w.chains| ==> w.Head(b) == if b == v.place[k] then p else v.Head(b)
    ensures w.Contents() == v.Contents()[k := data]
  {
    PushGood(v, p, k, data);
    PushContents(v, p, k, data);
    w := v.Push(p, k, data);
  }

  lemma PushContents<K(!new)>(v: View<K>, p: Ptr, k: K, data: Value)
    requires v.Good() && p !in v.store && v.place[k] < |v.chains|
    ensures v.Push(p, k, data).Contents() == v.Contents()[k := data]
  {
    assert v.KeysOk() by { assert Open(Entries); }
  }

  // ---------------------------------------------------------------- taking out an entry

  // The position of an entry in its chain, and the entry before it.
  lemma Locate<K(!new)>(v: View<K>, p: Ptr) returns (b: nat, at: nat)
    requires v.Good() && p in v.store
    ensures b == v.place[v.store[p].key] < |v.chains| && at < |v.chains[b]| && v.chains[b][at] == p
    ensures at > 0 ==> v.chains[b][at - 1] in v.store && v.chains[b][at - 1] != p && v.chains[b][0] != p
    ensures v.store[p].nextPtr == At(v.chains[b], at + 1)
    ensures p != NULL && v.store[p].bucketPtr == Slot(v.level, b) && v.store[p].key in v.byKey
  {
    assert Open(Entries);
    b := v.place[v.store[p].key];
    at :| 0 <= at < |v.chains[b]| && v.chains[b][at] == p;
  }

  // Where the entry at position i of chain b' was before the removal.
  lemma RemoveSource<K(!new)>(v: View<K>, b: nat, at: nat, b': nat, i: nat) returns (j: nat)
    requires v.ChainsOk() && b < |v.chains| && Distinct(v.chains[b]) && at < |v.chains[b]|
    requires b' < |v.chains| && i < |v.Remove(b, at).chains[b']|
    ensures j < |v.chains[b']| && v.chains[b'][j] == v.Remove(b, at).chains[b'][i] != v.chains[b][at]
    ensures j == if b' == b && i >= at then i + 1 else i
  {
    j := if b' == b && i >= at then i + 1 else i;
    if b' != b {
      assert v.place[v.store[v.chains[b'][j]].key] == b' && v.place[v.store[v.chains[b][at]].key] == b;
    }
  }

  lemma RemoveChain<K(!new)>(v: View<K>, b: nat, at: nat, b': nat, i: nat)
    requires v.ChainsOk() && b < |v.chains| && Distinct(v.chains[b]) && at < |v.chains[b]|
    requires b' < |v.chains| && i < |v.Remove(b, at).chains[b']|
    ensures var w := v.Remove(b, at); var p := w.chains[b'][i];
      p in w.store && w.store[p].nextPtr == At(w.chains[b'], i + 1) && w.place[w.store[p].key] == b'
  {
    var w, c := v.Remove(b, at), v.chains[b];
    var j := RemoveSource(v, b, at, b', i);
    var p := v.chains[b'][j];
    assert v.store[p].nextPtr == At(v.chains[b'], j + 1);
    if at > 0 && p == c[at - 1] {
      assert v.place[v.store[p].key] == b == b';
      assert j == at - 1;
    } else {
      assert w.store[p] == v.store[p];
    }
  }

  lemma RemoveChains<K(!new)>(v: View<K>, b: nat, at: nat)
    requires v.ChainsOk() && b < |v.chains| && Distinct(v.chains[b]) && at < |v.chains[b]|
    ensures v.Remove(b, at).ChainsOk()
  {
    var w := v.Remove(b, at);
    forall b', i | 0 <= b' < |w.chains| && 0 <= i < |w.chains[b']|
      ensures var p := w.chains[b'][i];
        p in w.store && w.store[p].nextPtr == At(w.chains[b'], i + 1) && w.place[w.store[p].key] == b'
    {
      RemoveChain(v, b, at, b', i);
    }
  }

  lemma RemoveKeys<K(!new)>(v: View<K>, b: nat, at: nat)
    requires v.KeysOk() && v.EntriesOk() && b < |v.chains| && at < |v.chains[b]|
    requires v.chains[b][at] in v.store && (at > 0 ==> v.chains[b][at - 1] in v.store)
    ensures v.Remove(b, at).KeysOk()
  {
    var w, c := v.Remove(b, at), v.chains[b];
    forall k | k in w.byKey
      ensures w.byKey[k] in w.chains[w.place[k]]
    {
      var p := v.byKey[k];
      var j :| 0 <= j < |v.chains[v.place[k]]| && v.chains[v.place[k]][j] == p;
      assert p != c[at];
      if v.place[k] == b {
        assert w.chains[b][if j < at then j else j - 1] == p;
      }
    }
  }

  lemma RemoveEntries<K(!new)>(v: View<K>, b: nat, at: nat)
    requires v.EntriesOk() && b < |v.chains| && at < |v.chains[b]|
    requires v.chains[b][at] in v.store && (at > 0 ==> v.chains[b][at - 1] in v.store)
    ensures v.Remove(b, at).EntriesOk()
  {}

  lemma RemoveGood<K(!new)>(v: View<K>, b: nat, at: nat)
    requires v.Good() && b < |v.chains| && at < |v.chains[b]|
    requires v.chains[b][at] in v.store && (at > 0 ==> v.chains[b][at - 1] in v.store)
    ensures v.Remove(b, at).Good()
  {
    assert Open(Entries);
    RemoveChains(v, b, at);
    RemoveKeys(v, b, at);
    RemoveEntries(v, b, at);
    assert Distinct(v.Remove(b, at).chains[b]);
  }

  /** Taking out an entry: its predecessor, if any, now points at its successor. */
  lemma Removed<K(!new)>(v: View<K>, p: Ptr) returns (w: View<K>, b: nat, at: nat)
    requires v.Good() && p in v.store
    ensures b == v.place[v.store[p].key] < |v.chains| && at < |v.chains[b]| && v.chains[b][at] == p
    ensures at == 0 <==> v.Head(b) == p
    ensures at > 0 ==> v.chains[b][at - 1] in v.store && v.chains[b][at - 1] != p
    ensures w.Good() && w.place == v.place && w.level == v.level && |w.chains| == |v.chains|
    ensures v.store[p].key in v.byKey && w.byKey == v.byKey - {v.store[p].key} && |w.byKey| == |v.byKey| - 1
    ensures at == 0 ==> w.store == v.store - {p}
    ensures at > 0 ==> var q := v.chains[b][at - 1];
              w.store == v.store[q := v.store[q].(nextPtr := v.store[p].nextPtr)] - {p}
    ensures forall b' :: 0 <= b' < |w.chains| ==>
              w.Head(b') == if b' == b && at == 0 then v.store[p].nextPtr else v.Head(b')
    ensures w.Contents() == v.Contents() - {v.store[p].key}
  {
    b, at := Locate(v, p);
    RemoveGood(v, b, at);
    w := v.Remove(b, at);
    RemoveContents(v, b, at);
  }

  lemma RemoveContents<K(!new)>(v: View<K>, b: nat, at: nat)
    requires v.Good() && b < |v.chains| && at < |v.chains[b]|
    requires v.chains[b][at] in v.store && (at > 0 ==> v.chains[b][at - 1] in v.store)
    ensures v.Remove(b, at).Contents() == v.Contents() - {v.store[v.chains[b][at]].key}
  {
    assert v.KeysOk() && v.EntriesOk() by { assert Open(Entries); }
  }

  /** Storing a value in an entry. */
  lemma Assigned<K(!new)>(v: View<K>, p: Ptr, data: Value) returns (w: View<K>)
    requires v.Good() && p in v.store
    ensures w == v.(store := v.store[p := v.store[p].(clientData := data)]) && w.Good()
    ensures v.store[p].key in v.byKey && w.Contents() == v.Contents()[v.store[p].key := data]
  {
    w := v.(store := v.store[p := v.store[p].(clientData := data)]);
    AssignGood(v, p, data);
    assert v.KeysOk() && v.EntriesOk() by { assert Open(Entries); }
  }

  lemma AssignGood<K(!new)>(v: View<K>, p: Ptr, data: Value)
    requires v.Good() && p in v.store
    ensures v.(store := v.store[p := v.store[p].(clientData := data)]).Good()
  {
    assert Open(Entries);
    var w := v.(store := v.store[p := v.store[p].(clientData := data)]);
    assert w.ChainsOk();
    assert w.EntriesOk();
    assert w.KeysOk();
    assert w.NoRepeats();
  }

  lemma HeadInStore<K(!new)>(v: View<K>, b: nat)
    requires v.Good() && b < |v.chains|
    ensures v.chains[b] != [] ==> v.Head(b) in v.store && v.Head(b) != NULL
  {
    assert Open(Entries);
  }

  // A view whose chains all are empty has no entries.
  lemma AllEmpty<K(!new)>(v: View<K>)
    requires v.Good() && forall b :: 0 <= b < |v.chains| ==> v.Head(b) == NULL
    ensures v.byKey == map[] && v.store == map[]
  {
    forall b | 0 <= b < |v.chains|
      ensures v.chains[b] == []
    {
      HeadInStore(v, b);
    }
    assert v.KeysOk() && v.EntriesOk() by { assert Open(Entries); }
  }

  // ---------------------------------------------------------------- moving entries between two arrays

  ghost predicate SharedFacts<K(!new)>(store: Store<K>, a: View<K>, b: View<K>) {
    a.byKey.Keys !! b.byKey.Keys && a.store.Keys !! b.store.Keys && store == a.store + b.store
  }

  // Views a and b share out the entries of one store.
  ghost predicate Shared<K(!new)>(store: Store<K>, a: View<K>, b: View<K>) {
    forall t {:trigger Open(t)} :: Open(t) ==> t == Merges ==> SharedFacts(store, a, b)
  }

  ghost predicate SameUnionFacts<K(!new)>(a: View<K>, b: View<K>, a': View<K>, b': View<K>) {
    a'.byKey + b'.byKey == a.byKey + b.byKey && a'.Contents() + b'.Contents() == a.Contents() + b.Contents()
  }

  // Views a and b stand for the same entries together as a' and b'.
  ghost predicate SameUnion<K(!new)>(a: View<K>, b: View<K>, a': View<K>, b': View<K>) {
    forall t {:trigger Open(t)} :: Open(t) ==> t == Merges ==> SameUnionFacts(a, b, a', b')
  }

  lemma SameUnionTrans<K(!new)>(a: View<K>, b: View<K>, a': View<K>, b': View<K>, a'': View<K>, b'': View<K>)
    requires SameUnion(a, b, a', b') && SameUnion(a', b', a'', b'')
    ensures SameUnion(a, b, a'', b'')
  {
    assert Open(Merges);
  }

  // When all entries have moved from one view to another, both stand for the same map.
  lemma SameUnionDone<K(!new)>(a: View<K>, none: View<K>, none': View<K>, b': View<K>)
    requires SameUnion(a, none, none', b') && none.byKey == map[] && none'.byKey == map[]
    ensures b'.byKey == a.byKey && b'.Contents() == a.Contents()
  {
    assert SameUnionFacts(a, none, none', b') by { assert Open(Merges); }
    NoContents(none);
    NoContents(none');
    MergeNone(a.byKey);
    MergeNone(b'.byKey);
    MergeNone(a.Contents());
    MergeNone(b'.Contents());
  }

  lemma NoContents<K(!new)>(v: View<K>)
    requires v.byKey == map[]
    ensures v.Contents() == map[]
  {}

  lemma MergeNone<X, Y>(m: map<X, Y>)
    ensures m + map[] == m && map[] + m == m
  {}

  lemma MergeMove<X, Y>(m: map<X, Y>, n: map<X, Y>, x: X)
    requires x in m && m.Keys !! n.Keys
    ensures (m - {x}) + n[x := m[x]] == m + n
  {}

  lemma MergeUpdate<X, Y>(m: map<X, Y>, n: map<X, Y>, x: X, y: Y)
    ensures (m - {x}) + n[x := y] == (m + n)[x := y]
  {}

  lemma ContentsOf<K(!new)>(v: View<K>, p: Ptr)
    requires v.Good() && p in v.store
    ensures v.store[p].key in v.Contents() && v.Contents()[v.store[p].key] == v.store[p].clientData
    ensures v.byKey[v.store[p].key] == p && v.Contents().Keys == v.byKey.Keys
  {
    assert v.KeysOk() && v.EntriesOk() by { assert Open(Entries); }
  }

  /** Moving the first entry of a chain of a to the front of its chain in b. */
  lemma Moved<K(!new)>(store: Store<K>, a: View<K>, b: View<K>, chain: nat)
    returns (a': View<K>, b': View<K>, e: Entry<K>, idx: nat)
    requires a.Good() && b.Good() && Shared(store, a, b) && chain < |a.chains| && a.Head(chain) != NULL
    requires forall k :: b.place[k] < |b.chains|
    ensures a.Head(chain) in store && e == store[a.Head(chain)] && idx == b.place[e.key]
    ensures e.key in a.byKey && a'.byKey == a.byKey - {e.key} && b'.byKey == b.byKey[e.key := a.Head(chain)]
    ensures Shared(store[a.Head(chain) := e.(bucketPtr := Slot(b.level, idx), nextPtr := b.Head(idx))], a', b')
    ensures a'.Good() && b'.Good() && |a'.chains| == |a.chains| && |b'.chains| == |b.chains|
    ensures a'.place == a.place && b'.place == b.place && b'.level == b.level
    ensures forall i :: 0 <= i < |a.chains| ==> a'.Head(i) == if i == chain then e.nextPtr else a.Head(i)
    ensures forall i :: 0 <= i < |b.chains| ==> b'.Head(i) == if i == idx then a.Head(chain) else b.Head(i)
    ensures |a'.byKey| < |a.byKey| && SameUnion(a, b, a', b')
  {
    var p := a.Head(chain);
    assert p in a.store && a.place[a.store[p].key] == chain by { assert Open(Entries); }
    e := a.store[p];
    idx := b.place[e.key];
    ContentsOf(a, p);
    SharedOf(store, a, b, p);
    var i, at;
    a', i, at := Removed(a, p);
    b' := Pushed(b, p, e.key, e.clientData);
    MovedShared(store, a, b, p, e.(bucketPtr := Slot(b.level, idx), nextPtr := b.Head(idx)), a', b');
    MovedUnion(a, b, e.key, a', b');
  }

  // Before anything moved, and after everything did.
  lemma SharedEnds<K(!new)>(store: Store<K>, v: View<K>, none: View<K>)
    requires none.byKey == map[] && none.store == map[]
    ensures store == v.store ==> Shared(store, v, none)
    ensures Shared(store, none, v) ==> store == v.store
  {
    assert Open(Merges);
    MergeNone(v.store);
    if store == v.store {
      assert SharedFacts(store, v, none);
    }
  }

  lemma SharedOf<K(!new)>(store: Store<K>, a: View<K>, b: View<K>, p: Ptr)
    requires Shared(store, a, b) && p in a.store && a.store[p].key in a.byKey
    ensures p !in b.store && p in store && store[p] == a.store[p] && a.store[p].key !in b.byKey
    ensures a.byKey.Keys !! b.byKey.Keys
  {
    assert Open(Merges);
  }

  lemma MovedShared<K(!new)>(store: Store<K>, a: View<K>, b: View<K>, p: Ptr, e: Entry<K>, a': View<K>, b': View<K>)
    requires Shared(store, a, b) && p in a.store
    requires a'.store == a.store - {p} && b'.store == b.store[p := e]
    requires e.key in a.byKey && a'.byKey == a.byKey - {e.key} && b'.byKey == b.byKey[e.key := p]
    ensures Shared(store[p := e], a', b')
  {
    assert Open(Merges);
    MergeUpdate(a.store, b.store, p, e);
    assert SharedFacts(store[p := e], a', b');
  }

  lemma MovedUnion<K(!new)>(a: View<K>, b: View<K>, k: K, a': View<K>, b': View<K>)
    requires a.byKey.Keys !! b.byKey.Keys && k in a.byKey && k in a.Contents()
    requires a'.byKey == a.byKey - {k} && b'.byKey == b.byKey[k := a.byKey[k]]
    requires a'.Contents() == a.Contents() - {k} && b'.Contents() == b.Contents()[k := a.Contents()[k]]
    ensures SameUnion(a, b, a', b')
  {
    MergeMove(a.byKey, b.byKey, k);
    assert a.Contents().Keys <= a.byKey.Keys && b.Contents().Keys <= b.byKey.Keys;
    MergeMove(a.Contents(), b.Contents(), k);
    assert SameUnionFacts(a, b, a', b');
  }

  // ---------------------------------------------------------------- walking over all chains

  // All entries, bucket after bucket.
  function Flatten(chains: seq<seq<Ptr>>): seq<Ptr> {
    if chains == [] then [] else chains[0] + Flatten(chains[1..])
  }

  // Sequence c follows the next pointers from p to the end of its chain.
  ghost predicate Follows<K(!new)>(store: Store<K>, p: Ptr, c: seq<Ptr>) {
    p == At(c, 0) && forall i :: 0 <= i < |c| ==> c[i] in store && c[i] != NULL && store[c[i]].nextPtr == At(c, i + 1)
  }

  lemma ChainFollows<K(!new)>(v: View<K>, b: nat)
    requires v.Good() && b < |v.chains|
    ensures Follows(v.store, v.Head(b), v.chains[b])
  {
    assert Open(Entries);
  }

  // One step along a chain.
  lemma FollowsStep<K(!new)>(store: Store<K>, p: Ptr, c: seq<Ptr>)
    requires Follows(store, p, c)
    ensures p == NULL <==> c == []
    ensures p != NULL ==> p == c[0] && p in store && Follows(store, store[p].nextPtr, c[1..])
  {}

  lemma FlattenStep(chains: seq<seq<Ptr>>, i: nat)
    requires i < |chains|
    ensures Flatten(chains[i..]) == chains[i] + Flatten(chains[i + 1..])
  {
    assert chains[i..][1..] == chains[i + 1..];
  }

  // The store holds exactly the entries still pending, each once.
  ghost predicate Exactly<K(!new)>(store: Store<K>, pending: seq<Ptr>) {
    Distinct(pending) && forall p :: p in store <==> p in pending
  }

  // Freeing the first pending entry, which heads the chain c.
  lemma FreeStep<K(!new)>(store: Store<K>, p: Ptr, c: seq<Ptr>, rest: seq<Ptr>)
    requires Follows(store, p, c) && Exactly(store, c + rest) && p != NULL
    ensures p in store && c != [] && Follows(store - {p}, store[p].nextPtr, c[1..])
    ensures Exactly(store - {p}, c[1..] + rest)
  {
    FollowsStep(store, p, c);
    var d := c[1..];
    var later := d + rest;
    HeadFirst(c, rest);
    DistinctHead(p, later);
    assert forall q :: q in [p] + later <==> q == p || q in later;
    FollowsWithout(store, store[p].nextPtr, d, p) by {
      assert forall i :: 0 <= i < |d| ==> d[i] == later[i];
    }
  }

  lemma FollowsWithout<K(!new)>(store: Store<K>, q: Ptr, c: seq<Ptr>, p: Ptr)
    requires Follows(store, q, c) && p !in c
    ensures Follows(store - {p}, q, c)
  {}

  lemma {:induction false} FlattenMembers(chains: seq<seq<Ptr>>, p: Ptr)
    ensures p in Flatten(chains) <==> exists b :: 0 <= b < |chains| && p in chains[b]
  {
    if chains == [] {
    } else {
      FlattenMembers(chains[1..], p);
      if p in Flatten(chains[1..]) {
        var b :| 0 <= b < |chains[1..]| && p in chains[1..][b];
        assert p in chains[b + 1];
      }
      if b :| 0 <= b < |chains| && p in chains[b] && b > 0 {
        assert p in chains[1..][b - 1];
      }
    }
  }

  lemma {:induction false} FlattenDistinct(chains: seq<seq<Ptr>>)
    requires forall b :: 0 <= b < |chains| ==> Distinct(chains[b])
    requires forall b, b', p :: 0 <= b < b' < |chains| && p in chains[b] ==> p !in chains[b']
    ensures Distinct(Flatten(chains))
  {
    if chains == [] {
    } else {
      var rest := chains[1..];
      assert forall b, p :: 0 <= b < |rest| && p in rest[b] ==> p !in chains[0];
      FlattenDistinct(rest);
      forall p | p in Flatten(rest)
        ensures p !in chains[0]
      {
        FlattenMembers(rest, p);
      }
      DistinctConcat(chains[0], Flatten(rest));
    }
  }

  /** Walking bucket after bucket and chain after chain meets every entry exactly once. */
  lemma WalkMeetsAll<K(!new)>(v: View<K>)
    requires v.Good()
    ensures Distinct(Flatten(v.chains)) && forall p :: p in Flatten(v.chains) <==> p in v.store
  {
    assert v.ChainsOk() && v.KeysOk() && v.EntriesOk() && v.NoRepeats() by { assert Open(Entries); }
    FlattenDistinct(v.chains);
    forall p
      ensures p in Flatten(v.chains) <==> p in v.store
    {
      FlattenMembers(v.chains, p);
      if p in v.store {
        assert p in v.chains[v.place[v.store[p].key]];
      }
    }
  }

  // The keys of entries ps, in order.
  ghost predicate AreKeys<K(!new)>(store: Store<K>, ps: seq<Ptr>, keys: seq<K>) {
    |keys| == |ps| && forall i :: 0 <= i < |ps| ==> ps[i] in store && store[ps[i]].key == keys[i]
  }

  lemma AreKeysTail<K(!new)>(store: Store<K>, ps: seq<Ptr>, keys: seq<K>)
    requires AreKeys(store, ps, keys) && ps != []
    ensures AreKeys(store, ps[1..], keys[1..])
  {}

  /** The walk meets the keys of the map, each once. */
  lemma WalkEnumerates<K(!new)>(v: View<K>) returns (keys: seq<K>)
    requires v.Good()
    ensures AreKeys(v.store, Flatten(v.chains), keys) && Enumerates(keys, v.Contents())
  {
    WalkMeetsAll(v);
    var order := Flatten(v.chains);
    assert v.KeysOk() && v.EntriesOk() by { assert Open(Entries); }
    assert forall i :: 0 <= i < |order| ==> order[i] in v.store;
    keys := seq(|order|, i requires 0 <= i < |order| => v.store[order[i]].key);
    forall i, j | 0 <= i < j < |keys|
      ensures keys[i] != keys[j]
    {
      assert order[i] != order[j];
    }
    forall k | k in v.byKey
      ensures k in keys
    {
      var i :| 0 <= i < |order| && order[i] == v.byKey[k];
      assert keys[i] == k;
    }
  }

  // Assigning a value moves no entry.
  lemma AssignKeeps<K(!new)>(store: Store<K>, q: Ptr, data: Value, p: Ptr, c: seq<Ptr>, ps: seq<Ptr>, keys: seq<K>)
    requires q in store && Follows(store, p, c) && AreKeys(store, ps, keys)
    ensures var store' := store[q := store[q].(clientData := data)];
      Follows(store', p, c) && AreKeys(store', ps, keys)
  {}
}
