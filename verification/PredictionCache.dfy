/**
 The satellite prediction cache against its history: it holds exactly the 256
 most recently used keys, each with the value last inserted for it.
 */
module PredictionCache {

  import opened Sets
  import opened Wrappers

  type Key = (string, string, bool)

  const MAX_CACHED_PREDICTIONS: nat := 256

  // ---- Recency, from the history of uses alone ----

  function Without(keys: seq<Key>, key: Key): (r: seq<Key>)
    ensures forall x :: x in r <==> x in keys && x != key
  {
    if keys == [] then [] else
    var before := Without(keys[..|keys| - 1], key);
    if keys[|keys| - 1] == key then before else before + [keys[|keys| - 1]]
  }

  /** The keys used, without repetition, the least recently used first. */
  function Recency(used: seq<Key>): seq<Key> {
    if used == [] then [] else Without(Recency(used[..|used| - 1]), used[|used| - 1]) + [used[|used| - 1]]
  }

  function Newest(keys: seq<Key>): seq<Key> {
    if |keys| <= MAX_CACHED_PREDICTIONS then keys else keys[|keys| - MAX_CACHED_PREDICTIONS..]
  }

  /** When the key was last used. */
  function LastUse(used: seq<Key>, key: Key): (i: nat)
    requires key in used
    ensures i < |used| && used[i] == key && key !in used[i + 1..]
  {
    if used[|used| - 1] == key then |used| - 1 else
    assert used == used[..|used| - 1] + [used[|used| - 1]];
    var i := LastUse(used[..|used| - 1], key);
    assert used[i + 1..] == used[..|used| - 1][i + 1..] + [used[|used| - 1]];
    i
  }

  ghost predicate NoDuplicates(keys: seq<Key>) { forall i, j :: 0 <= i < j < |keys| ==> keys[i] != keys[j] }

  /** Sorted by last use, strictly. */
  ghost predicate ByLastUse(keys: seq<Key>, used: seq<Key>)
    requires forall k <- keys :: k in used
  {
    forall i, j :: 0 <= i < j < |keys| ==> LastUse(used, keys[i]) < LastUse(used, keys[j])
  }

  lemma {:induction false} WithoutIsSubsequence(keys: seq<Key>, key: Key, used: seq<Key>)
    requires (forall k <- keys :: k in used) && ByLastUse(keys, used)
    ensures ByLastUse(Without(keys, key), used)
  {
    if keys != [] {
      WithoutIsSubsequence(keys[..|keys| - 1], key, used);
      var before := Without(keys[..|keys| - 1], key);
      forall k <- before ensures LastUse(used, k) < LastUse(used, keys[|keys| - 1]) {
        var i :| 0 <= i < |keys| - 1 && keys[i] == k;
      }
    }
  }

  /** A key used now comes after every other. */
  lemma UsedLast(rest: seq<Key>, key: Key, before: seq<Key>)
    requires (forall k <- rest :: k in before && k != key) && ByLastUse(rest, before)
    ensures forall k <- rest + [key] :: k in before + [key]
    ensures ByLastUse(rest + [key], before + [key])
  {
    var used := before + [key];
    assert used[..|used| - 1] == before;
    forall k <- rest ensures LastUse(used, k) == LastUse(before, k) {}
  }

  /** The list holds exactly the keys used, sorted by their last use. */
  lemma {:induction false} RecencyIsByLastUse(used: seq<Key>)
    ensures forall k :: k in Recency(used) <==> k in used
    ensures ByLastUse(Recency(used), used)
  {
    if used != [] {
      var before, key := used[..|used| - 1], used[|used| - 1];
      assert used == before + [key];
      RecencyIsByLastUse(before);
      WithoutIsSubsequence(Recency(before), key, before);
      UsedLast(Without(Recency(before), key), key, before);
    }
  }

  lemma UsedAfter(used: seq<Key>, key: Key, k: Key)
    requires key in used && k in used
    ensures LastUse(used, key) < LastUse(used, k) <==> k in used[LastUse(used, key) + 1..]
  {
    var i, j := LastUse(used, key), LastUse(used, k);
    if i < j {
      assert used[i + 1..][j - i - 1] == k;
    } else {
      assert used[i + 1..] == used[j + 1..][i - j..];
    }
  }

  lemma StandsAfter(r: seq<Key>, used: seq<Key>, p: nat, j: nat)
    requires (forall k <- r :: k in used) && ByLastUse(r, used) && p < |r| && j < |r|
    ensures LastUse(used, r[p]) < LastUse(used, r[j]) <==> p < j
  {}

  lemma SameKeysAfter(used: seq<Key>, r: seq<Key>, p: nat, k: Key)
    requires (forall k :: k in r <==> k in used) && ByLastUse(r, used) && p < |r| && k in r
    ensures k in r[p + 1..] <==> k in used[LastUse(used, r[p]) + 1..]
  {
    UsedAfter(used, r[p], k);
    assert forall m :: p < m < |r| ==> r[m] == r[p + 1..][m - p - 1];
    if k in r[p + 1..] {
      var n :| 0 <= n < |r[p + 1..]| && r[p + 1..][n] == k;
      StandsAfter(r, used, p, p + 1 + n);
    } else {
      var j :| 0 <= j < |r| && r[j] == k;
      StandsAfter(r, used, p, j);
    }
  }

  /** After a key in the recency list stand exactly the keys used since its last use. */
  lemma KeysAfter(used: seq<Key>, r: seq<Key>, p: nat)
    requires (forall k :: k in r <==> k in used) && ByLastUse(r, used) && p < |r|
    ensures Elements(r[p + 1..]) == Elements(used[LastUse(used, r[p]) + 1..])
  {
    var later := used[LastUse(used, r[p]) + 1..];
    forall k ensures k in Elements(r[p + 1..]) <==> k in Elements(later) {
      if k in r { SameKeysAfter(used, r, p, k); }
    }
  }

  lemma RecencyHasNoDuplicates(used: seq<Key>)
    ensures NoDuplicates(Recency(used))
  {
    RecencyIsByLastUse(used);
  }

  lemma NewestOf(used: seq<Key>, r: seq<Key>, p: nat)
    requires (forall k :: k in r <==> k in used) && ByLastUse(r, used) && NoDuplicates(r) && p < |r|
    ensures r[p] in Newest(r) <==> |Elements(used[LastUse(used, r[p]) + 1..])| < 256
  {
    KeysAfter(used, r, p);
    DistinctElements(r[p + 1..]);
    NewestAt(r, p);
  }

  /** A used key is among the newest exactly when fewer than 256 other keys were used since its last use. */
  lemma NewestIsExact(used: seq<Key>, key: Key)
    requires key in used
    ensures key in Newest(Recency(used)) <==> |Elements(used[LastUse(used, key) + 1..])| < 256
  {
    RecencyIsByLastUse(used);
    RecencyHasNoDuplicates(used);
    var p :| 0 <= p < |Recency(used)| && Recency(used)[p] == key;
    NewestOf(used, Recency(used), p);
  }

  lemma NewestAt(r: seq<Key>, p: nat)
    requires NoDuplicates(r) && p < |r|
    ensures r[p] in Newest(r) <==> |r[p + 1..]| < 256
  {
    if |r| > 256 {
      var newest := r[|r| - 256..];
      if p >= |r| - 256 { assert newest[p - (|r| - 256)] == r[p]; }
      assert forall n :: 0 <= n < |newest| ==> newest[n] == r[n + |r| - 256];
    }
  }

  lemma {:induction false} WithoutConcat(a: seq<Key>, b: seq<Key>, key: Key)
    ensures Without(a + b, key) == Without(a, key) + Without(b, key)
    decreases |b|
  {
    if b == [] {
      assert a + b == a;
    } else {
      assert (a + b)[..|a + b| - 1] == a + b[..|b| - 1];
      WithoutConcat(a, b[..|b| - 1], key);
    }
  }

  lemma {:induction false} WithoutLength(keys: seq<Key>, key: Key)
    requires NoDuplicates(keys)
    ensures |Without(keys, key)| == if key in keys then |keys| - 1 else |keys|
  {
    if keys != [] { WithoutLength(keys[..|keys| - 1], key); }
  }

  lemma {:induction false} NoDuplicatesWithout(keys: seq<Key>, key: Key)
    requires NoDuplicates(keys)
    ensures NoDuplicates(Without(keys, key))
  {
    if keys != [] {
      var before, last := keys[..|keys| - 1], keys[|keys| - 1];
      NoDuplicatesWithout(before, key);
      assert last !in before;
      assert last !in Without(before, key);
    }
  }

  lemma NewestOfSuffix(older: seq<Key>, newer: seq<Key>)
    requires |newer| >= MAX_CACHED_PREDICTIONS
    ensures Newest(older + newer) == Newest(newer)
  {
  }

  /** Using a key in the bounded list is using it in the full one. */
  lemma UseNewest(keys: seq<Key>, key: Key)
    requires NoDuplicates(keys)
    ensures Newest(Without(Newest(keys), key) + [key]) == Newest(Without(keys, key) + [key])
  {
    if |keys| > MAX_CACHED_PREDICTIONS {
      var kept := Newest(keys);
      var dropped := keys[..|keys| - |kept|];
      assert keys == dropped + kept;
      UseSuffix(dropped, kept, key);
    }
  }

  lemma NoDuplicatesSuffix(older: seq<Key>, newer: seq<Key>)
    requires NoDuplicates(older + newer)
    ensures NoDuplicates(newer)
  {
    forall i, j | 0 <= i < j < |newer| ensures newer[i] != newer[j] {
      assert (older + newer)[|older| + i] != (older + newer)[|older| + j];
    }
  }

  lemma UseSuffix(dropped: seq<Key>, kept: seq<Key>, key: Key)
    requires NoDuplicates(dropped + kept) && |kept| == MAX_CACHED_PREDICTIONS
    ensures Newest(Without(kept, key) + [key]) == Newest(Without(dropped + kept, key) + [key])
  {
    NoDuplicatesSuffix(dropped, kept);
    WithoutConcat(dropped, kept, key);
    WithoutLength(kept, key);
    NewestOfSuffix(Without(dropped, key), Without(kept, key) + [key]);
    assert Without(dropped, key) + Without(kept, key) + [key] == Without(dropped, key) + (Without(kept, key) + [key]);
  }

  /** Moving a key to the back of the cached list keeps it the newest part of the recency list. */
  lemma UseCached(used: seq<Key>, key: Key)
    ensures var moved := Without(Newest(Recency(used)), key) + [key];
      && NoDuplicates(moved)
      && Newest(moved) == Newest(Recency(used + [key]))
      && |moved| == |Newest(Recency(used))| + if key in Newest(Recency(used)) then 0 else 1
  {
    var order := Newest(Recency(used));
    assert (used + [key])[..|used|] == used;
    RecencyHasNoDuplicates(used);
    UseNewest(Recency(used), key);
    assert NoDuplicates(order);
    NoDuplicatesWithout(order, key);
    WithoutLength(order, key);
  }

  ghost predicate Agree<V(!new)>(entries: map<Key, V>, whole: map<Key, V>) {
    forall k <- entries :: k in whole && entries[k] == whole[k]
  }

  lemma AgreeAfterInsert<V(!new)>(entries: map<Key, V>, whole: map<Key, V>, entries': map<Key, V>, key: Key, value: V)
    requires Agree(entries, whole) && Agree(entries', entries[key := value])
    ensures Agree(entries', whole[key := value])
  {}

  /** `entries` holds exactly the listed keys, with the values they had before. */
  ghost predicate Holds<V(!new)>(entries: map<Key, V>, order: seq<Key>, before: map<Key, V>) {
    && NoDuplicates(order)
    && (forall k :: k in entries <==> k in order)
    && Agree(entries, before)
  }

  lemma OldestDropped<V(!new)>(entries: map<Key, V>, order: seq<Key>, before: map<Key, V>)
    requires order != [] && Holds(entries, order, before)
    ensures Holds(entries - {order[0]}, order[1..], before)
  {
    assert order == [order[0]] + order[1..];
    forall i | 0 <= i < |order| - 1 ensures order[1..][i] != order[0] {
      assert order[1..][i] == order[i + 1];
    }
  }

  /** What the eviction loop has left of the list `full`. */
  predicate LeftOf(order: seq<Key>, full: seq<Key>) {
    && |order| <= |full| && order == full[|full| - |order|..]
    && (|order| >= MAX_CACHED_PREDICTIONS || order == full)
  }

  lemma LeftShortens(order: seq<Key>, full: seq<Key>)
    requires LeftOf(order, full) && |order| > MAX_CACHED_PREDICTIONS
    ensures LeftOf(order[1..], full)
  {
    assert order[1..] == full[|full| - |order[1..]|..];
  }

  /** The cache after the given uses (hits and inserts), with the value last inserted for each key. */
  ghost predicate Caches<V(!new)>(entries: map<Key, V>, order: seq<Key>, used: seq<Key>, inserted: map<Key, V>) {
    && order == Newest(Recency(used))
    && (forall k :: k in entries <==> k in order)
    && (forall k <- used :: k in inserted)
    && Agree(entries, inserted)
  }

  lemma HitKeeps<V(!new)>(entries: map<Key, V>, order: seq<Key>, used: seq<Key>, inserted: map<Key, V>, key: Key)
    requires Caches(entries, order, used, inserted) && key in entries
    ensures Caches(entries, Without(order, key) + [key], used + [key], inserted)
  {
    UseCached(used, key);
  }

  lemma InsertKeeps<V(!new)>(entries: map<Key, V>, order: seq<Key>, used: seq<Key>, inserted: map<Key, V>,
                             key: Key, value: V, entries': map<Key, V>, order': seq<Key>)
    requires Caches(entries, order, used, inserted)
    requires order' == Newest(Without(order, key) + [key]) && Holds(entries', order', entries[key := value])
    ensures Caches(entries', order', used + [key], inserted[key := value])
    ensures key in entries' && entries'[key] == value
  {
    assert order' == Newest(Recency(used + [key])) by { UseCached(used, key); }
    assert Agree(entries', inserted[key := value]) by { AgreeAfterInsert(entries, inserted, entries', key, value); }
    assert key in order' by { NewestKeepsLast(Without(order, key), key); }
  }

  lemma NewestKeepsLast(keys: seq<Key>, key: Key)
    ensures key in Newest(keys + [key])
  {
    var newest := Newest(keys + [key]);
    assert newest[|newest| - 1] == key;
  }

  /** Before the eviction the list and the map still agree. */
  lemma InsertedHolds<V(!new)>(entries: map<Key, V>, order: seq<Key>, used: seq<Key>, inserted: map<Key, V>,
                               key: Key, value: V)
    requires Caches(entries, order, used, inserted)
    ensures Holds(entries[key := value], Without(order, key) + [key], entries[key := value])
  {
    assert NoDuplicates(Without(order, key) + [key]) by { UseCached(used, key); }
  }

  class PredictionCache<V(==, !new)> {
    var entries: map<Key, V>
    var order: seq<Key>

    /** Every use so far, and the last value inserted for each key. */
    ghost var used: seq<Key>
    ghost var inserted: map<Key, V>

    ghost predicate Valid()
      reads this
    {
      Caches(entries, order, used, inserted)
    }

    constructor ()
      ensures Valid() && used == [] && inserted == map[]
    {
      entries, order := map[], [];
      used, inserted := [], map[];
    }

    /** A hit returns the last value inserted for the key and counts as a use; a miss changes nothing. */
    method Get(key: Key) returns (r: Option<V>)
      requires Valid()
      modifies this
      ensures Valid() && inserted == old(inserted)
      ensures r.Some? <==> key in Newest(Recency(old(used)))
      ensures r.Some? ==> key in inserted && r.value == inserted[key]
      ensures used == if r.Some? then old(used) + [key] else old(used)
    {
      if key !in entries {
        return None;
      }
      r := Some(entries[key]);
      HitKeeps(entries, order, used, inserted, key);
      order := Without(order, key) + [key];
      used := used + [key];
    }

    /** Inserting uses the key, stores the value, and evicts the least recently used keys beyond the limit. */
    method Insert(key: Key, value: V)
      requires Valid()
      modifies this
      ensures Valid() && inserted == old(inserted)[key := value] && used == old(used) + [key]
      ensures key in entries && entries[key] == value
    {
      InsertedHolds(entries, order, used, inserted, key, value);
      entries := entries[key := value];
      order := Without(order, key) + [key];
      EvictOldest();
      InsertKeeps(old(entries), old(order), used, inserted, key, value, entries, order);
      used := used + [key];
      inserted := inserted[key := value];
    }

    method EvictOldest()
      requires Holds(entries, order, entries)
      modifies this`order, this`entries
      ensures order == Newest(old(order)) && Holds(entries, order, old(entries))
    {
      while |order| > MAX_CACHED_PREDICTIONS
        invariant LeftOf(order, old(order)) && Holds(entries, order, old(entries))
      {
        OldestDropped(entries, order, old(entries));
        LeftShortens(order, old(order));
        var expired := order[0];
        order := order[1..];
        entries := entries - {expired};
      }
    }
  }
}
