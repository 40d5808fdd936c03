/**
 Sizzle's caches: `createCache`.

 The array `keys` may hold a key several times, and shifting out an old occurrence deletes the
 entry whatever was stored under the key since.  Which keys a cache holds is characterised on
 the whole history of stores, for every limit.
 */
module BoundedCache {
  import opened Wrappers

  datatype Store<V> = Store(key: string, value: V)

  // ---------- what a history of stores leaves ----------

  /** Where `key` was stored last. */
  predicate IsLast<V>(h: seq<Store<V>>, key: string, last: nat)
  {
    last < |h| && h[last].key == key && forall j | last < j < |h| :: h[j].key != key
  }

  /**
   The store at place t shifts out the key stored at place t - limit.  So an entry is there if no
   place from after `last - limit` up to before `|h| - limit` holds its key.
   */
  predicate Survives<V>(h: seq<Store<V>>, limit: nat, key: string, last: nat)
  {
    forall j: nat | last < j + limit < |h| :: h[j].key != key
  }

  ghost predicate Present<V>(h: seq<Store<V>>, limit: nat, key: string)
  {
    exists last: nat :: IsLast(h, key, last) && Survives(h, limit, key, last)
  }

  function KeysOf<V>(h: seq<Store<V>>): (ks: seq<string>)
    ensures |ks| == |h| && forall i | 0 <= i < |h| :: ks[i] == h[i].key
  {
    seq(|h|, i requires 0 <= i < |h| => h[i].key)
  }

  /** The keys not shifted out yet. */
  function Recent<V>(h: seq<Store<V>>, limit: nat): seq<Store<V>>
  {
    if |h| <= limit then h else h[|h| - limit..]
  }

  /** What a cache that started empty and went through `h` looks like. */
  ghost predicate Reflects<V>(h: seq<Store<V>>, limit: nat, keys: seq<string>, entries: map<string, V>)
  {
    keys == KeysOf(Recent(h, limit)) &&
    (forall key :: key in entries <==> Present(h, limit, key)) &&
    (forall key, last: nat | key in entries && IsLast(h, key, last) :: entries[key] == h[last].value)
  }

  lemma LastAfter<V>(h: seq<Store<V>>, s: Store<V>, key: string, last: nat)
    ensures IsLast(h + [s], key, last) <==> if s.key == key then last == |h| else IsLast(h, key, last)
  {
    if s.key == key {
      assert (h + [s])[|h|].key == key;
    } else {
      assert forall j | 0 <= j < |h| :: h[j] == (h + [s])[j];
      assert (h + [s])[|h|] == s;
    }
  }

  /** One more store: its own key is there, the key shifted out is not, the rest is as before. */
  lemma PresentAfter<V>(h: seq<Store<V>>, limit: nat, s: Store<V>, key: string)
    ensures Present(h + [s], limit, key) <==>
      s.key == key ||
      (Present(h, limit, key) && !(limit > 0 && |h| >= limit && h[|h| - limit].key == key))
  {
    var after := h + [s];
    if s.key == key {
      LastAfter(h, s, key, |h|);
      assert Survives(after, limit, key, |h|);
    } else {
      forall last: nat ensures IsLast(after, key, last) <==> IsLast(h, key, last) {
        LastAfter(h, s, key, last);
      }
      forall last: nat | IsLast(h, key, last)
        ensures Survives(after, limit, key, last) <==>
          Survives(h, limit, key, last) && !(limit > 0 && |h| >= limit && h[|h| - limit].key == key)
      {
        SurvivesAfter(h, limit, s, key, last);
      }
    }
  }

  lemma SurvivesAfter<V>(h: seq<Store<V>>, limit: nat, s: Store<V>, key: string, last: nat)
    requires s.key != key && IsLast(h, key, last)
    ensures Survives(h + [s], limit, key, last) <==>
      Survives(h, limit, key, last) && !(limit > 0 && |h| >= limit && h[|h| - limit].key == key)
  {
    var after := h + [s];
    assert forall j: nat | j < |h| :: after[j] == h[j];
    if Survives(after, limit, key, last) {
      forall j: nat | last < j + limit < |h| ensures h[j].key != key {
        assert after[j].key != key;
      }
      if limit > 0 && |h| >= limit {
        assert last < |h| - limit + limit < |after|;
        assert after[|h| - limit].key != key;
      }
    } else {
      var j: nat :| last < j + limit < |after| && after[j].key == key;
      assert j < |h| && j <= last;
      assert j + limit == |h| || !Survives(h, limit, key, last);
    }
  }

  // ---------- the main results ----------

  lemma {:induction false} FewKeys<V>(h: seq<Store<V>>) returns (keys: set<string>)
    ensures keys == (set s | s in h :: s.key) && |keys| <= |h|
  {
    if h == [] {
      keys := {};
    } else {
      var last := |h| - 1;
      var rest := FewKeys(h[..last]);
      assert h == h[..last] + [h[last]];
      keys := rest + {h[last].key};
    }
  }

  /** Every key that is present was among the last `limit` stores, if there is a limit at all. */
  lemma PresentIsRecent<V>(h: seq<Store<V>>, limit: nat, key: string)
    requires limit > 0 && Present(h, limit, key)
    ensures exists s :: s in Recent(h, limit) && s.key == key
  {
    var last: nat :| IsLast(h, key, last) && Survives(h, limit, key, last);
    assert last + limit >= |h| || !Survives(h, limit, key, last) by {
      assert h[last].key == key;
    }
    var i := if |h| <= limit then last else last - (|h| - limit);
    assert Recent(h, limit)[i] == h[last];
  }

  /** The promise: no more entries than the limit.  It holds for every history exactly if the limit is not 0. */
  lemma BoundedIff<V>(limit: nat, value: V)
    ensures (forall h: seq<Store<V>>, keys, entries | Reflects(h, limit, keys, entries) :: |entries| <= limit)
      <==> limit > 0
  {
    if limit > 0 {
      forall h: seq<Store<V>>, keys, entries: map<string, V> | Reflects(h, limit, keys, entries)
        ensures |entries| <= limit
      {
        Bounded(h, limit, keys, entries);
      }
    } else {
      var h := [Store("a", value)];
      assert IsLast(h, "a", 0) && Survives(h, 0, "a", 0);
      forall key ensures key in map["a" := value] <==> Present(h, 0, key) {
        if key != "a" {
          assert forall last: nat :: !IsLast(h, key, last);
        }
      }
      assert Reflects(h, 0, [], map["a" := value]);
      assert |map["a" := value]| == 1;
    }
  }

  lemma Bounded<V>(h: seq<Store<V>>, limit: nat, keys: seq<string>, entries: map<string, V>)
    requires limit > 0 && Reflects(h, limit, keys, entries)
    ensures |entries| <= limit
  {
    var recent := FewKeys(Recent(h, limit));
    forall key | key in entries ensures key in recent {
      PresentIsRecent(h, limit, key);
    }
    Subset(entries.Keys, recent);
  }

  lemma {:induction false} Subset<T>(a: set<T>, b: set<T>)
    requires a <= b
    ensures |a| <= |b|
  {
    if a != {} {
      var x :| x in a;
      Subset(a - {x}, b - {x});
    }
  }

  // ---------- "only keep the most recent entries" ----------

  /** What the comment in `createCache` promises. */
  ghost predicate HoldsRecent<V>(h: seq<Store<V>>, limit: nat)
  {
    forall key :: Present(h, limit, key) <==> key in KeysOf(Recent(h, limit))
  }

  /** No key is stored twice within `limit` stores. */
  predicate Spaced<V>(h: seq<Store<V>>, limit: nat)
  {
    forall i, j | 0 <= i < j < |h| && j < i + limit :: h[i].key != h[j].key
  }

  /** Stores of new keys, each once. */
  predicate FreshFor<V>(h: seq<Store<V>>, g: seq<Store<V>>)
  {
    (forall i, j | 0 <= i < |h| && 0 <= j < |g| :: h[i].key != g[j].key) &&
    forall i, j | 0 <= i < j < |g| :: g[i].key != g[j].key
  }

  /**
   At every point of a history, and however it goes on with new keys from there, the most recent
   entries are held exactly if there is a limit and no key is stored twice within it.
   */
  lemma RecentAlwaysHeldIff<V>(h: seq<Store<V>>, limit: nat, value: V)
    ensures (forall n: nat, g: seq<Store<V>> | n <= |h| && FreshFor(h[..n], g) :: HoldsRecent(h[..n] + g, limit))
      <==> limit > 0 && Spaced(h, limit)
  {
    if limit == 0 {
      NothingIsRecent(value);
      assert h[..0] + [Store("a", value)] == [Store("a", value)];
      assert FreshFor(h[..0], [Store("a", value)]);
    } else if Spaced(h, limit) {
      forall n: nat, g: seq<Store<V>> | n <= |h| && FreshFor(h[..n], g) ensures HoldsRecent(h[..n] + g, limit) {
        SpacedGoesOn(h, limit, n, g);
        SpacedHoldsRecent(h[..n] + g, limit);
      }
    } else {
      var i, j :| 0 <= i < j < |h| && j < i + limit && h[i].key == h[j].key;
      var g := NewStores(h[..j + 1], i + limit - j, value);
      RepeatIsLost(h[..j + 1], g, limit, i, j);
    }
  }

  lemma SpacedHoldsRecent<V>(h: seq<Store<V>>, limit: nat)
    requires limit > 0 && Spaced(h, limit)
    ensures HoldsRecent(h, limit) && Distinct(KeysOf(Recent(h, limit)))
  {
    forall key ensures Present(h, limit, key) <==> key in KeysOf(Recent(h, limit)) {
      SpacedHoldsKey(h, limit, key);
    }
    SpacedIsDistinct(h, limit);
  }

  lemma SpacedIsDistinct<V>(h: seq<Store<V>>, limit: nat)
    requires limit > 0 && Spaced(h, limit)
    ensures Distinct(KeysOf(Recent(h, limit)))
  {
    var from := if |h| <= limit then 0 else |h| - limit;
    var recent := Recent(h, limit);
    forall i, j | 0 <= i < j < |recent| ensures recent[i].key != recent[j].key {
      assert recent[i] == h[from + i] && recent[j] == h[from + j];
    }
  }

  lemma SpacedHoldsKey<V>(h: seq<Store<V>>, limit: nat, key: string)
    requires limit > 0 && Spaced(h, limit)
    ensures Present(h, limit, key) <==> key in KeysOf(Recent(h, limit))
  {
    RecentlyStored(h, limit, key);
    if Present(h, limit, key) {
      PresentIsRecent(h, limit, key);
      var k :| 0 <= k < |Recent(h, limit)| && Recent(h, limit)[k].key == key;
      assert KeysOf(Recent(h, limit))[k] == key;
    }
    if j: nat :| j < |h| <= j + limit && h[j].key == key {
      var last := LastStore(h, key, j);
      assert Survives(h, limit, key, last);
    }
  }

  lemma RecentlyStored<V>(h: seq<Store<V>>, limit: nat, key: string)
    ensures key in KeysOf(Recent(h, limit)) <==> exists j: nat :: j < |h| <= j + limit && h[j].key == key
  {
    var from := if |h| <= limit then 0 else |h| - limit;
    var recent := Recent(h, limit);
    var keys := KeysOf(recent);
    assert recent == h[from..];
    if key in keys {
      var k :| 0 <= k < |keys| && keys[k] == key;
      assert recent[k] == h[from + k];
    }
    if j: nat :| j < |h| <= j + limit && h[j].key == key {
      assert recent[j - from] == h[j];
      assert keys[j - from] == key;
    }
  }

  lemma {:induction false} LastStore<V>(h: seq<Store<V>>, key: string, i: nat) returns (last: nat)
    requires i < |h| && h[i].key == key
    ensures i <= last && IsLast(h, key, last)
    decreases |h| - i
  {
    last := i;
    if j :| i < j < |h| && h[j].key == key {
      last := LastStore(h, key, j);
    }
  }

  lemma SpacedGoesOn<V>(h: seq<Store<V>>, limit: nat, n: nat, g: seq<Store<V>>)
    requires Spaced(h, limit) && n <= |h| && FreshFor(h[..n], g)
    ensures Spaced(h[..n] + g, limit)
  {
    var all := h[..n] + g;
    forall i, j | 0 <= i < j < |all| && j < i + limit ensures all[i].key != all[j].key {
      assert all[i] == if i < n then h[..n][i] else g[i - n];
      assert all[j] == if j < n then h[..n][j] else g[j - n];
    }
  }

  /** The first of two stores within the limit, once it is shifted out, takes the second one's entry along. */
  lemma RepeatIsLost<V>(h: seq<Store<V>>, g: seq<Store<V>>, limit: nat, i: nat, j: nat)
    requires i < j < |h| && |h| == j + 1 && j < i + limit && h[i].key == h[j].key
    requires |g| == i + limit - j && FreshFor(h, g)
    ensures h[j].key in KeysOf(Recent(h + g, limit)) && !Present(h + g, limit, h[j].key)
    ensures !HoldsRecent(h + g, limit)
  {
    var all := h + g;
    var key := h[j].key;
    assert all[j].key == key;
    RecentlyStored(all, limit, key);
    forall last: nat | IsLast(all, key, last) ensures !Survives(all, limit, key, last) {
      forall k | j < k < |all| ensures all[k].key != key {
        assert all[k] == g[k - |h|];
      }
      assert all[j].key == key;
      assert all[i].key == key && last < i + limit < |all|;
    }
  }

  lemma NothingIsRecent<V>(value: V)
    ensures !HoldsRecent([Store("a", value)], 0)
  {
    var h := [Store("a", value)];
    assert IsLast(h, "a", 0) && Survives(h, 0, "a", 0);
    assert Present(h, 0, "a") && "a" !in KeysOf(Recent(h, 0));
  }

  /** A history that shows it: with room for two, "a" was stored last but one and is gone. */
  lemma StoredTwiceIsLost<V>(v: V, w: V, x: V)
    ensures
      var h := [Store("a", v), Store("a", w), Store("b", x)];
      "a" in KeysOf(Recent(h, 2)) && !Present(h, 2, "a") && !Spaced(h, 2)
  {
    var h := [Store("a", v), Store("a", w)];
    assert h + [Store("b", x)] == [Store("a", v), Store("a", w), Store("b", x)];
    assert h[0].key == h[1].key;
    RepeatIsLost(h, [Store("b", x)], 2, 0, 1);
    var all := [Store("a", v), Store("a", w), Store("b", x)];
    assert all[0].key == all[1].key;
  }

  // ---------- new keys ----------

  function Longest<V>(h: seq<Store<V>>): nat
  {
    if h == [] then 0
    else
      var rest := Longest(h[1..]);
      if |h[0].key| > rest then |h[0].key| else rest
  }

  lemma {:induction false} LongestBounds<V>(h: seq<Store<V>>)
    ensures forall i | 0 <= i < |h| :: |h[i].key| <= Longest(h)
  {
    if h != [] {
      LongestBounds(h[1..]);
      assert forall i | 1 <= i < |h| :: h[i] == h[1..][i - 1];
    }
  }

  /** There always are new keys: longer ones. */
  lemma NewStores<V>(h: seq<Store<V>>, n: nat, value: V) returns (g: seq<Store<V>>)
    ensures |g| == n && FreshFor(h, g)
  {
    LongestBounds(h);
    g := seq(n, i requires 0 <= i < n => Store(seq(Longest(h) + 1 + i, _ => 'x'), value));
    assert forall i | 0 <= i < n :: |g[i].key| == Longest(h) + 1 + i;
  }

  // ---------- how the caches are used ----------

  /** Stores of keys that are not in the cache: how `tokenize` and `compile` use theirs. */
  ghost predicate OnlyMisses<V>(h: seq<Store<V>>, limit: nat)
  {
    forall n: nat | n < |h| :: !Present(h[..n], limit, h[n].key)
  }

  predicate Distinct(keys: seq<string>)
  {
    forall i, j | 0 <= i < j < |keys| :: keys[i] != keys[j]
  }

  /** Used like that, no key is stored twice within the limit. */
  lemma {:induction false} MissesAreSpaced<V>(h: seq<Store<V>>, limit: nat)
    requires limit > 0 && OnlyMisses(h, limit)
    ensures Spaced(h, limit)
  {
    if h != [] {
      var n := |h| - 1;
      var before := h[..n];
      forall k: nat | k < n ensures !Present(before[..k], limit, before[k].key) {
        assert before[..k] == h[..k];
      }
      MissesAreSpaced(before, limit);
      SpacedHoldsRecent(before, limit);
      forall i | 0 <= i < n && n < i + limit ensures h[i].key != h[n].key {
        var from := if n <= limit then 0 else n - limit;
        assert KeysOf(Recent(before, limit))[i - from] == h[i].key;
      }
      forall i, j | 0 <= i < j < |h| && j < i + limit ensures h[i].key != h[j].key {
        if j < n {
          assert before[i].key != before[j].key;
        }
      }
    }
  }

  /** So the caches do hold exactly the most recent entries. */
  lemma MostRecentExactly<V>(h: seq<Store<V>>, limit: nat)
    requires limit > 0 && OnlyMisses(h, limit)
    ensures Distinct(KeysOf(Recent(h, limit)))
    ensures forall key :: Present(h, limit, key) <==> key in KeysOf(Recent(h, limit))
  {
    MissesAreSpaced(h, limit);
    SpacedHoldsRecent(h, limit);
  }

  // ---------- the object ----------

  class Cache<V> {
    const cacheLength: nat
    var keys: seq<string>
    var entries: map<string, V>
    ghost var stores: seq<Store<V>>

    ghost predicate Valid()
      reads this
    {
      Reflects(stores, cacheLength, keys, entries)
    }

    constructor (cacheLength: nat)
      ensures Valid() && stores == [] && this.cacheLength == cacheLength
    {
      this.cacheLength := cacheLength;
      keys, entries, stores := [], map[], [];
    }

    method Put(key: string, value: V)
      requires Valid()
      modifies this
      ensures Valid() && stores == old(stores) + [Store(key, value)]
      ensures key in entries && entries[key] == value
      ensures forall k | k in entries && k != key :: k in old(entries) && entries[k] == old(entries)[k]
    {
      keys := keys + [key];
      if |keys| > cacheLength {
        entries := entries - {keys[0]};
        keys := keys[1..];
      }
      entries := entries[key := value];
      stores := stores + [Store(key, value)];
      PutReflects(old(stores), cacheLength, Store(key, value), old(keys), old(entries), entries);
    }
  }

  lemma PutReflects<V>(h: seq<Store<V>>, limit: nat, s: Store<V>, keys: seq<string>, entries: map<string, V>,
                       after: map<string, V>)
    requires Reflects(h, limit, keys, entries)
    requires after == (if |h| >= limit then entries - {(keys + [s.key])[0]} else entries)[s.key := s.value]
    ensures Reflects(h + [s], limit, if |h| >= limit then (keys + [s.key])[1..] else keys + [s.key], after)
  {
    RecentAfter(h, limit, s);
    forall key ensures key in after <==> Present(h + [s], limit, key) {
      PresentAfter(h, limit, s, key);
    }
    forall key, last: nat | key in after && IsLast(h + [s], key, last) ensures after[key] == (h + [s])[last].value {
      LastAfter(h, s, key, last);
      if key != s.key {
        assert (h + [s])[last] == h[last];
      }
    }
  }

  lemma RecentAfter<V>(h: seq<Store<V>>, limit: nat, s: Store<V>)
    ensures
      var keys := KeysOf(Recent(h, limit)) + [s.key];
      KeysOf(Recent(h + [s], limit)) == (if |h| >= limit then keys[1..] else keys) &&
      (|h| >= limit ==> keys[0] == if limit == 0 then s.key else h[|h| - limit].key)
  {
    var all := h + [s];
    if |h| < limit {
      assert KeysOf(all) == KeysOf(h) + [s.key];
    } else {
      var recent := Recent(h, limit);
      assert recent == h[|h| - limit..];
      assert Recent(all, limit) == (recent + [s])[1..];
      assert KeysOf(recent + [s]) == KeysOf(recent) + [s.key];
      assert KeysOf((recent + [s])[1..]) == (KeysOf(recent) + [s.key])[1..];
    }
  }
}
