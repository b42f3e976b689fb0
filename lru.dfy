/** The observable behaviour of the `lru::LruCache<String, (PathBuf, ContentType)>`
    the server keeps its index in: a recency order over distinct keys
    (least recently used first) and the entry of each key. */
module Lru {
  import opened Types
  import opened Fs

  type Key = string

  /** What a cache key points at: the cached file and its content type. */
  datatype Entry = Entry(path: CachePath, contentType: ContentType)

  /** The cache state: `order` runs from the least to the most recently used key. */
  datatype Cache = Cache(order: seq<Key>, entries: map<Key, Entry>, cap: nat)

  predicate Distinct(s: seq<Key>)
  {
    forall i, j :: 0 <= i < j < |s| ==> s[i] != s[j]
  }

  /** The crate's invariant: a positive capacity (`NonZeroUsize`), at most
      `cap` keys, each once in the recency order, and exactly the keys of the map. */
  ghost predicate Invariant(c: Cache)
  {
    && 1 <= c.cap
    && |c.order| <= c.cap
    && Distinct(c.order)
    && forall k :: k in c.order <==> k in c.entries
  }

  /** `len()`. */
  function Size(c: Cache): nat
  {
    |c.order|
  }

  /** The most recently used key. */
  function Mru(c: Cache): Key
    requires c.order != []
  {
    c.order[|c.order| - 1]
  }

  /** The recency order with `k` taken out. */
  function Remove(s: seq<Key>, k: Key): (r: seq<Key>)
    ensures forall x :: x in r <==> x in s && x != k
    ensures k !in s ==> r == s
    ensures Distinct(s) ==> Distinct(r)
    ensures Distinct(s) && k in s ==> |r| == |s| - 1
    ensures |r| <= |s|
    ensures s != [] && s[0] != k ==> r != [] && r[0] == s[0]
  {
    if s == [] then []
    else
      DistinctTail(s);
      if s[0] == k then Remove(s[1..], k)
      else
        var r := Remove(s[1..], k);
        DistinctCons(s[0], r);
        [s[0]] + r
  }

  /** The recency order after an access to `k`: `k` moves to the MRU end,
      and a different least recently used key stays in front. */
  function Touch(s: seq<Key>, k: Key): (r: seq<Key>)
    ensures r != [] && r[|r| - 1] == k
    ensures forall x :: x in r <==> x in s || x == k
    ensures s != [] && s[0] != k ==> r[0] == s[0]
  {
    Remove(s, k) + [k]
  }

  /** `get(k)`: the entry of `k`, if any; a hit makes `k` the most recently used. */
  function CacheGet(c: Cache, k: Key): (r: (Cache, Option<Entry>))
    ensures r.0.entries == c.entries && r.0.cap == c.cap
    ensures r.1.Some? <==> k in c.entries
    ensures r.1.Some? ==> r.1.value == c.entries[k] && r.0.order != [] && r.0.order[|r.0.order| - 1] == k
  {
    if k in c.entries then (c.(order := Touch(c.order, k)), Some(c.entries[k]))
    else (c, None)
  }

  /** `put(k, v)`: a present key gets the new value and becomes MRU (the old
      value is returned); a new key evicts the LRU key first when the cache
      is full, then is inserted as MRU. */
  function CachePut(c: Cache, k: Key, v: Entry): (r: (Cache, Option<Entry>))
    ensures k in r.0.entries && r.0.entries[k] == v && r.0.cap == c.cap
    ensures r.0.order != [] && r.0.order[|r.0.order| - 1] == k
    ensures r.1.Some? <==> k in c.entries
    ensures r.1.Some? ==> r.1.value == c.entries[k]
  {
    if k in c.entries then
      (Cache(Touch(c.order, k), c.entries[k := v], c.cap), Some(c.entries[k]))
    else if |c.order| == c.cap && c.order != [] then
      (Cache(c.order[1..] + [k], (c.entries - {c.order[0]})[k := v], c.cap), None)
    else
      (Cache(c.order + [k], c.entries[k := v], c.cap), None)
  }

  /** `pop_lru()`: removes and returns the least recently used key and its entry. */
  function CachePopLru(c: Cache): (r: (Cache, Option<(Key, Entry)>))
    ensures r.0.cap == c.cap
    ensures r.1.Some? ==> c.order != [] && r.1.value.0 == c.order[0] && r.0.order == c.order[1..]
    ensures r.1.Some? ==> r.1.value.0 !in r.0.entries && c.order[0] in c.entries && r.1.value.1 == c.entries[c.order[0]]
    ensures r.1.None? ==> r.0 == c
  {
    if c.order == [] || c.order[0] !in c.entries then (c, None)
    else (Cache(c.order[1..], c.entries - {c.order[0]}, c.cap), Some((c.order[0], c.entries[c.order[0]])))
  }

  lemma DistinctTail(s: seq<Key>)
    requires s != []
    ensures Distinct(s) ==> Distinct(s[1..]) && s[0] !in s[1..]
  {
  }

  lemma DistinctCons(x: Key, s: seq<Key>)
    ensures Distinct(s) && x !in s ==> Distinct([x] + s)
  {
  }

  lemma DistinctSnoc(s: seq<Key>, k: Key)
    requires Distinct(s) && k !in s
    ensures Distinct(s + [k])
  {
    var t := s + [k];
    forall i, j | 0 <= i < j < |t|
      ensures t[i] != t[j]
    {
      if j == |s| {
        assert t[i] == s[i];
      } else {
        assert t[i] == s[i] && t[j] == s[j];
      }
    }
  }

  /** Removing the front key when it occurs nowhere else. */
  lemma RemoveHead(s: seq<Key>, k: Key)
    requires s != [] && s[0] == k && k !in s[1..]
    ensures Remove(s, k) == s[1..]
  {
  }

  /** Removing a key other than the front one keeps the front. */
  lemma RemoveCons(s: seq<Key>, k: Key)
    requires s != [] && s[0] != k
    ensures Remove(s, k) == [s[0]] + Remove(s[1..], k)
  {
  }

  /** Removing a key that occurs once keeps every other key in its place
      relative to the rest: the result is the order with exactly that one
      position cut out. */
  lemma {:induction false} RemoveAt(s: seq<Key>, k: Key, i: nat)
    requires i < |s| && s[i] == k
    requires forall j :: 0 <= j < |s| && s[j] == k ==> j == i
    ensures Remove(s, k) == s[..i] + s[i + 1..]
  {
    var t := s[1..];
    if i == 0 {
      assert k !in t by {
        forall j | 0 <= j < |t|
          ensures t[j] != k
        {
          assert t[j] == s[j + 1];
        }
      }
      RemoveHead(s, k);
      assert s[..0] + s[1..] == t;
    } else {
      assert forall j :: 0 <= j < |t| && t[j] == k ==> j == i - 1 by {
        forall j | 0 <= j < |t| && t[j] == k
          ensures j == i - 1
        {
          assert s[j + 1] == k;
        }
      }
      RemoveAt(t, k, i - 1);
      RemoveCons(s, k);
      assert s[..i] == [s[0]] + t[..i - 1];
      assert s[i + 1..] == t[i..];
    }
  }

  /** A lookup hit makes the key MRU and changes no entry and no other key's
      presence; a miss changes nothing. The invariant is kept. */
  lemma GetSpec(c: Cache, k: Key)
    requires Invariant(c)
    ensures var (c', r) := CacheGet(c, k);
      && Invariant(c')
      && c'.entries == c.entries && c'.cap == c.cap
      && (r.Some? <==> k in c.entries)
      && (r.Some? ==> r.value == c.entries[k] && c'.order == Remove(c.order, k) + [k] && Mru(c') == k)
      && (r.Some? ==> forall i :: 0 <= i < |c.order| && c.order[i] == k ==>
            c'.order == c.order[..i] + c.order[i + 1..] + [k])
      && (r.None? ==> c' == c)
  {
    if k in c.entries {
      DistinctSnoc(Remove(c.order, k), k);
      forall i | 0 <= i < |c.order| && c.order[i] == k
        ensures Remove(c.order, k) == c.order[..i] + c.order[i + 1..]
      {
        RemoveAt(c.order, k, i);
      }
    }
  }

  /** `put` keeps the invariant, maps the key to the new value, makes it MRU,
      and evicts exactly the LRU key when a new key meets a full cache. */
  lemma PutSpec(c: Cache, k: Key, v: Entry)
    requires Invariant(c)
    ensures var (c', r) := CachePut(c, k, v);
      && Invariant(c')
      && c'.cap == c.cap
      && k in c'.entries && c'.entries[k] == v && Mru(c') == k
      && (r.Some? <==> k in c.entries)
      && (k in c.entries ==> r.value == c.entries[k] && c'.entries == c.entries[k := v] && Size(c') == Size(c))
      && (k in c.entries ==> forall i :: 0 <= i < |c.order| && c.order[i] == k ==>
            c'.order == c.order[..i] + c.order[i + 1..] + [k])
      && (k !in c.entries && Size(c) < c.cap ==>
            c'.entries == c.entries[k := v] && c'.order == c.order + [k] && Size(c') == Size(c) + 1)
      && (k !in c.entries && Size(c) == c.cap ==>
            && c'.entries == (c.entries - {c.order[0]})[k := v]
            && c'.order == c.order[1..] + [k]
            && Size(c') == Size(c))
  {
    var (c', r) := CachePut(c, k, v);
    if k in c.entries {
      DistinctSnoc(Remove(c.order, k), k);
      forall i | 0 <= i < |c.order| && c.order[i] == k
        ensures Remove(c.order, k) == c.order[..i] + c.order[i + 1..]
      {
        RemoveAt(c.order, k, i);
      }
    } else if |c.order| == c.cap && c.order != [] {
      DistinctTail(c.order);
      DistinctSnoc(c.order[1..], k);
      forall x
        ensures x in c'.order <==> x in c'.entries
      {
        if x != k && x != c.order[0] {
          assert x in c.order <==> x in c.order[1..];
        }
      }
    } else {
      DistinctSnoc(c.order, k);
    }
  }

  /** `pop_lru` on a non-empty valid cache removes exactly the LRU key. */
  lemma PopLruSpec(c: Cache)
    requires Invariant(c)
    ensures var (c', r) := CachePopLru(c);
      && Invariant(c')
      && c'.cap == c.cap
      && (r.Some? <==> c.order != [])
      && (r.Some? ==>
            && r.value == (c.order[0], c.entries[c.order[0]])
            && c'.order == c.order[1..]
            && c'.entries == c.entries - {c.order[0]}
            && Size(c') == Size(c) - 1)
      && (r.None? ==> c' == c)
  {
    if c.order != [] {
      DistinctTail(c.order);
      var c' := CachePopLru(c).0;
      forall x
        ensures x in c'.order <==> x in c'.entries
      {
        if x != c.order[0] {
          assert x in c.order <==> x in c.order[1..];
        }
      }
    }
  }

  /** Accessing any key other than the least recently used one leaves that
      key least recently used: after a `get`, and after a `put` that evicts
      nothing, the front of the order is the same key. */
  lemma LeastRecentlyUsedStays(c: Cache, k: Key, v: Entry)
    requires Invariant(c) && c.order != [] && k != c.order[0]
    ensures CacheGet(c, k).0.order[0] == c.order[0]
    ensures k in c.entries || Size(c) < c.cap ==> CachePut(c, k, v).0.order[0] == c.order[0]
  {
  }

  /** The `LruCache` object the server locks and updates in place. */
  class LruCache {
    var order: seq<Key>
    var entries: map<Key, Entry>
    const cap: nat

    function View(): Cache
      reads this
    {
      Cache(order, entries, cap)
    }

    ghost predicate Valid()
      reads this
    {
      Invariant(View())
    }

    /** `LruCache::new(cap)`. */
    constructor (capacity: nat)
      requires 1 <= capacity
      ensures Valid()
      ensures View() == Cache([], map[], capacity)
    {
      order, entries, cap := [], map[], capacity;
    }

    method Len() returns (n: nat)
      ensures n == Size(View())
    {
      n := |order|;
    }

    method Get(k: Key) returns (r: Option<Entry>)
      requires Valid()
      modifies this
      ensures Valid()
      ensures (View(), r) == CacheGet(old(View()), k)
    {
      ghost var c := View();
      GetSpec(c, k);
      if k in entries {
        r := Some(entries[k]);
        order := Touch(order, k);
        assert View() == CacheGet(c, k).0;
      } else {
        r := None;
      }
    }

    method Put(k: Key, v: Entry) returns (r: Option<Entry>)
      requires Valid()
      modifies this
      ensures Valid()
      ensures (View(), r) == CachePut(old(View()), k, v)
    {
      PutSpec(View(), k, v);
      if k in entries {
        r := Some(entries[k]);
        order := Touch(order, k);
      } else {
        r := None;
        if |order| == cap && order != [] {
          entries := entries - {order[0]};
          order := order[1..];
        }
        order := order + [k];
      }
      entries := entries[k := v];
    }

    method PopLru() returns (r: Option<(Key, Entry)>)
      requires Valid()
      modifies this
      ensures Valid()
      ensures (View(), r) == CachePopLru(old(View()))
    {
      PopLruSpec(View());
      if order == [] || order[0] !in entries {
        r := None;
      } else {
        var k := order[0];
        r := Some((k, entries[k]));
        entries := entries - {k};
        order := order[1..];
      }
    }
  }
}
