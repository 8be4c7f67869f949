/**
 * LruExpiringCache, the Vault client's cache: a bounded map from cache key to (value,
 * expiresAt) kept in access order, as a java.util.LinkedHashMap built with accessOrder = true
 * keeps it. Reading or writing a key makes it the most recently used; inserting a new key past
 * capacity evicts the least recently used one; an entry is visible only while now < expiresAt.
 *
 * The abstract value is a State: the keys from least to most recently used, and the entries.
 * Lookup, Insert and the empty State say what get, put and clear do to it; the class below
 * does the same step by step and is proved against them.
 */
module LruCache {
  import opened Wrappers

  datatype Entry = Entry(value: string, expiresAt: int)

  /** order lists the keys from least recently used (order[0]) to most recently used. */
  datatype State = State(order: seq<string>, entries: map<string, Entry>)

  const Empty: State := State([], map[])

  predicate Distinct(s: seq<string>)
  {
    forall i, j :: 0 <= i < j < |s| ==> s[i] != s[j]
  }

  /** The invariant: order lists each stored key once, and there are at most maxEntries of them. */
  ghost predicate WellFormed(st: State, maxEntries: int)
  {
    && Distinct(st.order)
    && (forall k :: k in st.entries <==> k in st.order)
    && |st.order| <= maxEntries
  }

  /** The sequence with every occurrence of k taken out, the rest kept in order. */
  function Remove(s: seq<string>, k: string): (r: seq<string>)
    ensures forall x :: x in r <==> x in s && x != k
    ensures Distinct(s) ==> Distinct(r) && |r| == if k in s then |s| - 1 else |s|
  {
    if s == [] then []
    else if s[0] == k then Remove(s[1..], k)
    else
      var rest := Remove(s[1..], k);
      assert Distinct(s) ==> s[0] !in s[1..];
      [s[0]] + rest
  }

  /** Taking a key out of a list that does not hold it changes nothing. */
  lemma {:induction false} RemoveAbsent(s: seq<string>, k: string)
    requires k !in s
    ensures Remove(s, k) == s
  {
    if s != [] {
      RemoveAbsent(s[1..], k);
    }
  }

  lemma {:induction false} RemoveAppend(a: seq<string>, b: seq<string>, k: string)
    ensures Remove(a + b, k) == Remove(a, k) + Remove(b, k)
  {
    if a == [] {
      assert a + b == b;
    } else {
      assert (a + b)[1..] == a[1..] + b;
      RemoveAppend(a[1..], b, k);
    }
  }

  /** Removing the first element of a distinct list is dropping it. */
  lemma RemoveHead(s: seq<string>)
    requires s != [] && Distinct(s)
    ensures Remove(s, s[0]) == s[1..]
  {
    RemoveAbsent(s[1..], s[0]);
  }

  /** The key moved to the most recently used end. */
  function Touch(order: seq<string>, k: string): seq<string>
  {
    Remove(order, k) + [k]
  }

  /** What a get returns and the state it leaves behind. */
  datatype Read = Read(value: Option<string>, after: State)

  /**
   * LruExpiringCache.get(key) at time now: absent keys miss and change nothing; an entry with
   * now >= expiresAt misses and is removed; a live entry hits and becomes most recently used.
   */
  function Lookup(st: State, key: string, now: int): Read
  {
    if key !in st.entries then Read(None, st)
    else if now >= st.entries[key].expiresAt then
      Read(None, State(Remove(st.order, key), st.entries - {key}))
    else Read(Some(st.entries[key].value), State(Touch(st.order, key), st.entries))
  }

  /**
   * LruExpiringCache.put(key, value, expiresAt): stores the entry as most recently used; only
   * when the key is new and the map now holds more than maxEntries is the eldest entry evicted.
   */
  function Insert(st: State, maxEntries: int, key: string, value: string, expiresAt: int): State
  {
    var order := Touch(st.order, key);
    var entries := st.entries[key := Entry(value, expiresAt)];
    if key !in st.entries && |order| > maxEntries then State(order[1..], entries - {order[0]})
    else State(order, entries)
  }

  // ---------------------------------------------------------------------------------------
  // get

  /** A get of an absent key returns nothing and changes nothing. */
  lemma GetAbsent(st: State, key: string, now: int)
    requires key !in st.entries
    ensures Lookup(st, key, now) == Read(None, st)
  {
  }

  /**
   * A get at or past an entry's expiry returns nothing and removes exactly that entry, keeping
   * the others in their order; a second get of that key, at any time, also returns nothing and
   * changes nothing.
   */
  lemma GetExpired(st: State, maxEntries: int, key: string, now: int, later: int)
    requires WellFormed(st, maxEntries)
    requires key in st.entries && now >= st.entries[key].expiresAt
    ensures var r := Lookup(st, key, now);
      && r.value == None
      && r.after.entries == st.entries - {key}
      && r.after.order == Remove(st.order, key)
      && |r.after.order| == |st.order| - 1
      && WellFormed(r.after, maxEntries)
      && Lookup(r.after, key, later) == Read(None, r.after)
  {
  }

  /**
   * A get before expiry returns the stored value and moves that key to the most recently used
   * end; the other keys keep their relative order and no entry changes.
   */
  lemma GetLive(st: State, maxEntries: int, key: string, now: int)
    requires WellFormed(st, maxEntries)
    requires key in st.entries && now < st.entries[key].expiresAt
    ensures var r := Lookup(st, key, now);
      && r.value == Some(st.entries[key].value)
      && r.after.entries == st.entries
      && |r.after.order| == |st.order|
      && r.after.order[|r.after.order| - 1] == key
      && Remove(r.after.order, key) == Remove(st.order, key)
      && WellFormed(r.after, maxEntries)
  {
    var r := Lookup(st, key, now);
    RemoveAppend(Remove(st.order, key), [key], key);
    RemoveAbsent(Remove(st.order, key), key);
    assert Remove([key], key) == [];
    TouchDistinct(st.order, key);
  }

  lemma TouchDistinct(order: seq<string>, key: string)
    requires Distinct(order)
    ensures Distinct(Touch(order, key))
  {
    var r := Remove(order, key);
    assert key !in r;
  }

  lemma GetWellFormed(st: State, maxEntries: int, key: string, now: int)
    requires WellFormed(st, maxEntries)
    ensures WellFormed(Lookup(st, key, now).after, maxEntries)
  {
    if key in st.entries && now < st.entries[key].expiresAt {
      GetLive(st, maxEntries, key, now);
    }
  }

  // ---------------------------------------------------------------------------------------
  // put

  /**
   * After a put the key holds (value, expiresAt) and is the most recently used, the cache is
   * still within maxEntries (coerced to at least 1), and every other key that is still present
   * keeps its entry.
   */
  lemma PutStores(st: State, maxEntries: int, key: string, value: string, expiresAt: int)
    requires maxEntries >= 1 && WellFormed(st, maxEntries)
    ensures var r := Insert(st, maxEntries, key, value, expiresAt);
      && WellFormed(r, maxEntries)
      && key in r.entries && r.entries[key] == Entry(value, expiresAt)
      && r.order[|r.order| - 1] == key
      && (forall k :: k in r.entries && k != key ==> k in st.entries && r.entries[k] == st.entries[k])
  {
    TouchDistinct(st.order, key);
    var order := Touch(st.order, key);
    if key !in st.entries && |order| > maxEntries {
      PutEvicting(st, maxEntries, key, value, expiresAt);
    }
  }

  /** PutStores when the put evicts the eldest key. */
  lemma PutEvicting(st: State, maxEntries: int, key: string, value: string, expiresAt: int)
    requires maxEntries >= 1 && WellFormed(st, maxEntries)
    requires key !in st.entries && |Touch(st.order, key)| > maxEntries
    ensures var r := Insert(st, maxEntries, key, value, expiresAt);
      && WellFormed(r, maxEntries)
      && key in r.entries && r.entries[key] == Entry(value, expiresAt)
      && r.order[|r.order| - 1] == key
      && (forall k :: k in r.entries && k != key ==> k in st.entries && r.entries[k] == st.entries[k])
  {
    TouchDistinct(st.order, key);
    var order := Touch(st.order, key);
    assert order[0] != key;
    DropEldest(order);
  }

  /** Dropping the first key of a distinct list leaves a distinct list of all the other keys. */
  lemma DropEldest(order: seq<string>)
    requires order != [] && Distinct(order)
    ensures Distinct(order[1..])
    ensures forall k :: k in order[1..] <==> k in order && k != order[0]
  {
    forall i, j | 0 <= i < j < |order[1..]| ensures order[1..][i] != order[1..][j] {
      assert order[1..][i] == order[i + 1] && order[1..][j] == order[j + 1];
    }
    forall k ensures k in order[1..] <==> k in order && k != order[0] {
      if k in order[1..] {
        var i :| 0 <= i < |order[1..]| && order[1..][i] == k;
        assert order[i + 1] == k;
      }
      if k in order && k != order[0] {
        var i :| 0 <= i < |order| && order[i] == k;
        assert order[1..][i - 1] == k;
      }
    }
  }

  /**
   * Inserting a new key into a full cache evicts exactly the least recently used entry,
   * order[0], and appends the new key.
   */
  lemma PutNewWhenFullEvictsEldest(st: State, maxEntries: int, key: string, value: string, expiresAt: int)
    requires maxEntries >= 1 && WellFormed(st, maxEntries)
    requires key !in st.entries && |st.order| == maxEntries
    ensures var r := Insert(st, maxEntries, key, value, expiresAt);
      && r.order == st.order[1..] + [key]
      && r.entries == (st.entries - {st.order[0]})[key := Entry(value, expiresAt)]
  {
    assert key !in st.order;
    InsertFresh(st, maxEntries, key, value, expiresAt);
    var order := st.order + [key];
    assert order[1..] == st.order[1..] + [key] && order[0] == st.order[0] != key;
    UpdateThenRemove(st.entries, key, Entry(value, expiresAt), st.order[0]);
  }

  /** Storing one key and dropping another can be done in either order. */
  lemma UpdateThenRemove(m: map<string, Entry>, k: string, e: Entry, x: string)
    requires k != x
    ensures m[k := e] - {x} == (m - {x})[k := e]
  {
  }

  /** Inserting a new key into a cache with room evicts nothing. */
  lemma PutNewWithRoomKeepsAll(st: State, maxEntries: int, key: string, value: string, expiresAt: int)
    requires WellFormed(st, maxEntries)
    requires key !in st.entries && |st.order| < maxEntries
    ensures var r := Insert(st, maxEntries, key, value, expiresAt);
      && r.order == st.order + [key]
      && r.entries == st.entries[key := Entry(value, expiresAt)]
  {
    RemoveAbsent(st.order, key);
  }

  /** Replacing the value of a present key evicts nothing: the same keys stay, the key moves last. */
  lemma PutReplaceEvictsNothing(st: State, maxEntries: int, key: string, value: string, expiresAt: int)
    requires WellFormed(st, maxEntries)
    requires key in st.entries
    ensures var r := Insert(st, maxEntries, key, value, expiresAt);
      && r.entries.Keys == st.entries.Keys
      && r.entries == st.entries[key := Entry(value, expiresAt)]
      && r.order == Remove(st.order, key) + [key]
      && |r.order| == |st.order|
  {
  }

  /** Once the cache is full, every further put leaves it holding exactly maxEntries entries. */
  lemma PutWhenFullStaysFull(st: State, maxEntries: int, key: string, value: string, expiresAt: int)
    requires maxEntries >= 1 && WellFormed(st, maxEntries) && |st.order| == maxEntries
    ensures |Insert(st, maxEntries, key, value, expiresAt).order| == maxEntries
    ensures |Insert(st, maxEntries, key, value, expiresAt).entries| == maxEntries
  {
    var r := Insert(st, maxEntries, key, value, expiresAt);
    PutStores(st, maxEntries, key, value, expiresAt);
    DistinctKeysCount(r.order, r.entries);
    if key !in st.entries {
      PutNewWhenFullEvictsEldest(st, maxEntries, key, value, expiresAt);
    }
  }

  /** In a well-formed state the map holds as many entries as order lists keys. */
  lemma {:induction false} DistinctKeysCount(order: seq<string>, entries: map<string, Entry>)
    requires Distinct(order) && forall k :: k in entries <==> k in order
    ensures |entries| == |order|
    decreases |order|
  {
    if order == [] {
      assert entries.Keys == {};
    } else {
      var last := order[|order| - 1];
      var init := order[..|order| - 1];
      assert order == init + [last];
      assert last !in init;
      forall k ensures k in (entries - {last}) <==> k in init {
        if k in init {
          assert k in order;
        }
      }
      DistinctKeysCount(init, entries - {last});
      assert entries.Keys == (entries - {last}).Keys + {last};
    }
  }

  // ---------------------------------------------------------------------------------------
  // Eviction order

  /** A put of a key the cache has never listed appends it, evicting order[0] if that overflows. */
  lemma InsertFresh(st: State, maxEntries: int, key: string, value: string, expiresAt: int)
    requires key !in st.entries && key !in st.order
    ensures var order := st.order + [key];
      var entries := st.entries[key := Entry(value, expiresAt)];
      Insert(st, maxEntries, key, value, expiresAt)
        == if |order| > maxEntries then State(order[1..], entries - {order[0]}) else State(order, entries)
  {
    RemoveAbsent(st.order, key);
  }

  /** Two puts of different keys into an empty cache of capacity 2 keep both, a first. */
  lemma FillTwo(a: string, b: string, v: string, t: int)
    requires a != b
    ensures var st := Insert(Insert(Empty, 2, a, v, t), 2, b, v, t);
      && st.order == [a, b]
      && (forall k :: k in st.entries <==> k == a || k == b)
      && st.entries[a] == Entry(v, t)
  {
    InsertFresh(Empty, 2, a, v, t);
    var s1 := Insert(Empty, 2, a, v, t);
    assert s1.order == [a] && s1.entries == map[a := Entry(v, t)];
    InsertFresh(s1, 2, b, v, t);
  }

  /** A put of a third key into a cache of capacity 2 holding x then y evicts x. */
  lemma OverflowPair(st: State, x: string, y: string, c: string, v: string, t: int)
    requires x != y && c != x && c != y
    requires st.order == [x, y] && forall k :: k in st.entries <==> k == x || k == y
    ensures var r := Insert(st, 2, c, v, t);
      && r.order == [y, c]
      && (forall k :: k in r.entries <==> k == y || k == c)
  {
    InsertFresh(st, 2, c, v, t);
    assert (st.order + [c])[1..] == [y, c];
  }

  /**
   * With maxEntries = 2, putting a, b and c in turn evicts a, the least recently used, and
   * keeps b and c.
   */
  lemma EvictsLeastRecentlyUsed(a: string, b: string, c: string, v: string, t: int)
    requires a != b && b != c && a != c
    ensures var st := Insert(Insert(Insert(Empty, 2, a, v, t), 2, b, v, t), 2, c, v, t);
      && a !in st.entries && b in st.entries && c in st.entries
      && st.order == [b, c]
  {
    FillTwo(a, b, v, t);
    OverflowPair(Insert(Insert(Empty, 2, a, v, t), 2, b, v, t), a, b, c, v, t);
  }

  /**
   * A get protects an entry from being the next one evicted: with maxEntries = 2, after putting
   * a and b, a live get of a and a put of c evict b and keep a.
   */
  lemma GetProtectsFromEviction(a: string, b: string, c: string, v: string, t: int, now: int)
    requires a != b && b != c && a != c
    requires now < t
    ensures var s2 := Insert(Insert(Empty, 2, a, v, t), 2, b, v, t);
      var g := Lookup(s2, a, now);
      var st := Insert(g.after, 2, c, v, t);
      && g.value == Some(v)
      && a in st.entries && b !in st.entries && c in st.entries
      && st.order == [a, c]
  {
    var s2 := Insert(Insert(Empty, 2, a, v, t), 2, b, v, t);
    FillTwo(a, b, v, t);
    assert Remove([a, b], a) == [b] by {
      assert [a, b][1..] == [b];
      RemoveAbsent([b], a);
    }
    var g := Lookup(s2, a, now);
    assert g.value == Some(v) && g.after.order == [b, a] && g.after.entries == s2.entries;
    OverflowPair(g.after, b, a, c, v, t);
  }

  // ---------------------------------------------------------------------------------------
  // The cache object

  /** LruExpiringCache: the fields a LinkedHashMap in access order keeps, updated in place. */
  class LruExpiringCache {
    const maxEntries: int
    var order: seq<string>
    var entries: map<string, Entry>

    function Model(): State
      reads this
    {
      State(order, entries)
    }

    ghost predicate Valid()
      reads this
    {
      maxEntries >= 1 && WellFormed(Model(), maxEntries)
    }

    /** new LruExpiringCache(maxEntries): empty, with capacity Math.max(1, maxEntries). */
    constructor (maxEntries: int)
      ensures Valid()
      ensures this.maxEntries == if maxEntries < 1 then 1 else maxEntries
      ensures Model() == Empty
    {
      this.maxEntries := if maxEntries < 1 then 1 else maxEntries;
      order := [];
      entries := map[];
    }

    /** get(key), with the clock reading passed in as now. */
    method Get(key: string, now: int) returns (r: Option<string>)
      requires Valid()
      modifies this
      ensures Valid()
      ensures Read(r, Model()) == Lookup(old(Model()), key, now)
    {
      GetWellFormed(Model(), maxEntries, key, now);
      if key !in entries {
        return None;
      }
      var e := entries[key];
      if now >= e.expiresAt {
        entries := entries - {key};
        order := Remove(order, key);
        return None;
      }
      order := Touch(order, key);
      r := Some(e.value);
    }

    /** put(key, value, expiresAt). */
    method Put(key: string, value: string, expiresAt: int)
      requires Valid()
      modifies this
      ensures Valid()
      ensures Model() == Insert(old(Model()), maxEntries, key, value, expiresAt)
    {
      PutStores(Model(), maxEntries, key, value, expiresAt);
      var isNew := key !in entries;
      entries := entries[key := Entry(value, expiresAt)];
      order := Touch(order, key);
      if isNew && |order| > maxEntries {
        var eldest := order[0];
        entries := entries - {eldest};
        order := order[1..];
      }
    }

    /** clear(): drops every entry, secrets included. */
    method Clear()
      requires Valid()
      modifies this
      ensures Valid()
      ensures Model() == Empty
    {
      entries := map[];
      order := [];
    }
  }
}
