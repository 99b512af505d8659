/**
 * The abstract behaviour shared by both LFU caches: resident entries by key,
 * each with its value, its use count and the logical time it was last
 * touched (read or written). Eviction removes the entry with the lowest use
 * count, and among those the one touched longest ago.
 */
module LfuSpec {
  import Ranking

  /** One resident entry. */
  datatype Entry = Entry(value: int, freq: int, touched: int)

  /** The cache: its capacity, its entries by key, and the next logical time. */
  datatype Cache = Cache(capacity: int, entries: map<int, Entry>, clock: int)

  /** What a lookup of an absent key returns (it collides with a stored -1). */
  const Miss := -1

  /** `a` is evicted before `b`: it is used less often, or as often and touched earlier. */
  predicate EvictsBefore(a: Entry, b: Entry) {
    a.freq < b.freq || (a.freq == b.freq && a.touched < b.touched)
  }

  /** No two entries were touched at the same logical time. */
  ghost predicate DistinctTouches(entries: map<int, Entry>) {
    forall k, j | k in entries && j in entries && k != j :: entries[k].touched != entries[j].touched
  }

  /** The states a cache of capacity at least one can reach. */
  ghost predicate Inv(c: Cache) {
    && 1 <= c.capacity
    && |c.entries| <= c.capacity
    && (forall k | k in c.entries :: 1 <= c.entries[k].freq && c.entries[k].touched < c.clock)
    && DistinctTouches(c.entries)
  }

  /** With distinct touch times, eviction order is a strict total order on the entries. */
  lemma EvictionOrderIsTotal(entries: map<int, Entry>)
    requires DistinctTouches(entries)
    ensures Ranking.StrictTotalOn(entries, EvictsBefore)
  {
  }

  /** The key a full cache evicts. */
  ghost function Victim(entries: map<int, Entry>): (k: int)
    requires entries != map[] && DistinctTouches(entries)
    ensures Ranking.IsFirst(entries, EvictsBefore, k)
  {
    EvictionOrderIsTotal(entries);
    Ranking.First(entries, EvictsBefore)
  }

  /** An empty cache. */
  function Init(capacity: int): Cache {
    Cache(capacity, map[], 1)
  }

  /** `get(key)`: the new cache and the returned value. */
  function Get(c: Cache, key: int): (Cache, int) {
    if key !in c.entries then (c, Miss)
    else
      var e := c.entries[key];
      (c.(entries := c.entries[key := e.(freq := e.freq + 1, touched := c.clock)], clock := c.clock + 1), e.value)
  }

  /** `put(key, value)`: the new cache. */
  ghost function Put(c: Cache, key: int, value: int): Cache
    requires Inv(c)
  {
    if key in c.entries then
      var e := c.entries[key];
      c.(entries := c.entries[key := Entry(value, e.freq + 1, c.clock)], clock := c.clock + 1)
    else
      var kept := if |c.entries| == c.capacity then c.entries - {Victim(c.entries)} else c.entries;
      c.(entries := kept[key := Entry(value, 1, c.clock)], clock := c.clock + 1)
  }

  // ----- Properties of the specification -----

  /** An empty cache of positive capacity is a reachable state. */
  lemma InitInv(capacity: int)
    requires 1 <= capacity
    ensures Inv(Init(capacity))
  {
  }

  /** `get` keeps the cache within its invariant. */
  lemma GetInv(c: Cache, key: int)
    requires Inv(c)
    ensures Inv(Get(c, key).0)
  {
  }

  /** `put` keeps the cache within its invariant; in particular it never holds more than `capacity` entries. */
  lemma PutInv(c: Cache, key: int, value: int)
    requires Inv(c)
    ensures Inv(Put(c, key, value))
  {
    if key !in c.entries && |c.entries| == c.capacity {
      var v := Victim(c.entries);
      var kept := c.entries - {v};
      assert kept.Keys == c.entries.Keys - {v};
      assert |kept| == |c.entries| - 1;
    }
  }

  /** A miss returns `Miss` and changes nothing. */
  lemma GetMiss(c: Cache, key: int)
    requires key !in c.entries
    ensures Get(c, key) == (c, Miss)
  {
  }

  /** A hit returns the stored value, raises that entry's count by exactly one, and touches nothing else. */
  lemma GetHit(c: Cache, key: int)
    requires key in c.entries
    ensures var (c', r) := Get(c, key);
      && r == c.entries[key].value
      && c'.entries.Keys == c.entries.Keys
      && c'.entries[key].value == c.entries[key].value
      && c'.entries[key].freq == c.entries[key].freq + 1
      && forall j | j in c.entries && j != key :: c'.entries[j] == c.entries[j]
  {
  }

  /** `put` on a resident key overwrites the value and raises the count by one; the key set is unchanged. */
  lemma PutExisting(c: Cache, key: int, value: int)
    requires Inv(c) && key in c.entries
    ensures var c' := Put(c, key, value);
      && c'.entries.Keys == c.entries.Keys
      && c'.entries[key].value == value
      && c'.entries[key].freq == c.entries[key].freq + 1
      && forall j | j in c.entries && j != key :: c'.entries[j] == c.entries[j]
  {
  }

  /**
   * `put` of a new key into a full cache evicts exactly one entry: the one
   * used least often and, among those, touched longest ago. The new key
   * enters with its value, count one and the current time; every other
   * entry is kept as it was.
   */
  lemma PutEvicts(c: Cache, key: int, value: int)
    requires Inv(c) && key !in c.entries && |c.entries| == c.capacity
    ensures exists v ::
      && v in c.entries
      && (forall j | j in c.entries :: c.entries[v].freq <= c.entries[j].freq)
      && (forall j | j in c.entries && j != v && c.entries[j].freq == c.entries[v].freq :: c.entries[v].touched < c.entries[j].touched)
      && Put(c, key, value).entries.Keys == c.entries.Keys - {v} + {key}
      && Put(c, key, value).entries == (c.entries - {v})[key := Entry(value, 1, c.clock)]
  {
    var v := Victim(c.entries);
    assert forall j | j in c.entries && j != v :: EvictsBefore(c.entries[v], c.entries[j]);
  }

  /** `put` of a new key into a cache with room evicts nothing. */
  lemma PutRoom(c: Cache, key: int, value: int)
    requires Inv(c) && key !in c.entries && |c.entries| < c.capacity
    ensures Put(c, key, value).entries == c.entries[key := Entry(value, 1, c.clock)]
  {
  }

  /**
   * Round trip: `put(k, v)` then `get(k)` returns `v`. The count ends two
   * above its old value for a resident key, and at two for a new one.
   */
  lemma PutThenGet(c: Cache, key: int, value: int)
    requires Inv(c)
    ensures var (c', r) := Get(Put(c, key, value), key);
      && r == value
      && c'.entries[key].freq == (if key in c.entries then c.entries[key].freq + 2 else 2)
  {
    PutInv(c, key, value);
  }

  /** Every operation keeps or raises every surviving entry's count. */
  lemma CountsNeverDecrease(c: Cache, key: int, value: int)
    requires Inv(c)
    ensures var g := Get(c, key).0;
      forall j | j in c.entries :: j in g.entries && c.entries[j].freq <= g.entries[j].freq
    ensures var p := Put(c, key, value);
      forall j | j in c.entries && j in p.entries :: c.entries[j].freq <= p.entries[j].freq
  {
  }

  /** The key `k` is the eviction victim when it satisfies the victim's defining property. */
  lemma IsVictim(entries: map<int, Entry>, k: int)
    requires entries != map[] && DistinctTouches(entries)
    requires Ranking.IsFirst(entries, EvictsBefore, k)
    ensures Victim(entries) == k
  {
    EvictionOrderIsTotal(entries);
    Ranking.FirstUnique(entries, EvictsBefore, k, Victim(entries));
  }
}
