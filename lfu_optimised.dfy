/**
 * The bucketed LFU cache: one recency-ordered bucket (`LRUNodeCache`) per use
 * count, a key index, and the tracked least use count.
 *
 * A bucket's doubly-linked list is its field `order`: the keys linked between
 * the head and tail sentinels, most recent first, so `order[0]` is
 * `head.next` and the last element is `tail.prev`. A node is identified by
 * its key, which is unique in the cache.
 */
module LfuOptimised {
  import opened Wrappers
  import Seqs
  import LfuSpec

  /** A cache node (the source's `LinkedList`) without its links. */
  datatype Node = Node(key: int, value: int, frequency: int)

  /** A list of keys together with the key index (the source's `map`) that names their nodes. */
  ghost predicate Indexed(order: seq<int>, keyMap: map<int, Node>) {
    && Seqs.Distinct(order)
    && (forall i | 0 <= i < |order| :: order[i] in keyMap)
    && (forall k | k in keyMap :: k in order && keyMap[k].key == k)
    && |order| == |keyMap|
  }

  /** The contents of one bucket as a value: its key index and its recency list. */
  datatype Bucket = Bucket(keyMap: map<int, Node>, order: seq<int>)

  /** A bucket freshly made by `new LRUNodeCache`: the head sentinel links straight to the tail. */
  const EmptyBucket := Bucket(map[], [])

  /** A bucket after `removeNode` of its resident key `key`. */
  function Unlink(b: Bucket, key: int): (r: Bucket)
    requires key in b.order
    ensures r.keyMap.Keys == b.keyMap.Keys - {key}
    ensures |r.order| == |b.order| - 1
    ensures forall j | 0 <= j < |r.order| :: r.order[j] in b.order
  {
    Bucket(b.keyMap - {key}, Seqs.RemoveAt(b.order, Seqs.IndexOf(b.order, key)))
  }

  /** A bucket after `insertNode(node)`: the node becomes `head.next`. */
  function LinkFirst(b: Bucket, node: Node): (r: Bucket)
    ensures r.order != [] && r.order[0] == node.key && r.order[1..] == b.order
    ensures node.key in r.keyMap && r.keyMap[node.key] == node
    ensures node.key !in b.keyMap ==> Size(r) == Size(b) + 1
  {
    Bucket(b.keyMap[node.key := node], [node.key] + b.order)
  }

  /** `size()`: the number of nodes in the bucket's key index. */
  function Size(b: Bucket): nat {
    |b.keyMap|
  }

  /** The key of `tail.prev`, the bucket's least recent node; `removeNode(null)` unlinks it. */
  function LastKey(b: Bucket): int
    requires b.order != []
  {
    b.order[|b.order| - 1]
  }

  /** The bucket for use count `f`, or a fresh one when there is none yet. */
  function BucketAt(buckets: map<int, Bucket>, f: int): Bucket {
    if f in buckets then buckets[f] else EmptyBucket
  }

  // ----- The cache invariant, on values -----

  /** Every bucket's list and index agree. */
  ghost predicate BucketsIndexed(buckets: map<int, Bucket>) {
    forall f | f in buckets :: Indexed(buckets[f].order, buckets[f].keyMap)
  }

  /**
   * A resident node sits, as that very node, in the bucket of its use count,
   * and buckets hold nothing else. Buckets that became empty may remain.
   */
  ghost predicate Placed(keyMap: map<int, Node>, buckets: map<int, Bucket>) {
    && (forall k | k in keyMap ::
          && keyMap[k].key == k
          && 1 <= keyMap[k].frequency
          && keyMap[k].frequency in buckets
          && k in buckets[keyMap[k].frequency].keyMap
          && buckets[keyMap[k].frequency].keyMap[k] == keyMap[k])
    && (forall f, k | f in buckets && k in buckets[f].keyMap :: k in keyMap && keyMap[k].frequency == f)
  }

  /** `order` lists keys most recently touched first. */
  ghost predicate NewestFirst(order: seq<int>, touched: map<int, int>) {
    && (forall i | 0 <= i < |order| :: order[i] in touched)
    && (forall i, j | 0 <= i < j < |order| :: touched[order[i]] > touched[order[j]])
  }

  /** Touch times are known for exactly the resident keys, distinct, in the past, and each bucket is ordered by them. */
  ghost predicate Recency(keyMap: map<int, Node>, buckets: map<int, Bucket>, touched: map<int, int>, clock: int) {
    && touched.Keys == keyMap.Keys
    && (forall k | k in touched :: touched[k] < clock)
    && (forall k, j | k in touched && j in touched && k != j :: touched[k] != touched[j])
    && (forall f | f in buckets :: NewestFirst(buckets[f].order, touched))
  }

  /** When the cache is not empty, `least` is the least use count and its bucket is not empty. */
  ghost predicate Least(keyMap: map<int, Node>, buckets: map<int, Bucket>, least: int) {
    keyMap != map[] ==>
      && least in buckets
      && buckets[least].order != []
      && forall k | k in keyMap :: least <= keyMap[k].frequency
  }

  /** Index, buckets and touch times agree, ignoring the tracked least use count. */
  ghost predicate Linked(keyMap: map<int, Node>, buckets: map<int, Bucket>, touched: map<int, int>, clock: int) {
    BucketsIndexed(buckets) && Placed(keyMap, buckets) && Recency(keyMap, buckets, touched, clock)
  }

  /** The resident entries as the specification sees them. */
  ghost function Entries(keyMap: map<int, Node>, touched: map<int, int>): map<int, LfuSpec.Entry> {
    map k | k in keyMap && k in touched :: LfuSpec.Entry(keyMap[k].value, keyMap[k].frequency, touched[k])
  }

  // ----- Each step of the source keeps the invariant -----

  /** Recency order survives any change of touch times that keeps the listed keys' times. */
  lemma NewestFirstKept(order: seq<int>, touched: map<int, int>, touched': map<int, int>)
    requires NewestFirst(order, touched)
    requires forall i | 0 <= i < |order| :: order[i] in touched' && touched'[order[i]] == touched[order[i]]
    ensures NewestFirst(order, touched')
  {
  }

  /** Putting a key touched later than all listed ones in front keeps the recency order. */
  lemma NewestFirstCons(order: seq<int>, touched: map<int, int>, k: int)
    requires NewestFirst(order, touched) && k in touched
    requires forall i | 0 <= i < |order| :: touched[order[i]] < touched[k]
    ensures NewestFirst([k] + order, touched)
  {
    forall x, y | 0 <= x < y < |[k] + order|
      ensures touched[([k] + order)[x]] > touched[([k] + order)[y]]
    {
      assert ([k] + order)[y] == order[y - 1];
      if x > 0 {
        assert ([k] + order)[x] == order[x - 1];
      }
    }
  }

  /** Removing one element keeps the recency order. */
  lemma NewestFirstRemove(order: seq<int>, touched: map<int, int>, i: nat)
    requires NewestFirst(order, touched) && i < |order|
    ensures NewestFirst(Seqs.RemoveAt(order, i), touched)
  {
    var r := Seqs.RemoveAt(order, i);
    forall x | 0 <= x < |r| ensures r[x] in touched {
      var x0 := if x < i then x else x + 1;
      assert r[x] == order[x0];
    }
    forall x, y | 0 <= x < y < |r|
      ensures touched[r[x]] > touched[r[y]]
    {
      var x0 := if x < i then x else x + 1;
      var y0 := if y < i then y else y + 1;
      assert r[x] == order[x0] && r[y] == order[y0];
    }
  }

  /** Unlinking a resident key from its bucket and forgetting it keeps the rest linked. */
  lemma DetachLinked(keyMap: map<int, Node>, buckets: map<int, Bucket>, touched: map<int, int>, clock: int, key: int)
    requires Linked(keyMap, buckets, touched, clock) && key in keyMap
    ensures keyMap[key].frequency in buckets && key in buckets[keyMap[key].frequency].order
    ensures var f := keyMap[key].frequency;
      Linked(keyMap - {key}, buckets[f := Unlink(buckets[f], key)], touched - {key}, clock)
  {
    var f := keyMap[key].frequency;
    var b := buckets[f];
    var i := Seqs.IndexOf(b.order, key);
    Seqs.RemoveAtDistinct(b.order, i);
    var b' := Unlink(b, key);
    assert b'.keyMap.Keys == b.keyMap.Keys - {key};
    var buckets' := buckets[f := b'];
    var keyMap' := keyMap - {key};
    var touched' := touched - {key};
    assert Indexed(b'.order, b'.keyMap);
    assert BucketsIndexed(buckets');
    assert Placed(keyMap', buckets');
    assert touched'.Keys == keyMap'.Keys;
    NewestFirstRemove(b.order, touched, i);
    forall g | g in buckets' ensures NewestFirst(buckets'[g].order, touched') {
      var o := buckets'[g].order;
      forall x | 0 <= x < |o| ensures o[x] in touched' && touched'[o[x]] == touched[o[x]] {
        assert o[x] in buckets'[g].keyMap;
      }
      NewestFirstKept(o, touched, touched');
    }
  }

  /** Linking a first node into a bucket keeps its list and index in agreement. */
  lemma LinkFirstIndexed(b: Bucket, node: Node)
    requires Indexed(b.order, b.keyMap) && node.key !in b.keyMap
    ensures Indexed(LinkFirst(b, node).order, LinkFirst(b, node).keyMap)
  {
    var b' := LinkFirst(b, node);
    forall x | 0 <= x < |b'.order| ensures b'.order[x] in b'.keyMap {
      if x > 0 {
        assert b'.order[x] == b.order[x - 1];
      }
    }
    assert b'.keyMap.Keys == b.keyMap.Keys + {node.key};
  }

  /** Linking a new node into the bucket of its use count keeps every node in its place. */
  lemma PlacedAttach(keyMap: map<int, Node>, buckets: map<int, Bucket>, node: Node)
    requires Placed(keyMap, buckets) && node.key !in keyMap && 1 <= node.frequency
    ensures Placed(keyMap[node.key := node], buckets[node.frequency := LinkFirst(BucketAt(buckets, node.frequency), node)])
  {
    var f := node.frequency;
    var buckets' := buckets[f := LinkFirst(BucketAt(buckets, f), node)];
    var keyMap' := keyMap[node.key := node];
    forall g, k | g in buckets' && k in buckets'[g].keyMap ensures k in keyMap' && keyMap'[k].frequency == g {
      if k != node.key {
        assert k in buckets[g].keyMap;
      }
    }
  }

  /** Touching a new node now and listing it first in its bucket keeps every bucket newest first. */
  lemma RecencyAttach(keyMap: map<int, Node>, buckets: map<int, Bucket>, touched: map<int, int>, clock: int, node: Node)
    requires BucketsIndexed(buckets) && Placed(keyMap, buckets) && Recency(keyMap, buckets, touched, clock)
    requires node.key !in keyMap
    ensures Recency(
      keyMap[node.key := node],
      buckets[node.frequency := LinkFirst(BucketAt(buckets, node.frequency), node)],
      touched[node.key := clock],
      clock + 1)
  {
    var f := node.frequency;
    var b := BucketAt(buckets, f);
    var touched' := touched[node.key := clock];
    forall g | g in buckets ensures NewestFirst(buckets[g].order, touched') {
      var o := buckets[g].order;
      forall x | 0 <= x < |o| ensures o[x] in touched' && touched'[o[x]] == touched[o[x]] {
        assert o[x] in buckets[g].keyMap;
      }
      NewestFirstKept(o, touched, touched');
    }
    forall x | 0 <= x < |b.order| ensures touched'[b.order[x]] < touched'[node.key] {
      var k := b.order[x];
      assert k in b.keyMap;
      assert k in keyMap && k != node.key;
      assert touched[k] < clock;
    }
    NewestFirstCons(b.order, touched', node.key);
  }

  /** Linking a new node first in the bucket of its use count, touched now, keeps everything linked. */
  lemma AttachLinked(keyMap: map<int, Node>, buckets: map<int, Bucket>, touched: map<int, int>, clock: int, node: Node)
    requires Linked(keyMap, buckets, touched, clock)
    requires node.key !in keyMap && 1 <= node.frequency
    ensures Linked(
      keyMap[node.key := node],
      buckets[node.frequency := LinkFirst(BucketAt(buckets, node.frequency), node)],
      touched[node.key := clock],
      clock + 1)
  {
    var b := BucketAt(buckets, node.frequency);
    assert node.key !in b.keyMap;
    LinkFirstIndexed(b, node);
    PlacedAttach(keyMap, buckets, node);
    RecencyAttach(keyMap, buckets, touched, clock, node);
  }

  /** A resident key is listed in the bucket of its use count. */
  lemma Listed(keyMap: map<int, Node>, buckets: map<int, Bucket>, k: int)
    requires BucketsIndexed(buckets) && Placed(keyMap, buckets) && k in keyMap
    ensures keyMap[k].frequency in buckets && k in buckets[keyMap[k].frequency].order
  {
  }

  /** No resident key has the use count of an empty bucket. */
  lemma EmptyBucketUnused(keyMap: map<int, Node>, buckets: map<int, Bucket>, f: int)
    requires BucketsIndexed(buckets) && Placed(keyMap, buckets) && f in buckets && buckets[f].order == []
    ensures forall k | k in keyMap :: keyMap[k].frequency != f
  {
    forall k | k in keyMap ensures keyMap[k].frequency != f {
      if keyMap[k].frequency == f {
        Listed(keyMap, buckets, k);
      }
    }
  }

  /** A node just inserted with use count one makes one the least use count. */
  lemma LeastOne(keyMap: map<int, Node>, buckets: map<int, Bucket>, key: int)
    requires BucketsIndexed(buckets) && Placed(keyMap, buckets)
    requires key in keyMap && keyMap[key].frequency == 1
    ensures Least(keyMap, buckets, 1)
  {
    assert key in buckets[1].keyMap;
  }

  /** A recency-ordered list of nodes behind a head and a tail sentinel. */
  class LRUNodeCache {
    const capacity: int
    var keyMap: map<int, Node>
    var order: seq<int>

    ghost predicate Valid()
      reads this
    {
      Indexed(order, keyMap)
    }

    /** The bucket's contents as a value. */
    ghost function Contents(): Bucket
      reads this
    {
      Bucket(keyMap, order)
    }

    constructor (capacity: int)
      ensures Valid() && this.capacity == capacity
      ensures keyMap == map[] && order == []
    {
      this.capacity := capacity;
      keyMap := map[];
      order := [];
    }

    /** The number of linked nodes. */
    method Size() returns (n: int)
      requires Valid()
      ensures n == |order|
    {
      n := |keyMap|;
    }

    /**
     * Unlinks `current`, or `tail.prev` when `current` is `None`, and drops
     * its key. An empty list has the head as `tail.prev`, whose missing
     * `prev` the source dereferences; a node must be linked to be unlinked.
     */
    method RemoveNode(current: Option<Node>) returns (removed: Node)
      requires Valid()
      requires current.None? ==> order != []
      requires current.Some? ==> current.value.key in keyMap
      modifies this
      ensures Valid()
      ensures removed.key in old(keyMap)
      ensures current.Some? ==> removed == current.value
      ensures current.None? ==> removed == old(keyMap[order[|order| - 1]])
      ensures current.None? ==> order == old(order[..|order| - 1])
      ensures keyMap == old(keyMap) - {removed.key}
      ensures order == Seqs.RemoveAt(old(order), Seqs.IndexOf(old(order), removed.key))
      ensures Contents() == Unlink(old(Contents()), removed.key)
    {
      if current.Some? {
        removed := current.value;
      } else {
        removed := keyMap[order[|order| - 1]];
        assert removed.key == order[|order| - 1];
      }
      var i := Seqs.IndexOf(order, removed.key);
      Seqs.RemoveAtDistinct(order, i);
      assert current.None? ==> i == |order| - 1 by {
        if current.None? { Seqs.IndexOfDistinct(order, |order| - 1); }
      }
      order := Seqs.RemoveAt(order, i);
      keyMap := keyMap - {removed.key};
      assert keyMap.Keys == old(keyMap).Keys - {removed.key};
    }

    /** Links `current` right after the head, making it the most recent node. */
    method InsertNode(current: Node)
      requires Valid() && current.key !in keyMap
      modifies this
      ensures Valid()
      ensures keyMap == old(keyMap)[current.key := current]
      ensures order == [current.key] + old(order)
      ensures Contents() == LinkFirst(old(Contents()), current)
    {
      keyMap := keyMap[current.key := current];
      order := [current.key] + order;
    }

    /** Moves a resident key to the most recent end and returns its value; a miss returns -1 and changes nothing. */
    method Get(key: int) returns (r: int)
      requires Valid()
      modifies this
      ensures Valid()
      ensures key !in old(keyMap) ==> r == LfuSpec.Miss && keyMap == old(keyMap) && order == old(order)
      ensures key in old(keyMap) ==>
        && r == old(keyMap[key].value)
        && keyMap == old(keyMap)
        && order == [key] + Seqs.RemoveAt(old(order), Seqs.IndexOf(old(order), key))
    {
      if key !in keyMap {
        return LfuSpec.Miss;
      }
      var node := keyMap[key];
      var _ := RemoveNode(Some(node));
      InsertNode(node);
      assert keyMap == old(keyMap);
      return node.value;
    }

    /**
     * Stores `node` as the most recent entry. A new key entering a list that
     * holds `capacity` nodes first evicts `tail.prev`, which must exist.
     */
    method Put(node: Node)
      requires Valid()
      requires node.key !in keyMap && |keyMap| == capacity ==> order != []
      modifies this
      ensures Valid()
      ensures node.key in old(keyMap) ==>
        && keyMap == old(keyMap)[node.key := node]
        && order == [node.key] + Seqs.RemoveAt(old(order), Seqs.IndexOf(old(order), node.key))
      ensures node.key !in old(keyMap) && |old(keyMap)| != capacity ==>
        && keyMap == old(keyMap)[node.key := node]
        && order == [node.key] + old(order)
      ensures node.key !in old(keyMap) && |old(keyMap)| == capacity ==>
        && keyMap == (old(keyMap) - {old(order[|order| - 1])})[node.key := node]
        && order == [node.key] + old(order[..|order| - 1])
    {
      if node.key !in keyMap {
        if |keyMap| == capacity {
          // The source deletes tail.prev's key and then unlinks it; unlinking deletes the key as well.
          var last := order[|order| - 1];
          assert keyMap[last].key == last;
          var _ := RemoveNode(Some(keyMap[last]));
          Seqs.IndexOfDistinct(old(order), |old(order)| - 1);
        }
        InsertNode(node);
      } else {
        keyMap := keyMap[node.key := node];
        var _ := RemoveNode(Some(node));
        InsertNode(node);
      }
    }
  }

  /** The entries of `keyMap` with touch times after one entry is set. */
  lemma EntriesSet(keyMap: map<int, Node>, touched: map<int, int>, node: Node, t: int)
    ensures Entries(keyMap[node.key := node], touched[node.key := t])
         == Entries(keyMap, touched)[node.key := LfuSpec.Entry(node.value, node.frequency, t)]
  {
  }

  /** The entries after one key is forgotten. */
  lemma EntriesRemove(keyMap: map<int, Node>, touched: map<int, int>, k: int)
    ensures Entries(keyMap - {k}, touched - {k}) == Entries(keyMap, touched) - {k}
  {
  }

  /** Linked nodes read as entries that meet the specification's invariant, one per resident key. */
  lemma EntriesInv(keyMap: map<int, Node>, buckets: map<int, Bucket>, touched: map<int, int>, clock: int)
    requires Linked(keyMap, buckets, touched, clock)
    ensures Entries(keyMap, touched).Keys == keyMap.Keys
    ensures |Entries(keyMap, touched)| == |keyMap|
    ensures LfuSpec.DistinctTouches(Entries(keyMap, touched))
    ensures forall k | k in Entries(keyMap, touched) ::
      1 <= Entries(keyMap, touched)[k].freq && Entries(keyMap, touched)[k].touched < clock
  {
    assert Entries(keyMap, touched).Keys == keyMap.Keys;
  }

  // ----- The cache's operations, on values -----

  /** The cache's state as values: key index, buckets by use count, least use count, touch times and clock. */
  datatype Shape = Shape(keyMap: map<int, Node>, buckets: map<int, Bucket>, least: int, touched: map<int, int>, clock: int)

  /** The invariant of the cache, apart from its capacity. */
  ghost predicate Coherent(s: Shape) {
    Linked(s.keyMap, s.buckets, s.touched, s.clock) && Least(s.keyMap, s.buckets, s.least)
  }

  /**
   * The least recent node of the least-use-count bucket, `tail.prev`, is the
   * entry the specification evicts.
   */
  lemma LeastRecentIsVictim(s: Shape)
    requires Coherent(s) && s.keyMap != map[]
    ensures s.least in s.buckets && s.buckets[s.least].order != []
    ensures Entries(s.keyMap, s.touched) != map[] && LfuSpec.DistinctTouches(Entries(s.keyMap, s.touched))
    ensures LfuSpec.Victim(Entries(s.keyMap, s.touched)) == s.buckets[s.least].order[|s.buckets[s.least].order| - 1]
  {
    EntriesInv(s.keyMap, s.buckets, s.touched, s.clock);
    var b := s.buckets[s.least];
    var last := |b.order| - 1;
    var v := b.order[last];
    var e := Entries(s.keyMap, s.touched);
    assert v in b.keyMap;
    forall j | j in e && j != v ensures LfuSpec.EvictsBefore(e[v], e[j]) {
      if s.keyMap[j].frequency == s.least {
        assert j in b.keyMap;
        var i := Seqs.IndexOf(b.order, j);
        assert i < last;
      }
    }
    LfuSpec.IsVictim(e, v);
  }

  /** The entries after one key's node and touch time are replaced. */
  lemma EntriesReplace(keyMap: map<int, Node>, touched: map<int, int>, node: Node, t: int)
    ensures Entries((keyMap - {node.key})[node.key := node], (touched - {node.key})[node.key := t])
         == Entries(keyMap, touched)[node.key := LfuSpec.Entry(node.value, node.frequency, t)]
  {
  }

  /**
   * `removeNode(node)` on the bucket of the node's use count `f`, advancing
   * the least use count when that bucket was the least and is now empty
   * (lines 135-147). The node stays in the key index of the cache; it is
   * taken out here and put back by `Relinked`.
   */
  ghost function Unlinked(s: Shape, key: int, f: int): (r: Shape)
    requires f in s.buckets && key in s.buckets[f].order
    ensures r.keyMap.Keys == s.keyMap.Keys - {key} && key !in r.touched
    ensures r.least == s.least || (r.least == s.least + 1 && f == s.least && f in r.buckets && Size(r.buckets[f]) == 0)
    ensures r.clock == s.clock
  {
    var b := Unlink(s.buckets[f], key);
    Shape(s.keyMap - {key}, s.buckets[f := b],
      if f == s.least && Size(b) == 0 then s.least + 1 else s.least,
      s.touched - {key}, s.clock)
  }

  /** `insertNode(node)` into the bucket of its use count, made when missing (lines 149-155), touching it now. */
  ghost function Relinked(s: Shape, node: Node): (r: Shape)
    ensures node.key in r.keyMap && r.keyMap[node.key] == node
    ensures node.frequency in r.buckets && r.buckets[node.frequency].order != [] && r.buckets[node.frequency].order[0] == node.key
    ensures node.key in r.touched && r.touched[node.key] == s.clock && r.clock == s.clock + 1
  {
    Shape(s.keyMap[node.key := node],
      s.buckets[node.frequency := LinkFirst(BucketAt(s.buckets, node.frequency), node)],
      s.least, s.touched[node.key := s.clock], s.clock + 1)
  }

  /**
   * `update_frequency(node)`: unlink the node from the bucket of its use
   * count `f` and link it, now with use count `f + 1`, first into the bucket
   * of `f + 1`. `node` is the resident node, possibly carrying a value just
   * stored into it.
   */
  ghost function Promoted(s: Shape, node: Node): (r: Shape)
    requires node.frequency in s.buckets && node.key in s.buckets[node.frequency].order
    ensures r.keyMap.Keys == s.keyMap.Keys + {node.key}
    ensures node.key in r.keyMap && r.keyMap[node.key] == node.(frequency := node.frequency + 1)
    ensures node.key in r.touched && r.touched[node.key] == s.clock && r.clock == s.clock + 1
  {
    Relinked(Unlinked(s, node.key, node.frequency), node.(frequency := node.frequency + 1))
  }

  /** Promotion keeps the nodes linked. */
  lemma PromotedLinked(s: Shape, node: Node)
    requires Linked(s.keyMap, s.buckets, s.touched, s.clock)
    requires node.key in s.keyMap && node.frequency == s.keyMap[node.key].frequency
    ensures node.frequency in s.buckets && node.key in s.buckets[node.frequency].order
    ensures Linked(Promoted(s, node).keyMap, Promoted(s, node).buckets, Promoted(s, node).touched, Promoted(s, node).clock)
  {
    var key := node.key;
    var f := node.frequency;
    DetachLinked(s.keyMap, s.buckets, s.touched, s.clock, key);
    var u := Unlinked(s, key, f);
    var promoted := node.(frequency := f + 1);
    var r := Promoted(s, node);
    assert r.keyMap == u.keyMap[promoted.key := promoted];
    assert r.buckets == u.buckets[promoted.frequency := LinkFirst(BucketAt(u.buckets, promoted.frequency), promoted)];
    assert r.touched == u.touched[promoted.key := u.clock] && r.clock == u.clock + 1;
    AttachLinked(u.keyMap, u.buckets, u.touched, u.clock, promoted);
  }

  /** Promotion bumps exactly the promoted entry, with its value, and touches it now. */
  lemma PromotedEntries(s: Shape, node: Node)
    requires node.frequency in s.buckets && node.key in s.buckets[node.frequency].order
    ensures Promoted(s, node).keyMap.Keys == s.keyMap.Keys + {node.key}
    ensures Entries(Promoted(s, node).keyMap, Promoted(s, node).touched)
         == Entries(s.keyMap, s.touched)[node.key := LfuSpec.Entry(node.value, node.frequency + 1, s.clock)]
  {
    var promoted := node.(frequency := node.frequency + 1);
    assert Promoted(s, node).keyMap == (s.keyMap - {node.key})[node.key := promoted];
    assert Promoted(s, node).touched == (s.touched - {node.key})[node.key := s.clock];
    EntriesReplace(s.keyMap, s.touched, promoted, s.clock);
  }

  /** Promotion, component by component. */
  lemma PromotedParts(s: Shape, node: Node)
    requires node.frequency in s.buckets && node.key in s.buckets[node.frequency].order
    ensures var f := node.frequency; var r := Promoted(s, node);
      && r.keyMap == (s.keyMap - {node.key})[node.key := node.(frequency := f + 1)]
      && f in r.buckets && f + 1 in r.buckets && r.buckets[f + 1].order != []
      && r.buckets[f] == Unlink(s.buckets[f], node.key)
      && r.least == (if f == s.least && Size(r.buckets[f]) == 0 then s.least + 1 else s.least)
      && (forall g | g in s.buckets && g != f && g != f + 1 :: g in r.buckets && r.buckets[g] == s.buckets[g])
  {
  }

  /** Promotion as one step per field, in the order `update_frequency` takes them. */
  lemma PromotedSteps(s: Shape, node: Node)
    requires node.frequency in s.buckets && node.key in s.buckets[node.frequency].order
    ensures var f := node.frequency; var b := Unlink(s.buckets[f], node.key);
      var n := node.(frequency := f + 1); var buckets := s.buckets[f := b];
      Promoted(s, node) == Shape(
        (s.keyMap - {node.key})[node.key := n],
        buckets[f + 1 := LinkFirst(BucketAt(buckets, f + 1), n)],
        if f == s.least && Size(b) == 0 then s.least + 1 else s.least,
        (s.touched - {node.key})[node.key := s.clock],
        s.clock + 1)
  {
  }

  /**
   * The advance of line 145: promoting a node out of bucket `f` moves the
   * least use count to `f + 1` exactly when `f` was the least and its bucket
   * is now empty; otherwise it stays, and remains a lower bound that is attained.
   */
  lemma PromotedLeast(s: Shape, node: Node)
    requires Least(s.keyMap, s.buckets, s.least)
    requires node.key in s.keyMap && node.frequency == s.keyMap[node.key].frequency
    requires node.frequency in s.buckets && node.key in s.buckets[node.frequency].order
    requires var r := Promoted(s, node); var f := node.frequency;
      && Size(r.buckets[f]) == |r.buckets[f].order|
      && (r.buckets[f].order == [] ==> forall k | k in r.keyMap :: r.keyMap[k].frequency != f)
    ensures Least(Promoted(s, node).keyMap, Promoted(s, node).buckets, Promoted(s, node).least)
  {
    PromotedParts(s, node);
    var r := Promoted(s, node);
    var f := node.frequency;
    var key := node.key;
    assert s.least <= f;
    if f == s.least && r.buckets[f].order == [] {
      forall k | k in r.keyMap ensures s.least + 1 <= r.keyMap[k].frequency {
        if k != key {
          assert r.keyMap[k] == s.keyMap[k];
        }
      }
    } else {
      forall k | k in r.keyMap ensures s.least <= r.keyMap[k].frequency {
        if k != key {
          assert r.keyMap[k] == s.keyMap[k];
        }
      }
    }
  }

  /** Promotion keeps the cache coherent. */
  lemma PromotedCoherent(s: Shape, node: Node)
    requires Coherent(s) && node.key in s.keyMap && node.frequency == s.keyMap[node.key].frequency
    ensures Promotable(s, node.key)
    ensures Coherent(Promoted(s, node))
  {
    PromotedLinked(s, node);
    var r := Promoted(s, node);
    var f := node.frequency;
    assert f in r.buckets && Size(r.buckets[f]) == |r.buckets[f].order|;
    if r.buckets[f].order == [] {
      EmptyBucketUnused(r.keyMap, r.buckets, f);
    }
    PromotedLeast(s, node);
  }

  /** Promotion keeps the number of resident keys. */
  lemma PromotedSize(s: Shape, node: Node)
    requires node.frequency in s.buckets && node.key in s.buckets[node.frequency].order && node.key in s.keyMap
    ensures |Promoted(s, node).keyMap| == |s.keyMap|
  {
    assert Promoted(s, node).keyMap.Keys == s.keyMap.Keys;
  }

  /** The eviction of a full cache (lines 114-120): unlink `tail.prev` of the least-use-count bucket and forget its key. */
  ghost function Evicted(s: Shape): (r: Shape)
    requires s.least in s.buckets && s.buckets[s.least].order != []
    ensures r.keyMap.Keys == s.keyMap.Keys - {LastKey(s.buckets[s.least])}
    ensures s.least in r.buckets && |r.buckets[s.least].order| == |s.buckets[s.least].order| - 1
    ensures r.least == s.least && r.clock == s.clock
  {
    var b := s.buckets[s.least];
    var v := LastKey(b);
    Shape(s.keyMap - {v}, s.buckets[s.least := Unlink(b, v)], s.least, s.touched - {v}, s.clock)
  }

  /** Eviction keeps the nodes linked and drops exactly the specification's victim. */
  lemma EvictedLinked(s: Shape)
    requires Coherent(s) && s.keyMap != map[]
    ensures s.least in s.buckets && s.buckets[s.least].order != []
    ensures Linked(Evicted(s).keyMap, Evicted(s).buckets, Evicted(s).touched, Evicted(s).clock)
    ensures |Evicted(s).keyMap| == |s.keyMap| - 1
    ensures Entries(s.keyMap, s.touched) != map[] && LfuSpec.DistinctTouches(Entries(s.keyMap, s.touched))
    ensures Entries(Evicted(s).keyMap, Evicted(s).touched)
         == Entries(s.keyMap, s.touched) - {LfuSpec.Victim(Entries(s.keyMap, s.touched))}
  {
    LeastRecentIsVictim(s);
    var b := s.buckets[s.least];
    var v := b.order[|b.order| - 1];
    assert v in b.keyMap && s.keyMap[v].frequency == s.least;
    DetachLinked(s.keyMap, s.buckets, s.touched, s.clock, v);
    EntriesRemove(s.keyMap, s.touched, v);
  }

  /**
   * The insertion of a new key (lines 121-128): a node with use count one,
   * linked first into the bucket of use count one, which becomes the least
   * use count.
   */
  ghost function Inserted(s: Shape, key: int, value: int): (r: Shape)
    ensures key in r.keyMap && r.keyMap[key] == Node(key, value, 1) && r.least == 1
    ensures forall k | k in s.keyMap && k != key :: k in r.keyMap && r.keyMap[k] == s.keyMap[k]
    ensures 1 in r.buckets && r.buckets[1].order != [] && r.buckets[1].order[0] == key
    ensures key in r.touched && r.touched[key] == s.clock && r.clock == s.clock + 1
  {
    Relinked(s, Node(key, value, 1)).(least := 1)
  }

  /** Insertion makes the cache coherent again and adds exactly the new entry, touched now with use count one. */
  lemma InsertedCoherent(s: Shape, key: int, value: int)
    requires Linked(s.keyMap, s.buckets, s.touched, s.clock) && key !in s.keyMap
    ensures Coherent(Inserted(s, key, value))
    ensures |Inserted(s, key, value).keyMap| == |s.keyMap| + 1
    ensures Entries(Inserted(s, key, value).keyMap, Inserted(s, key, value).touched)
         == Entries(s.keyMap, s.touched)[key := LfuSpec.Entry(value, 1, s.clock)]
  {
    var node := Node(key, value, 1);
    AttachLinked(s.keyMap, s.buckets, s.touched, s.clock, node);
    var r := Inserted(s, key, value);
    LeastOne(r.keyMap, r.buckets, key);
    EntriesSet(s.keyMap, s.touched, node, s.clock);
  }

  /** The cache as the specification sees it. */
  ghost function AbsOf(capacity: int, s: Shape): LfuSpec.Cache {
    LfuSpec.Cache(capacity, Entries(s.keyMap, s.touched), s.clock)
  }

  /** `key` is resident and listed in the bucket of its use count, so it can be promoted. */
  ghost predicate Promotable(s: Shape, key: int) {
    && key in s.keyMap && key in s.touched && s.keyMap[key].key == key
    && s.keyMap[key].frequency in s.buckets && key in s.buckets[s.keyMap[key].frequency].order
  }

  /** A linked cache within its capacity satisfies the specification's invariant. */
  lemma AbsInv(capacity: int, s: Shape)
    requires Linked(s.keyMap, s.buckets, s.touched, s.clock) && 1 <= capacity && |s.keyMap| <= capacity
    ensures LfuSpec.Inv(AbsOf(capacity, s))
  {
    EntriesInv(s.keyMap, s.buckets, s.touched, s.clock);
  }

  /** A hit of `get` is the specification's `get`: the value, and the entry promoted and touched now. */
  lemma GetHitRefines(capacity: int, s: Shape, key: int)
    requires Promotable(s, key)
    ensures LfuSpec.Get(AbsOf(capacity, s), key) == (AbsOf(capacity, Promoted(s, s.keyMap[key])), s.keyMap[key].value)
  {
    var n := s.keyMap[key];
    var e := Entries(s.keyMap, s.touched);
    PromotedEntries(s, n);
    var r := Promoted(s, n);
    assert key in e && e[key] == LfuSpec.Entry(n.value, n.frequency, s.touched[key]);
    var bumped := e[key := LfuSpec.Entry(n.value, n.frequency + 1, s.clock)];
    SpecGetHit(AbsOf(capacity, s), key);
    assert AbsOf(capacity, r) == LfuSpec.Cache(capacity, bumped, s.clock + 1);
  }

  /** The specification's hit, as the entry it writes back. */
  lemma SpecGetHit(c: LfuSpec.Cache, key: int)
    requires key in c.entries
    ensures var e := c.entries[key];
      LfuSpec.Get(c, key) == (LfuSpec.Cache(c.capacity, c.entries[key := LfuSpec.Entry(e.value, e.freq + 1, c.clock)], c.clock + 1), e.value)
  {
  }

  /** A miss of `get` is the specification's miss. */
  lemma GetMissRefines(capacity: int, s: Shape, key: int)
    requires key !in s.keyMap
    ensures LfuSpec.Get(AbsOf(capacity, s), key) == (AbsOf(capacity, s), LfuSpec.Miss)
  {
  }

  /** `put` of a resident key is the specification's overwrite: the new value, promoted and touched now. */
  lemma PutExistingRefines(capacity: int, s: Shape, key: int, value: int)
    requires LfuSpec.Inv(AbsOf(capacity, s)) && Promotable(s, key)
    ensures LfuSpec.Put(AbsOf(capacity, s), key, value) == AbsOf(capacity, Promoted(s, s.keyMap[key].(value := value)))
  {
    PromotedEntries(s, s.keyMap[key].(value := value));
  }

  /** `put` of a new key into a full cache evicts the specification's victim, then inserts with use count one. */
  lemma PutEvictRefines(capacity: int, s: Shape, key: int, value: int)
    requires Coherent(s) && key !in s.keyMap && 1 <= capacity && |s.keyMap| == capacity
    ensures LfuSpec.Inv(AbsOf(capacity, s))
    ensures s.least in s.buckets && s.buckets[s.least].order != []
    ensures Coherent(Inserted(Evicted(s), key, value)) && |Inserted(Evicted(s), key, value).keyMap| == capacity
    ensures LfuSpec.Put(AbsOf(capacity, s), key, value) == AbsOf(capacity, Inserted(Evicted(s), key, value))
  {
    EntriesInv(s.keyMap, s.buckets, s.touched, s.clock);
    AbsInv(capacity, s);
    EvictedLinked(s);
    InsertedCoherent(Evicted(s), key, value);
  }

  /** `put` of a new key into a cache with room inserts it with use count one. */
  lemma PutRoomRefines(capacity: int, s: Shape, key: int, value: int)
    requires Linked(s.keyMap, s.buckets, s.touched, s.clock) && key !in s.keyMap && 1 <= capacity && |s.keyMap| < capacity
    ensures LfuSpec.Inv(AbsOf(capacity, s))
    ensures Coherent(Inserted(s, key, value)) && |Inserted(s, key, value).keyMap| <= capacity
    ensures LfuSpec.Put(AbsOf(capacity, s), key, value) == AbsOf(capacity, Inserted(s, key, value))
  {
    AbsInv(capacity, s);
    EntriesInv(s.keyMap, s.buckets, s.touched, s.clock);
    InsertedCoherent(s, key, value);
  }

  /**
   * The LFU cache: `frequencyMap` maps a use count to its bucket, `keyMap`
   * maps a key to its node, `leastFrequency` tracks the least use count.
   * The buckets are held as values; `LRUNodeCache` is the object each one
   * stands for, and its `RemoveNode` and `InsertNode` are proved to act on
   * its contents as `Unlink` and `LinkFirst` act here. The ghost fields
   * record when each key was last touched, the recency that the order of
   * each bucket encodes, so that the cache reads as an `LfuSpec.Cache`.
   */
  class LFUCache {
    const capacity: int
    var currentCapacity: int
    var keyMap: map<int, Node>
    var frequencyMap: map<int, Bucket>
    var leastFrequency: int
    ghost var touched: map<int, int>
    ghost var clock: int

    /** The cache's state as values. */
    ghost function View(): Shape
      reads this
    {
      Shape(keyMap, frequencyMap, leastFrequency, touched, clock)
    }

    ghost predicate Valid()
      reads this
    {
      && 1 <= capacity
      && currentCapacity == |keyMap| <= capacity
      && Coherent(View())
    }

    /** The cache as the abstract specification sees it. */
    ghost function Abs(): LfuSpec.Cache
      reads this
    {
      AbsOf(capacity, View())
    }

    /** The cache admits at least one entry; the source fails on the first `put` otherwise. */
    constructor (capacity: int)
      requires 1 <= capacity
      ensures Valid() && Abs() == LfuSpec.Init(capacity)
      ensures frequencyMap == map[] && leastFrequency == 1
    {
      this.capacity := capacity;
      keyMap := map[];
      frequencyMap := map[];
      leastFrequency := 1;
      currentCapacity := 0;
      touched := map[];
      clock := 1;
      new;
      assert Entries(keyMap, touched) == map[];
    }

    /** `update_frequency(node)`, as `Promoted` states it. */
    method UpdateFrequency(node: Node)
      requires node.frequency in frequencyMap && node.key in frequencyMap[node.frequency].order
      modifies this
      ensures View() == Promoted(old(View()), node)
      ensures currentCapacity == old(currentCapacity)
    {
      ghost var s := View();
      PromotedSteps(s, node);
      var key := node.key;
      var frequency := node.frequency;
      var buckets := frequencyMap;
      var least := leastFrequency;
      if frequency in buckets {
        var currentFrequencyCache := Unlink(buckets[frequency], key);
        buckets := buckets[frequency := currentFrequencyCache];
        if frequency == least && Size(currentFrequencyCache) == 0 {
          least := least + 1;
        }
      }
      frequency := frequency + 1;
      var promoted := node.(frequency := frequency);
      buckets := buckets[frequency := LinkFirst(BucketAt(buckets, frequency), promoted)];
      keyMap, frequencyMap, leastFrequency := (keyMap - {key})[key := promoted], buckets, least;
      touched, clock := (touched - {key})[key := clock], clock + 1;
    }

    /** `get(key)`: a hit returns the value and promotes the entry; a miss returns -1. */
    method Get(key: int) returns (r: int)
      requires Valid()
      modifies this
      ensures Valid()
      ensures (Abs(), r) == LfuSpec.Get(old(Abs()), key)
    {
      ghost var s := View();
      if key in keyMap {
        PromotedCoherent(s, keyMap[key]);
        PromotedSize(s, keyMap[key]);
        GetHitRefines(capacity, s, key);
        var node := keyMap[key];
        UpdateFrequency(node);
        return node.value;
      }
      GetMissRefines(capacity, View(), key);
      return LfuSpec.Miss;
    }

    /**
     * The eviction step of `put`: `removeNode(null)` on the least use count's
     * bucket unlinks its least recent node, which leaves the key index.
     */
    method EvictLeastRecent()
      requires leastFrequency in frequencyMap && frequencyMap[leastFrequency].order != []
      requires Indexed(frequencyMap[leastFrequency].order, frequencyMap[leastFrequency].keyMap)
      modifies this
      ensures View() == Evicted(old(View()))
      ensures currentCapacity == old(currentCapacity) - 1
    {
      var bucket := frequencyMap[leastFrequency];
      var lruNode := bucket.keyMap[LastKey(bucket)];
      frequencyMap := frequencyMap[leastFrequency := Unlink(bucket, lruNode.key)];
      keyMap := keyMap - {lruNode.key};
      touched := touched - {lruNode.key};
      currentCapacity := currentCapacity - 1;
    }

    /** The insertion step of `put`: a new node with use count one, first in bucket one. */
    method InsertNew(key: int, value: int)
      modifies this
      ensures View() == Inserted(old(View()), key, value)
      ensures currentCapacity == old(currentCapacity) + 1
    {
      var node := Node(key, value, 1);
      keyMap := keyMap[key := node];
      touched := touched[key := clock];
      clock := clock + 1;
      leastFrequency := 1;
      var bucket := BucketAt(frequencyMap, leastFrequency);
      frequencyMap := frequencyMap[leastFrequency := LinkFirst(bucket, node)];
      currentCapacity := currentCapacity + 1;
    }

    /**
     * `put(key, value)`: overwrite and promote a resident key; otherwise evict
     * when full and insert the key with use count one.
     */
    method Put(key: int, value: int)
      requires Valid()
      modifies this
      ensures Valid()
      ensures LfuSpec.Inv(old(Abs())) && Abs() == LfuSpec.Put(old(Abs()), key, value)
    {
      ghost var s := View();
      if key in keyMap {
        var node := keyMap[key].(value := value);
        PromotedCoherent(s, node);
        PromotedSize(s, node);
        AbsInv(capacity, s);
        PutExistingRefines(capacity, s, key, value);
        UpdateFrequency(node);
      } else {
        if currentCapacity == capacity {
          PutEvictRefines(capacity, s, key, value);
          EvictLeastRecent();
        } else {
          PutRoomRefines(capacity, s, key, value);
        }
        InsertNew(key, value);
      }
    }
  }
}
