/**
 * The single-list LFU cache: one doubly-linked list of all resident nodes,
 * kept in descending order of (use count, last update time), so that the
 * node before the tail sentinel is the one to evict.
 *
 * The list is the field `list`: the keys linked between the head and tail
 * sentinels, head first, so `list[0]` is `head.next` and the last element is
 * `tail.prev`. A node is identified by its key, which is unique in the cache.
 */
module LfuList {
  import Seqs
  import LfuSpec

  /** A cache node (the source's `LinkedList1`) without its links. */
  datatype Node = Node(key: int, value: int, frequency: int, createdAt: int, updatedAt: int)

  /**
   * `a` ranks above `b`: it is used more often, or as often and updated
   * later. `rebalanceIfRequired` moves a node up while it ranks above its
   * predecessor.
   */
  predicate Above(a: Node, b: Node) {
    a.frequency > b.frequency || (a.frequency == b.frequency && a.updatedAt > b.updatedAt)
  }

  // ----- The list invariant, on values -----

  /** The list links exactly the nodes of the key index (the source's `map`), each once. */
  ghost predicate Listed(list: seq<int>, keyMap: map<int, Node>) {
    && Seqs.Distinct(list)
    && (forall i | 0 <= i < |list| :: list[i] in keyMap)
    && (forall k | k in keyMap :: k in list && keyMap[k].key == k)
    && |list| == |keyMap|
  }

  /** Walking from head to tail, every node ranks above every later one. */
  ghost predicate Ranked(list: seq<int>, keyMap: map<int, Node>) {
    forall a, b | 0 <= a < b < |list| && list[a] in keyMap && list[b] in keyMap ::
      Above(keyMap[list[a]], keyMap[list[b]])
  }

  /**
   * The list is ranked except that the node at position `p` may rank above
   * some of its predecessors: the state `rebalanceIfRequired` repairs.
   */
  ghost predicate RankedBut(list: seq<int>, keyMap: map<int, Node>, p: int) {
    && (forall a, b | 0 <= a < b < |list| && a != p && b != p && list[a] in keyMap && list[b] in keyMap ::
          Above(keyMap[list[a]], keyMap[list[b]]))
    && (forall b | 0 <= p < b < |list| && list[p] in keyMap && list[b] in keyMap ::
          Above(keyMap[list[p]], keyMap[list[b]]))
  }

  /** No two nodes were updated at the same time. */
  ghost predicate StampsDistinct(keyMap: map<int, Node>) {
    forall k, j | k in keyMap && j in keyMap && k != j :: keyMap[k].updatedAt != keyMap[j].updatedAt
  }

  /** Use counts are positive, update times are distinct and earlier than `timestamp`. */
  ghost predicate Stamped(keyMap: map<int, Node>, timestamp: int) {
    && (forall k | k in keyMap :: 1 <= keyMap[k].frequency && keyMap[k].updatedAt < timestamp)
    && StampsDistinct(keyMap)
  }

  /** The whole invariant of the cache. */
  ghost predicate Sound(capacity: int, list: seq<int>, keyMap: map<int, Node>, timestamp: int) {
    && 1 <= capacity && |keyMap| <= capacity
    && Listed(list, keyMap) && Ranked(list, keyMap) && Stamped(keyMap, timestamp)
  }

  /** The list after the nodes at positions `i - 1` and `i` trade places. */
  function Swap(list: seq<int>, i: int): (r: seq<int>)
    requires 0 < i < |list|
    ensures |r| == |list| && r[i - 1] == list[i] && r[i] == list[i - 1]
    ensures forall j | 0 <= j < |list| && j != i - 1 && j != i :: r[j] == list[j]
  {
    list[i - 1 := list[i]][i := list[i - 1]]
  }

  /** The node of `key` after `increaseFrequency`: one more use, updated at `timestamp`. */
  function Bumped(n: Node, timestamp: int): (r: Node)
    ensures r.key == n.key && r.value == n.value && r.createdAt == n.createdAt
    ensures r.frequency == n.frequency + 1 && r.updatedAt == timestamp
  {
    n.(frequency := n.frequency + 1, updatedAt := timestamp)
  }

  // ----- Each step of the source keeps the invariant -----

  /** A swap of neighbours links the same nodes. */
  lemma SwapListed(list: seq<int>, keyMap: map<int, Node>, i: int)
    requires Listed(list, keyMap) && 0 < i < |list|
    ensures Listed(Swap(list, i), keyMap)
  {
    var r := Swap(list, i);
    forall a, b | 0 <= a < b < |r| ensures r[a] != r[b] {
      var a0 := if a == i - 1 then i else if a == i then i - 1 else a;
      var b0 := if b == i - 1 then i else if b == i then i - 1 else b;
      assert r[a] == list[a0] && r[b] == list[b0];
    }
    forall k | k in keyMap ensures k in r {
      var j :| 0 <= j < |list| && list[j] == k;
      var j0 := if j == i - 1 then i else if j == i then i - 1 else j;
      assert r[j0] == k;
    }
  }

  /** One swap of the loop moves the out-of-place node up one position and keeps the rest ranked. */
  lemma SwapStep(list: seq<int>, keyMap: map<int, Node>, i: int)
    requires Listed(list, keyMap) && RankedBut(list, keyMap, i) && 0 < i < |list|
    requires Above(keyMap[list[i]], keyMap[list[i - 1]])
    ensures Listed(Swap(list, i), keyMap) && RankedBut(Swap(list, i), keyMap, i - 1)
  {
    SwapListed(list, keyMap, i);
    var r := Swap(list, i);
    forall a, b | 0 <= a < b < |r| && a != i - 1 && b != i - 1 ensures Above(keyMap[r[a]], keyMap[r[b]]) {
      var a0 := if a == i then i - 1 else a;
      var b0 := if b == i then i - 1 else b;
      assert r[a] == list[a0] && r[b] == list[b0];
    }
  }

  /** When the node no longer ranks above its predecessor, or has reached the head, the list is ranked. */
  lemma StopRanked(list: seq<int>, keyMap: map<int, Node>, i: int)
    requires Listed(list, keyMap) && StampsDistinct(keyMap) && RankedBut(list, keyMap, i) && 0 <= i < |list|
    requires i > 0 ==> !Above(keyMap[list[i]], keyMap[list[i - 1]])
    ensures Ranked(list, keyMap)
  {
    if i > 0 {
      var p := keyMap[list[i - 1]];
      var n := keyMap[list[i]];
      assert list[i - 1] != list[i];
      assert Above(p, n);
      forall a | 0 <= a < i ensures Above(keyMap[list[a]], n) {
        if a < i - 1 {
          assert Above(keyMap[list[a]], p);
        }
      }
    }
  }

  /** A ranked list is ranked but for any one position. */
  lemma RankedIsRankedBut(list: seq<int>, keyMap: map<int, Node>, p: int)
    requires Ranked(list, keyMap)
    ensures RankedBut(list, keyMap, p)
  {
  }

  /** `increaseFrequency` on a ranked list leaves it ranked but for the bumped node, which ranks above all later ones. */
  lemma BumpRankedBut(list: seq<int>, keyMap: map<int, Node>, timestamp: int, key: int)
    requires Listed(list, keyMap) && Ranked(list, keyMap) && Stamped(keyMap, timestamp) && key in keyMap
    ensures Listed(list, keyMap[key := Bumped(keyMap[key], timestamp)])
    ensures Stamped(keyMap[key := Bumped(keyMap[key], timestamp)], timestamp + 1)
    ensures RankedBut(list, keyMap[key := Bumped(keyMap[key], timestamp)], Seqs.IndexOf(list, key))
  {
    var p := Seqs.IndexOf(list, key);
    var keyMap' := keyMap[key := Bumped(keyMap[key], timestamp)];
    forall a, b | 0 <= a < b < |list| && a != p && b != p ensures Above(keyMap'[list[a]], keyMap'[list[b]]) {
      assert keyMap'[list[a]] == keyMap[list[a]] && keyMap'[list[b]] == keyMap[list[b]];
    }
    forall b | p < b < |list| ensures Above(keyMap'[list[p]], keyMap'[list[b]]) {
      assert list[b] != key;
      assert Above(keyMap[list[p]], keyMap[list[b]]);
    }
  }

  /** `insertNode` links a node with a fresh update time before the tail: ranked but for that last position. */
  lemma AppendRankedBut(list: seq<int>, keyMap: map<int, Node>, timestamp: int, node: Node)
    requires Listed(list, keyMap) && Ranked(list, keyMap) && Stamped(keyMap, timestamp)
    requires node.key !in keyMap && node.updatedAt == timestamp && 1 <= node.frequency
    ensures Listed(list + [node.key], keyMap[node.key := node])
    ensures Stamped(keyMap[node.key := node], timestamp + 1)
    ensures RankedBut(list + [node.key], keyMap[node.key := node], |list|)
  {
    var r := list + [node.key];
    var keyMap' := keyMap[node.key := node];
    forall a, b | 0 <= a < b < |r| ensures r[a] != r[b] {
      if b < |list| {
        assert r[a] == list[a] && r[b] == list[b];
      }
    }
    forall a, b | 0 <= a < b < |r| && a != |list| && b != |list| ensures Above(keyMap'[r[a]], keyMap'[r[b]]) {
      assert r[a] == list[a] && r[b] == list[b];
    }
    assert keyMap'.Keys == keyMap.Keys + {node.key};
  }

  /** Overwriting a node's value changes neither its rank nor its stamps. */
  lemma ValueSetRanked(list: seq<int>, keyMap: map<int, Node>, timestamp: int, key: int, value: int)
    requires Listed(list, keyMap) && Ranked(list, keyMap) && Stamped(keyMap, timestamp) && key in keyMap
    ensures Listed(list, keyMap[key := keyMap[key].(value := value)])
    ensures Ranked(list, keyMap[key := keyMap[key].(value := value)])
    ensures Stamped(keyMap[key := keyMap[key].(value := value)], timestamp)
  {
    var keyMap' := keyMap[key := keyMap[key].(value := value)];
    forall a, b | 0 <= a < b < |list| ensures Above(keyMap'[list[a]], keyMap'[list[b]]) {
      assert Above(keyMap[list[a]], keyMap[list[b]]);
    }
  }

  /** `removeNode` of the last node keeps the list listed and ranked. */
  lemma DropLastRanked(list: seq<int>, keyMap: map<int, Node>, timestamp: int)
    requires Listed(list, keyMap) && Ranked(list, keyMap) && Stamped(keyMap, timestamp) && list != []
    ensures Listed(list[..|list| - 1], keyMap - {list[|list| - 1]})
    ensures Ranked(list[..|list| - 1], keyMap - {list[|list| - 1]})
    ensures Stamped(keyMap - {list[|list| - 1]}, timestamp)
  {
    var last := list[|list| - 1];
    var r := list[..|list| - 1];
    forall k | k in keyMap - {last} ensures k in r {
      var j :| 0 <= j < |list| && list[j] == k;
      assert j < |list| - 1;
      assert r[j] == k;
    }
    assert (keyMap - {last}).Keys == keyMap.Keys - {last};
  }

  // ----- The cache as the specification sees it -----

  /** The resident entries: the node's value, use count and last update time. */
  ghost function Entries(keyMap: map<int, Node>): map<int, LfuSpec.Entry> {
    map k | k in keyMap :: LfuSpec.Entry(keyMap[k].value, keyMap[k].frequency, keyMap[k].updatedAt)
  }

  ghost function AbsOf(capacity: int, keyMap: map<int, Node>, timestamp: int): LfuSpec.Cache {
    LfuSpec.Cache(capacity, Entries(keyMap), timestamp)
  }

  /** A sound cache satisfies the specification's invariant. */
  lemma AbsInv(capacity: int, list: seq<int>, keyMap: map<int, Node>, timestamp: int)
    requires Sound(capacity, list, keyMap, timestamp)
    ensures LfuSpec.Inv(AbsOf(capacity, keyMap, timestamp))
    ensures |Entries(keyMap)| == |keyMap|
  {
    assert Entries(keyMap).Keys == keyMap.Keys;
  }

  /** The node before the tail of a ranked list is the specification's victim. */
  lemma LastIsVictim(list: seq<int>, keyMap: map<int, Node>, timestamp: int)
    requires Listed(list, keyMap) && Ranked(list, keyMap) && Stamped(keyMap, timestamp) && list != []
    ensures Entries(keyMap) != map[] && LfuSpec.DistinctTouches(Entries(keyMap))
    ensures LfuSpec.Victim(Entries(keyMap)) == list[|list| - 1]
  {
    var e := Entries(keyMap);
    var last := list[|list| - 1];
    assert last in e;
    forall j | j in e && j != last ensures LfuSpec.EvictsBefore(e[last], e[j]) {
      var a :| 0 <= a < |list| && list[a] == j;
      assert Above(keyMap[list[a]], keyMap[last]);
    }
    LfuSpec.IsVictim(e, last);
  }

  /** Bumping a node's use count and update time changes exactly its entry. */
  lemma BumpedEntries(keyMap: map<int, Node>, key: int, value: int, timestamp: int)
    requires key in keyMap
    ensures Entries(keyMap[key := Bumped(keyMap[key].(value := value), timestamp)])
         == Entries(keyMap)[key := LfuSpec.Entry(value, keyMap[key].frequency + 1, timestamp)]
  {
  }

  /** A hit of `get` is the specification's `get`. */
  lemma GetHitRefines(capacity: int, keyMap: map<int, Node>, timestamp: int, key: int)
    requires key in keyMap
    ensures LfuSpec.Get(AbsOf(capacity, keyMap, timestamp), key)
         == (AbsOf(capacity, keyMap[key := Bumped(keyMap[key], timestamp)], timestamp + 1), keyMap[key].value)
  {
    assert keyMap[key].(value := keyMap[key].value) == keyMap[key];
    BumpedEntries(keyMap, key, keyMap[key].value, timestamp);
  }

  /** A miss of `get` is the specification's miss. */
  lemma GetMissRefines(capacity: int, keyMap: map<int, Node>, timestamp: int, key: int)
    requires key !in keyMap
    ensures LfuSpec.Get(AbsOf(capacity, keyMap, timestamp), key) == (AbsOf(capacity, keyMap, timestamp), LfuSpec.Miss)
  {
  }

  /** `put` of a resident key is the specification's overwrite. */
  lemma PutExistingRefines(capacity: int, keyMap: map<int, Node>, timestamp: int, key: int, value: int)
    requires LfuSpec.Inv(AbsOf(capacity, keyMap, timestamp)) && key in keyMap
    ensures LfuSpec.Put(AbsOf(capacity, keyMap, timestamp), key, value)
         == AbsOf(capacity, keyMap[key := Bumped(keyMap[key].(value := value), timestamp)], timestamp + 1)
  {
    BumpedEntries(keyMap, key, value, timestamp);
  }

  /** `put` of a new key: evict `tail.prev` when full, then add the key with use count one. */
  lemma PutNewRefines(capacity: int, list: seq<int>, keyMap: map<int, Node>, timestamp: int, key: int, value: int)
    requires Sound(capacity, list, keyMap, timestamp) && key !in keyMap
    ensures LfuSpec.Inv(AbsOf(capacity, keyMap, timestamp))
    ensures |keyMap| == capacity ==> list != []
    ensures var kept := if |keyMap| == capacity then keyMap - {list[|list| - 1]} else keyMap;
      LfuSpec.Put(AbsOf(capacity, keyMap, timestamp), key, value)
      == AbsOf(capacity, kept[key := Node(key, value, 1, timestamp, timestamp)], timestamp + 1)
  {
    AbsInv(capacity, list, keyMap, timestamp);
    if |keyMap| == capacity {
      LastIsVictim(list, keyMap, timestamp);
      var last := list[|list| - 1];
      assert Entries(keyMap - {last}) == Entries(keyMap) - {last};
    }
  }

  /**
   * The single-list cache. `keyMap` is the source's `map` from key to node;
   * `list` the linked order; `timestamp` the next update time.
   */
  class LFUCache {
    const capacity: int
    var list: seq<int>
    var keyMap: map<int, Node>
    var timestamp: int

    ghost predicate Valid()
      reads this
    {
      Sound(capacity, list, keyMap, timestamp)
    }

    /** The cache as the abstract specification sees it. */
    ghost function Abs(): LfuSpec.Cache
      reads this
    {
      AbsOf(capacity, keyMap, timestamp)
    }

    /** The cache admits at least one entry; the source fails on the first `put` otherwise. */
    constructor (capacity: int)
      requires 1 <= capacity
      ensures Valid() && Abs() == LfuSpec.Init(capacity)
      ensures list == [] && keyMap == map[] && timestamp == 1
    {
      this.capacity := capacity;
      list := [];
      keyMap := map[];
      timestamp := 1;
      new;
      assert Entries(keyMap) == map[];
    }

    /** `increaseFrequency(node)`: one more use, updated now, and the clock advances. */
    method IncreaseFrequency(key: int)
      requires key in keyMap
      modifies this
      ensures keyMap == old(keyMap)[key := Bumped(old(keyMap)[key], old(timestamp))]
      ensures list == old(list) && timestamp == old(timestamp) + 1
    {
      var node := keyMap[key];
      keyMap := keyMap[key := node.(frequency := node.frequency + 1, updatedAt := timestamp)];
      timestamp := timestamp + 1;
    }

    /**
     * `rebalanceIfRequired(node)`: swap the node with its predecessor while
     * it ranks above it. The head sentinel stops the walk.
     */
    method RebalanceIfRequired(key: int)
      requires key in keyMap && Listed(list, keyMap) && StampsDistinct(keyMap)
      requires RankedBut(list, keyMap, Seqs.IndexOf(list, key))
      modifies this
      ensures Listed(list, keyMap) && Ranked(list, keyMap)
      ensures Ranked(old(list), keyMap) ==> list == old(list)
      ensures keyMap == old(keyMap) && timestamp == old(timestamp)
    {
      var i := Seqs.IndexOf(list, key);
      while i > 0 && Above(keyMap[list[i]], keyMap[list[i - 1]])
        invariant 0 <= i < |list| && list[i] == key
        invariant Listed(list, keyMap) && RankedBut(list, keyMap, i)
        invariant Ranked(old(list), keyMap) ==> list == old(list)
        invariant keyMap == old(keyMap) && timestamp == old(timestamp)
        decreases i
      {
        SwapStep(list, keyMap, i);
        list := Swap(list, i);
        i := i - 1;
      }
      StopRanked(list, keyMap, i);
    }

    /** `removeNode(current)`: unlink the node and drop its key. */
    method RemoveNode(key: int)
      requires key in list
      modifies this
      ensures list == Seqs.RemoveAt(old(list), Seqs.IndexOf(old(list), key))
      ensures keyMap == old(keyMap) - {key} && timestamp == old(timestamp)
    {
      var i := Seqs.IndexOf(list, key);
      list := list[..i] + list[i + 1..];
      keyMap := keyMap - {key};
    }

    /** `insertNode(current)`: index the node, link it before the tail, and rebalance. */
    method InsertNode(node: Node)
      requires Listed(list, keyMap) && Ranked(list, keyMap) && Stamped(keyMap, timestamp)
      requires node.key !in keyMap && node.updatedAt == timestamp && 1 <= node.frequency
      modifies this
      ensures keyMap == old(keyMap)[node.key := node] && timestamp == old(timestamp)
      ensures Listed(list, keyMap) && Ranked(list, keyMap) && Stamped(keyMap, timestamp + 1)
    {
      AppendRankedBut(list, keyMap, timestamp, node);
      keyMap := keyMap[node.key := node];
      list := list + [node.key];
      Seqs.IndexOfDistinct(list, |list| - 1);
      RebalanceIfRequired(node.key);
    }

    /** `get(key)`: a hit returns the value and bumps the entry; a miss returns -1. */
    method Get(key: int) returns (r: int)
      requires Valid()
      modifies this
      ensures Valid()
      ensures (Abs(), r) == LfuSpec.Get(old(Abs()), key)
    {
      if key !in keyMap {
        GetMissRefines(capacity, keyMap, timestamp, key);
        return LfuSpec.Miss;
      }
      GetHitRefines(capacity, keyMap, timestamp, key);
      BumpRankedBut(list, keyMap, timestamp, key);
      var node := keyMap[key];
      IncreaseFrequency(key);
      RebalanceIfRequired(key);
      return node.value;
    }

    /** The branch of `put` for a resident key: overwrite the value, bump the node and rebalance. */
    method PutResident(key: int, value: int)
      requires Valid() && key in keyMap
      modifies this
      ensures Valid()
      ensures keyMap == old(keyMap)[key := Bumped(old(keyMap)[key].(value := value), old(timestamp))]
      ensures timestamp == old(timestamp) + 1
    {
      ValueSetRanked(list, keyMap, timestamp, key, value);
      keyMap := keyMap[key := keyMap[key].(value := value)];
      BumpRankedBut(list, keyMap, timestamp, key);
      IncreaseFrequency(key);
      RebalanceIfRequired(key);
    }

    /** The branch of `put` for a new key: evict `tail.prev` when full, then link the node with use count one. */
    method PutNew(key: int, value: int)
      requires Valid() && key !in keyMap
      modifies this
      ensures Valid()
      ensures |old(keyMap)| == capacity ==> old(list) != []
      ensures var kept := if |old(keyMap)| == capacity then old(keyMap) - {old(list)[|old(list)| - 1]} else old(keyMap);
        keyMap == kept[key := Node(key, value, 1, old(timestamp), old(timestamp))]
      ensures timestamp == old(timestamp) + 1
    {
      if |keyMap| == capacity {
        DropLastRanked(list, keyMap, timestamp);
        Seqs.IndexOfDistinct(list, |list| - 1);
        assert Seqs.RemoveAt(list, |list| - 1) == list[..|list| - 1];
        RemoveNode(list[|list| - 1]);
      }
      var node := Node(key, value, 1, timestamp, timestamp);
      InsertNode(node);
      RankedIsRankedBut(list, keyMap, Seqs.IndexOf(list, key));
      RebalanceIfRequired(key);
      timestamp := timestamp + 1;
    }

    /**
     * `put(key, value)`: overwrite and bump a resident key; otherwise evict
     * `tail.prev` when full and link the key with use count one.
     */
    method Put(key: int, value: int)
      requires Valid()
      modifies this
      ensures Valid()
      ensures LfuSpec.Inv(old(Abs())) && Abs() == LfuSpec.Put(old(Abs()), key, value)
    {
      if key in keyMap {
        AbsInv(capacity, list, keyMap, timestamp);
        PutExistingRefines(capacity, keyMap, timestamp, key, value);
        PutResident(key, value);
      } else {
        PutNewRefines(capacity, list, keyMap, timestamp, key, value);
        PutNew(key, value);
      }
    }
  }
}
