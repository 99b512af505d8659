/**
 * Both LFU caches against the shared specification: any sequence of calls
 * gives the specification's answers, hence both caches give the same
 * answers, and the scenario both test suites replay yields the answers those
 * suites expect.
 */
module LfuConformance {
  import Seqs
  import LfuSpec
  import LfuOptimised
  import LfuList

  /** One call on a cache: `get`, `put`, or a read of the size of its key index (`map.size`). */
  datatype Op = GetOp(key: int) | PutOp(key: int, value: int) | SizeOp

  /** The specification's state after one call. */
  ghost function Next(c: LfuSpec.Cache, op: Op): (c': LfuSpec.Cache)
    requires LfuSpec.Inv(c)
    ensures LfuSpec.Inv(c')
  {
    match op
    case GetOp(k) => LfuSpec.GetInv(c, k); LfuSpec.Get(c, k).0
    case PutOp(k, v) => LfuSpec.PutInv(c, k, v); LfuSpec.Put(c, k, v)
    case SizeOp => c
  }

  /**
   * The specification's answer to one call: a `get` answers the stored value
   * or -1, a size read the number of resident keys, a `put` nothing.
   */
  function Out(c: LfuSpec.Cache, op: Op): (out: seq<int>)
    ensures op.PutOp? <==> out == []
    ensures op.GetOp? ==> out == [if op.key in c.entries then c.entries[op.key].value else LfuSpec.Miss]
    ensures op.SizeOp? ==> out == [|c.entries|]
  {
    match op
    case GetOp(k) => [LfuSpec.Get(c, k).1]
    case PutOp(_, _) => []
    case SizeOp => [|c.entries|]
  }

  /** How many of `ops` answer: every call but a `put`. */
  function Asked(ops: seq<Op>): (n: nat)
    ensures n <= |ops|
  {
    if ops == [] then 0 else (if ops[0].PutOp? then 0 else 1) + Asked(ops[1..])
  }

  /** The answers the specification gives to `ops`: exactly one per `get` and per size read. */
  ghost function Run(c: LfuSpec.Cache, ops: seq<Op>): (answers: seq<int>)
    requires LfuSpec.Inv(c)
    ensures |answers| == Asked(ops)
    decreases |ops|
  {
    if ops == [] then [] else Out(c, ops[0]) + Run(Next(c, ops[0]), ops[1..])
  }

  /** The specification's state after `ops`. */
  ghost function After(c: LfuSpec.Cache, ops: seq<Op>): (c': LfuSpec.Cache)
    requires LfuSpec.Inv(c)
    ensures LfuSpec.Inv(c')
    decreases |ops|
  {
    if ops == [] then c else After(Next(c, ops[0]), ops[1..])
  }

  /**
   * One more call appends its answer, given in the state the earlier calls
   * leave, and moves that state by one step.
   */
  lemma {:induction false} RunSnoc(c: LfuSpec.Cache, ops: seq<Op>, op: Op)
    requires LfuSpec.Inv(c)
    ensures Run(c, ops + [op]) == Run(c, ops) + Out(After(c, ops), op)
    ensures After(c, ops + [op]) == Next(After(c, ops), op)
    decreases |ops|
  {
    if ops == [] {
      assert ops + [op] == [op] && [op][1..] == [];
    } else {
      var c', first := Next(c, ops[0]), Out(c, ops[0]);
      assert (ops + [op])[0] == ops[0];
      assert (ops + [op])[1..] == ops[1..] + [op];
      RunSnoc(c', ops[1..], op);
      assert Run(c, ops + [op]) == first + (Run(c', ops[1..]) + Out(After(c', ops[1..]), op));
      assert Run(c, ops) == first + Run(c', ops[1..]) && After(c, ops) == After(c', ops[1..]);
    }
  }

  /** One call on the bucketed cache answers and moves as the specification does. */
  method StepOptimised(cache: LfuOptimised.LFUCache, op: Op) returns (out: seq<int>)
    requires cache.Valid()
    modifies cache
    ensures cache.Valid() && LfuSpec.Inv(old(cache.Abs()))
    ensures out == Out(old(cache.Abs()), op) && cache.Abs() == Next(old(cache.Abs()), op)
  {
    LfuOptimised.AbsInv(cache.capacity, cache.View());
    match op {
    case GetOp(k) =>
      var r := cache.Get(k);
      out := [r];
    case PutOp(k, v) =>
      cache.Put(k, v);
      out := [];
    case SizeOp =>
      LfuOptimised.EntriesInv(cache.keyMap, cache.frequencyMap, cache.touched, cache.clock);
      out := [|cache.keyMap|];
    }
  }

  /** One call on the single-list cache answers and moves as the specification does. */
  method StepList(cache: LfuList.LFUCache, op: Op) returns (out: seq<int>)
    requires cache.Valid()
    modifies cache
    ensures cache.Valid() && LfuSpec.Inv(old(cache.Abs()))
    ensures out == Out(old(cache.Abs()), op) && cache.Abs() == Next(old(cache.Abs()), op)
  {
    LfuList.AbsInv(cache.capacity, cache.list, cache.keyMap, cache.timestamp);
    match op {
    case GetOp(k) =>
      var r := cache.Get(k);
      out := [r];
    case PutOp(k, v) =>
      cache.Put(k, v);
      out := [];
    case SizeOp =>
      out := [|cache.keyMap|];
    }
  }

  /** Replays `ops` on a fresh bucketed cache. */
  method RunOptimised(capacity: int, ops: seq<Op>) returns (answers: seq<int>)
    requires 1 <= capacity
    ensures answers == Run(LfuSpec.Init(capacity), ops)
  {
    var cache := new LfuOptimised.LFUCache(capacity);
    LfuSpec.InitInv(capacity);
    answers := [];
    var i := 0;
    while i < |ops|
      invariant 0 <= i <= |ops|
      invariant cache.Valid() && LfuSpec.Inv(cache.Abs())
      invariant answers == Run(LfuSpec.Init(capacity), ops[..i])
      invariant cache.Abs() == After(LfuSpec.Init(capacity), ops[..i])
    {
      RunSnoc(LfuSpec.Init(capacity), ops[..i], ops[i]);
      Seqs.TakeOneMore(ops, i);
      var out := StepOptimised(cache, ops[i]);
      answers := answers + out;
      i := i + 1;
    }
    assert ops[..|ops|] == ops;
  }

  /** Replays `ops` on a fresh single-list cache. */
  method RunList(capacity: int, ops: seq<Op>) returns (answers: seq<int>)
    requires 1 <= capacity
    ensures answers == Run(LfuSpec.Init(capacity), ops)
  {
    var cache := new LfuList.LFUCache(capacity);
    LfuSpec.InitInv(capacity);
    answers := [];
    var i := 0;
    while i < |ops|
      invariant 0 <= i <= |ops|
      invariant cache.Valid() && LfuSpec.Inv(cache.Abs())
      invariant answers == Run(LfuSpec.Init(capacity), ops[..i])
      invariant cache.Abs() == After(LfuSpec.Init(capacity), ops[..i])
    {
      RunSnoc(LfuSpec.Init(capacity), ops[..i], ops[i]);
      Seqs.TakeOneMore(ops, i);
      var out := StepList(cache, ops[i]);
      answers := answers + out;
      i := i + 1;
    }
    assert ops[..|ops|] == ops;
  }

  /** On any sequence of calls the two caches give the same answers. */
  method SameAnswers(capacity: int, ops: seq<Op>) returns (bucketed: seq<int>, single: seq<int>)
    requires 1 <= capacity
    ensures bucketed == single
  {
    bucketed := RunOptimised(capacity, ops);
    single := RunList(capacity, ops);
  }

  /** The scenario of both test suites, capacity two. */
  const HappyPath: seq<Op> := [
    PutOp(1, 1), SizeOp, PutOp(2, 2), SizeOp, GetOp(1), PutOp(3, 3), SizeOp,
    GetOp(2), GetOp(3), PutOp(4, 4), SizeOp, GetOp(1), GetOp(3), GetOp(4)]

  /** The answers the suites expect: sizes 1, 2, 2, 2 and gets 1, -1, 3, -1, 3, 4. */
  const HappyPathAnswers: seq<int> := [1, 2, 1, 2, -1, 3, 2, -1, 3, 4]

  // The states the specification passes through on the scenario.
  const S0 := LfuSpec.Init(2)
  const S1 := LfuSpec.Cache(2, map[1 := LfuSpec.Entry(1, 1, 1)], 2)
  const S2 := LfuSpec.Cache(2, map[1 := LfuSpec.Entry(1, 1, 1), 2 := LfuSpec.Entry(2, 1, 2)], 3)
  const S3 := LfuSpec.Cache(2, map[1 := LfuSpec.Entry(1, 2, 3), 2 := LfuSpec.Entry(2, 1, 2)], 4)
  const S4 := LfuSpec.Cache(2, map[1 := LfuSpec.Entry(1, 2, 3), 3 := LfuSpec.Entry(3, 1, 4)], 5)
  const S5 := LfuSpec.Cache(2, map[1 := LfuSpec.Entry(1, 2, 3), 3 := LfuSpec.Entry(3, 2, 5)], 6)
  const S6 := LfuSpec.Cache(2, map[3 := LfuSpec.Entry(3, 2, 5), 4 := LfuSpec.Entry(4, 1, 6)], 7)
  const S7 := LfuSpec.Cache(2, map[3 := LfuSpec.Entry(3, 3, 7), 4 := LfuSpec.Entry(4, 1, 6)], 8)
  const S8 := LfuSpec.Cache(2, map[3 := LfuSpec.Entry(3, 3, 7), 4 := LfuSpec.Entry(4, 2, 8)], 9)

  /** `put(1, 1)` and `put(2, 2)` fill the empty cache; `get(1)` raises key 1 to count two. */
  lemma FillSteps()
    ensures LfuSpec.Inv(S0) && LfuSpec.Put(S0, 1, 1) == S1
    ensures LfuSpec.Inv(S1) && LfuSpec.Put(S1, 2, 2) == S2
    ensures LfuSpec.Get(S2, 1) == (S3, 1)
  {
    LfuSpec.InitInv(2);
    assert S0.entries[1 := LfuSpec.Entry(1, 1, 1)] == S1.entries;
    LfuSpec.PutInv(S0, 1, 1);
    assert S1.entries[2 := LfuSpec.Entry(2, 1, 2)] == S2.entries;
    assert S2.entries[1 := LfuSpec.Entry(1, 2, 3)] == S3.entries;
  }

  /** `put(3, 3)` evicts key 2, the only entry used once. */
  lemma FirstEviction()
    requires LfuSpec.Inv(S3)
    ensures LfuSpec.Put(S3, 3, 3) == S4
  {
    LfuSpec.IsVictim(S3.entries, 2);
    assert (S3.entries - {2})[3 := LfuSpec.Entry(3, 1, 4)] == S4.entries;
  }

  /** `get(2)` misses and `get(3)` raises key 3 to count two. */
  lemma MiddleGets()
    ensures LfuSpec.Get(S4, 2) == (S4, -1)
    ensures LfuSpec.Get(S4, 3) == (S5, 3)
  {
    assert S4.entries[3 := LfuSpec.Entry(3, 2, 5)] == S5.entries;
  }

  /** `put(4, 4)` evicts key 1: both entries are used twice and key 1 was touched earlier. */
  lemma SecondEviction()
    requires LfuSpec.Inv(S5)
    ensures LfuSpec.Put(S5, 4, 4) == S6
  {
    LfuSpec.IsVictim(S5.entries, 1);
    assert (S5.entries - {1})[4 := LfuSpec.Entry(4, 1, 6)] == S6.entries;
  }

  /** `get(1)` misses, then `get(3)` and `get(4)` hit. */
  lemma FinalGets()
    ensures LfuSpec.Get(S6, 1) == (S6, -1)
    ensures LfuSpec.Get(S6, 3) == (S7, 3)
    ensures LfuSpec.Get(S7, 4) == (S8, 4)
  {
    assert S6.entries[3 := LfuSpec.Entry(3, 3, 7)] == S7.entries;
    assert S7.entries[4 := LfuSpec.Entry(4, 2, 8)] == S8.entries;
  }

  /** The sizes the suites read: one after the first `put`, two after each later one. */
  lemma StateSizes()
    ensures |S1.entries| == 1 && |S2.entries| == 2 && |S4.entries| == 2 && |S6.entries| == 2
  {
    assert S1.entries.Keys == {1};
    assert S2.entries.Keys == {1, 2};
    assert S4.entries.Keys == {1, 3};
    assert S6.entries.Keys == {3, 4};
  }

  /** The test suite of the bucketed cache: each call answers as the suite expects. */
  method HappyPathOptimised() returns (answers: seq<int>)
    ensures answers == HappyPathAnswers
  {
    FillSteps();
    MiddleGets();
    FinalGets();
    StateSizes();
    var lfu := new LfuOptimised.LFUCache(2);
    lfu.Put(1, 1);
    assert lfu.Abs() == S1;
    LfuOptimised.EntriesInv(lfu.keyMap, lfu.frequencyMap, lfu.touched, lfu.clock);
    var n1 := |lfu.keyMap|;
    assert n1 == 1;
    lfu.Put(2, 2);
    assert lfu.Abs() == S2;
    LfuOptimised.EntriesInv(lfu.keyMap, lfu.frequencyMap, lfu.touched, lfu.clock);
    var n2 := |lfu.keyMap|;
    assert n2 == 2;
    var g1 := lfu.Get(1);
    assert lfu.Abs() == S3 && g1 == 1;
    lfu.Put(3, 3);
    FirstEviction();
    assert lfu.Abs() == S4;
    LfuOptimised.EntriesInv(lfu.keyMap, lfu.frequencyMap, lfu.touched, lfu.clock);
    var n3 := |lfu.keyMap|;
    assert n3 == 2;
    var g2 := lfu.Get(2);
    assert lfu.Abs() == S4 && g2 == -1;
    var g3 := lfu.Get(3);
    assert lfu.Abs() == S5 && g3 == 3;
    lfu.Put(4, 4);
    SecondEviction();
    assert lfu.Abs() == S6;
    LfuOptimised.EntriesInv(lfu.keyMap, lfu.frequencyMap, lfu.touched, lfu.clock);
    var n4 := |lfu.keyMap|;
    assert n4 == 2;
    var g4 := lfu.Get(1);
    assert lfu.Abs() == S6 && g4 == -1;
    var g5 := lfu.Get(3);
    assert lfu.Abs() == S7 && g5 == 3;
    var g6 := lfu.Get(4);
    assert g6 == 4;
    answers := [n1, n2, g1, n3, g2, g3, n4, g4, g5, g6];
  }

  /** The test suite of the single-list cache: each call answers as the suite expects. */
  method HappyPathList() returns (answers: seq<int>)
    ensures answers == HappyPathAnswers
  {
    FillSteps();
    MiddleGets();
    FinalGets();
    StateSizes();
    var lfu := new LfuList.LFUCache(2);
    lfu.Put(1, 1);
    assert lfu.Abs() == S1;
    LfuList.AbsInv(lfu.capacity, lfu.list, lfu.keyMap, lfu.timestamp);
    var n1 := |lfu.keyMap|;
    assert n1 == 1;
    lfu.Put(2, 2);
    assert lfu.Abs() == S2;
    LfuList.AbsInv(lfu.capacity, lfu.list, lfu.keyMap, lfu.timestamp);
    var n2 := |lfu.keyMap|;
    assert n2 == 2;
    var g1 := lfu.Get(1);
    assert lfu.Abs() == S3 && g1 == 1;
    lfu.Put(3, 3);
    FirstEviction();
    assert lfu.Abs() == S4;
    LfuList.AbsInv(lfu.capacity, lfu.list, lfu.keyMap, lfu.timestamp);
    var n3 := |lfu.keyMap|;
    assert n3 == 2;
    var g2 := lfu.Get(2);
    assert lfu.Abs() == S4 && g2 == -1;
    var g3 := lfu.Get(3);
    assert lfu.Abs() == S5 && g3 == 3;
    lfu.Put(4, 4);
    SecondEviction();
    assert lfu.Abs() == S6;
    LfuList.AbsInv(lfu.capacity, lfu.list, lfu.keyMap, lfu.timestamp);
    var n4 := |lfu.keyMap|;
    assert n4 == 2;
    var g4 := lfu.Get(1);
    assert lfu.Abs() == S6 && g4 == -1;
    var g5 := lfu.Get(3);
    assert lfu.Abs() == S7 && g5 == 3;
    var g6 := lfu.Get(4);
    assert g6 == 4;
    answers := [n1, n2, g1, n3, g2, g3, n4, g4, g5, g6];
  }
}
