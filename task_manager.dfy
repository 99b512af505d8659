/**
 * A task manager: tasks by id, and per priority a list of task ids bounded
 * by a head and a tail sentinel, kept in descending task-id order, so that
 * the task to execute next is the head of the highest priority's list.
 *
 * A list is the sequence of task ids between its sentinels, head first.
 * The head sentinel carries task id `MaxSafe`, the tail sentinel task id and
 * priority `MinSafe`; a sequence index past the last task stands for the tail.
 */
module TaskManagerModel {
  import Seqs
  import Ranking

  /** `Number.MIN_SAFE_INTEGER` and `Number.MAX_SAFE_INTEGER`. */
  const MinSafe: int := -9007199254740991
  const MaxSafe: int := 9007199254740991

  /** What `execTop` returns when there is no task. */
  const NoTask := -1

  /** A task node's data. */
  datatype Task = Task(userId: int, taskId: int, priority: int)

  /** `a` is executed before `b`: it has a higher priority, or the same priority and a larger task id. */
  predicate Outranks(a: Task, b: Task) {
    a.priority > b.priority || (a.priority == b.priority && a.taskId > b.taskId)
  }

  function Max(a: int, b: int): int {
    if a >= b then a else b
  }

  /** Some element of a non-empty set: the next entry a `for ... of` loop visits, in an order the result does not depend on. */
  method Pick<T>(s: set<T>) returns (x: T)
    requires s != {}
    ensures x in s
  {
    x :| x in s;
  }

  /** Some key of a non-empty map. */
  lemma PickKey<K, V>(m: map<K, V>) returns (k: K)
    requires m != map[]
    ensures k in m
  {
    k :| k in m;
  }

  // ----- Priority lists -----

  /** Task ids strictly decrease from head to tail. */
  ghost predicate Descending(s: seq<int>) {
    forall i, j | 0 <= i < j < |s| :: s[i] > s[j]
  }

  /** The list of `p`; a priority without a list reads as an empty one. */
  function BucketAt(pm: map<int, seq<int>>, p: int): seq<int> {
    if p in pm then pm[p] else []
  }

  /**
   * `id` linked in front of the first task whose id is not larger: the list
   * holds `id` besides its old tasks and stays in descending order.
   */
  function InsertDescending(s: seq<int>, id: int): (r: seq<int>)
    ensures |r| == |s| + 1
    ensures forall x :: x in r <==> x in s || x == id
    ensures Descending(s) && id !in s ==> Descending(r)
  {
    if s == [] || s[0] <= id then
      assert Descending(s) && id !in s ==> forall x | x in s :: x < id by {
        if Descending(s) && id !in s && s != [] {
          forall x | x in s ensures x < id {
            var j :| 0 <= j < |s| && s[j] == x;
            assert s[0] >= s[j];
          }
        }
      }
      PrependDescending(id, s);
      [id] + s
    else
      var rest := InsertDescending(s[1..], id);
      assert Descending(s) && id !in s ==> forall x | x in rest :: x < s[0] by {
        if Descending(s) && id !in s {
          forall x | x in rest ensures x < s[0] {
            if x != id {
              var j :| 0 <= j < |s[1..]| && s[1..][j] == x;
              assert s[j + 1] == x;
            }
          }
        }
      }
      PrependDescending(s[0], rest);
      [s[0]] + rest
  }

  /** The insertion links `id` at the first position whose task id is not larger. */
  lemma {:induction false} InsertAt(s: seq<int>, id: int, i: nat)
    requires i <= |s| && (forall j | 0 <= j < i :: s[j] > id) && (i < |s| ==> s[i] <= id)
    ensures InsertDescending(s, id) == s[..i] + [id] + s[i..]
  {
    if i == 0 {
      assert InsertDescending(s, id) == [id] + s;
      assert s[..0] == [] && s[0..] == s;
    } else {
      assert s[0] > id;
      var rest := InsertDescending(s[1..], id);
      assert InsertDescending(s, id) == [s[0]] + rest;
      InsertAt(s[1..], id, i - 1);
      SplitAfterHead(s, id, i);
    }
  }

  /** Linking `id` at position `i - 1` of the tail is linking it at position `i` of the list. */
  lemma SplitAfterHead(s: seq<int>, id: int, i: nat)
    requires 1 <= i <= |s|
    ensures [s[0]] + (s[1..][..i - 1] + [id] + s[1..][i - 1..]) == s[..i] + [id] + s[i..]
  {
    assert s[1..][..i - 1] == s[1..i] && s[1..][i - 1..] == s[i..];
    assert [s[0]] + s[1..i] == s[..i];
  }

  /** A task id above every id of a descending list can be linked at its head. */
  lemma PrependDescending(x: int, s: seq<int>)
    ensures Descending(s) && (forall y | y in s :: y < x) ==> Descending([x] + s)
  {
    var r := [x] + s;
    forall i, j | 0 <= i < j < |r| && Descending(s) && (forall y | y in s :: y < x) ensures r[i] > r[j] {
      assert r[j] == s[j - 1] && s[j - 1] in s;
      if i > 0 {
        assert r[i] == s[i - 1];
      }
    }
  }

  /** Unlinking a task keeps a list in descending order. */
  lemma RemoveAtDescending(s: seq<int>, i: nat)
    requires Descending(s) && i < |s|
    ensures Descending(Seqs.RemoveAt(s, i))
    ensures Seqs.Distinct(s)
  {
    var r := Seqs.RemoveAt(s, i);
    forall a, b | 0 <= a < b < |r| ensures r[a] > r[b] {
      var a' := if a < i then a else a + 1;
      var b' := if b < i then b else b + 1;
      assert r[a] == s[a'] && r[b] == s[b'];
    }
  }

  /** The priority lists after `task` is unlinked from the list of its priority (no change when it is not linked there). */
  function Unfiled(pm: map<int, seq<int>>, task: Task): (r: map<int, seq<int>>)
    ensures r.Keys == pm.Keys
  {
    if task.priority in pm && task.taskId in pm[task.priority] then
      var b := pm[task.priority];
      pm[task.priority := Seqs.RemoveAt(b, Seqs.IndexOf(b, task.taskId))]
    else pm
  }

  /**
   * `isLinkedListEmpty`: the node after the head sentinel has the tail's
   * priority. It reads as "no task" exactly when no task has priority `MinSafe`.
   */
  function IsLinkedListEmpty(bucket: seq<int>, tm: map<int, Task>): (empty: bool)
    requires bucket != [] ==> bucket[0] in tm
    ensures bucket == [] ==> empty
    ensures bucket != [] && tm[bucket[0]].priority != MinSafe ==> !empty
  {
    (if bucket == [] then MinSafe else tm[bucket[0]].priority) == MinSafe
  }

  // ----- The invariant -----

  /** `hp` is the largest of `keys`, or `MinSafe` when none is larger: the fold of `Math.max` from `MinSafe`. */
  ghost predicate IsHighest(keys: set<int>, hp: int) {
    && MinSafe <= hp
    && (forall p | p in keys :: p <= hp)
    && (hp == MinSafe || hp in keys)
  }

  /** Each task is stored under its own id, with an id between the sentinels' and a priority above the tail's. */
  ghost predicate Indexed(tm: map<int, Task>) {
    forall id | id in tm :: tm[id].taskId == id && MinSafe <= id < MaxSafe && tm[id].priority > MinSafe
  }

  /** Each task is linked in the list of its own priority. */
  ghost predicate Filed(tm: map<int, Task>, pm: map<int, seq<int>>) {
    forall id | id in tm :: tm[id].priority in pm && id in pm[tm[id].priority]
  }

  /** Each list is non-empty, descending, and holds only tasks of its priority. */
  ghost predicate Listed(tm: map<int, Task>, pm: map<int, seq<int>>) {
    forall p | p in pm ::
      && pm[p] != []
      && Descending(pm[p])
      && forall i | 0 <= i < |pm[p]| :: pm[p][i] in tm && tm[pm[p][i]].priority == p
  }

  ghost predicate Linked(tm: map<int, Task>, pm: map<int, seq<int>>) {
    Indexed(tm) && Filed(tm, pm) && Listed(tm, pm)
  }

  /** The states a task manager can reach. */
  ghost predicate Coherent(tm: map<int, Task>, pm: map<int, seq<int>>, hp: int) {
    Linked(tm, pm) && IsHighest(pm.Keys, hp)
  }

  /** The head of a non-empty list is one of its tasks. */
  lemma HeadIsIn(s: seq<int>)
    ensures s != [] ==> s[0] in s
  {
  }

  /** Two descending lists with the same task ids are the same list. */
  lemma {:induction false} DescendingUnique(a: seq<int>, b: seq<int>)
    requires Descending(a) && Descending(b)
    requires forall x :: x in a <==> x in b
    ensures a == b
  {
    if a == [] {
      HeadIsIn(b);
    } else {
      assert a[0] in b && b != [];
      assert b[0] in a;
      var i :| 0 <= i < |b| && b[i] == a[0];
      var j :| 0 <= j < |a| && a[j] == b[0];
      assert a[0] >= a[j] && b[0] >= b[i];
      forall x ensures x in a[1..] <==> x in b[1..] {
        if x in a[1..] {
          var k :| 1 <= k < |a| && a[k] == x;
          assert x < a[0];
          assert x in b && x != b[0];
          var l :| 0 <= l < |b| && b[l] == x;
          assert l != 0 && b[1..][l - 1] == x;
        }
        if x in b[1..] {
          var k :| 1 <= k < |b| && b[k] == x;
          assert x < b[0];
          assert x in a && x != a[0];
          var l :| 0 <= l < |a| && a[l] == x;
          assert l != 0 && a[1..][l - 1] == x;
        }
      }
      DescendingUnique(a[1..], b[1..]);
      assert a == [a[0]] + a[1..] && b == [b[0]] + b[1..];
    }
  }

  /**
   * The task index fixes the rest of a coherent state: the lists and
   * `highestPriority` follow from `taskMap` alone.
   */
  lemma CoherentDetermined(tm: map<int, Task>, pm1: map<int, seq<int>>, hp1: int, pm2: map<int, seq<int>>, hp2: int)
    requires Coherent(tm, pm1, hp1) && Coherent(tm, pm2, hp2)
    ensures pm1 == pm2 && hp1 == hp2
  {
    assert Filed(tm, pm1) && Filed(tm, pm2) && Listed(tm, pm1) && Listed(tm, pm2);
    forall p | p in pm1 ensures p in pm2 {
      var x := pm1[p][0];
      assert x in tm && tm[x].priority == p;
      assert tm[x].priority in pm2;
    }
    forall p | p in pm2 ensures p in pm1 {
      var x := pm2[p][0];
      assert x in tm && tm[x].priority == p;
      assert tm[x].priority in pm1;
    }
    forall p | p in pm1 ensures pm1[p] == pm2[p] {
      forall x ensures x in pm1[p] <==> x in pm2[p] {
        if x in pm1[p] {
          var i :| 0 <= i < |pm1[p]| && pm1[p][i] == x;
        }
        if x in pm2[p] {
          var i :| 0 <= i < |pm2[p]| && pm2[p][i] == x;
        }
      }
      DescendingUnique(pm1[p], pm2[p]);
    }
    assert pm1.Keys == pm2.Keys;
  }

  // ----- The next task -----

  /** Distinct tasks are ordered one way or the other. */
  lemma OutranksIsTotal(tm: map<int, Task>)
    requires forall id | id in tm :: tm[id].taskId == id
    ensures Ranking.StrictTotalOn(tm, Outranks)
  {
  }

  /** The task `execTop` executes: highest priority, and among those the largest task id. */
  ghost function Top(tm: map<int, Task>): (k: int)
    requires tm != map[] && forall id | id in tm :: tm[id].taskId == id
    ensures k in tm
    ensures forall j | j in tm :: tm[j].priority <= tm[k].priority
    ensures forall j | j in tm && j != k && tm[j].priority == tm[k].priority :: j < k
  {
    OutranksIsTotal(tm);
    Ranking.First(tm, Outranks)
  }

  /** A task that outranks every other task is the one `execTop` executes. */
  lemma IsTop(tm: map<int, Task>, k: int)
    requires forall id | id in tm :: tm[id].taskId == id
    requires Ranking.IsFirst(tm, Outranks, k)
    ensures Top(tm) == k
  {
    OutranksIsTotal(tm);
    assert Ranking.IsFirst(tm, Outranks, Top(tm)) by {
      forall j | j in tm && j != Top(tm) ensures Outranks(tm[Top(tm)], tm[j]) {
        assert tm[j].taskId == j && tm[Top(tm)].taskId == Top(tm);
      }
    }
    Ranking.FirstUnique(tm, Outranks, k, Top(tm));
  }

  /** In a coherent state with tasks, the head of the highest priority's list outranks every other task. */
  lemma TopIsHead(tm: map<int, Task>, pm: map<int, seq<int>>, hp: int)
    requires Coherent(tm, pm, hp) && tm != map[]
    ensures hp in pm && pm[hp] != [] && pm[hp][0] in tm
    ensures Ranking.IsFirst(tm, Outranks, pm[hp][0])
  {
    var some := PickKey(tm);
    assert tm[some].priority in pm;
    var b := pm[hp];
    var h := b[0];
    forall j | j in tm && j != h ensures Outranks(tm[h], tm[j]) {
      var q := tm[j].priority;
      assert q in pm && q <= hp;
      if q == hp {
        var i :| 0 <= i < |b| && b[i] == j;
        assert i != 0;
        assert b[0] > b[i];
      }
    }
  }

  /** Without a list under `hp` there is no task. */
  lemma NoHighestNoTask(tm: map<int, Task>, pm: map<int, seq<int>>, hp: int)
    requires Coherent(tm, pm, hp) && hp !in pm
    ensures tm == map[]
  {
    if tm != map[] {
      TopIsHead(tm, pm, hp);
    }
  }

  // ----- What `add` and `rmv` do to the invariant -----

  /** `add` keeps the lists linked: the new task is filed in front of the first smaller id of its priority. */
  lemma AddLinked(tm: map<int, Task>, pm: map<int, seq<int>>, task: Task)
    requires Linked(tm, pm) && task.taskId !in tm
    requires MinSafe <= task.taskId < MaxSafe && task.priority > MinSafe
    ensures Linked(tm[task.taskId := task],
                   pm[task.priority := InsertDescending(BucketAt(pm, task.priority), task.taskId)])
  {
    var id, p := task.taskId, task.priority;
    var b := BucketAt(pm, p);
    var tm', pm' := tm[id := task], pm[p := InsertDescending(b, id)];
    forall i | 0 <= i < |b| ensures b[i] != id {
      assert b[i] in tm;
    }
    forall q | q in pm'
      ensures forall i | 0 <= i < |pm'[q]| :: pm'[q][i] in tm' && tm'[pm'[q][i]].priority == q
    {
      if q == p {
        forall i | 0 <= i < |pm'[q]| ensures pm'[q][i] in tm' && tm'[pm'[q][i]].priority == q {
          var x := pm'[q][i];
          if x != id {
            assert x in b;
            var j :| 0 <= j < |b| && b[j] == x;
          }
        }
      }
    }
    assert Listed(tm', pm');
  }

  /** `add` keeps `highestPriority` the largest listed priority. */
  lemma AddHighest(keys: set<int>, hp: int, p: int)
    requires IsHighest(keys, hp)
    ensures IsHighest(keys + {p}, Max(p, hp))
  {
  }

  /**
   * `rmv` of a present task: after unlinking it, the head of the remaining
   * list (if any) is a task of that priority, and dropping the list when it
   * empties keeps the lists linked without the task.
   */
  lemma RmvLinked(tm: map<int, Task>, pm: map<int, seq<int>>, id: int)
    requires Linked(tm, pm) && id in tm
    ensures var p := tm[id].priority; var pm1 := Unfiled(pm, tm[id]);
      && p in pm1
      && (pm1[p] != [] ==> pm1[p][0] in tm && tm[pm1[p][0]].priority == p)
      && Linked(tm - {id}, if pm1[p] == [] then pm1 - {p} else pm1)
  {
    var p := tm[id].priority;
    var b := pm[p];
    var k := Seqs.IndexOf(b, id);
    var b1 := Seqs.RemoveAt(b, k);
    var pm1 := Unfiled(pm, tm[id]);
    assert pm1 == pm[p := b1];
    RemoveAtDescending(b, k);
    Seqs.RemoveAtDistinct(b, k);
    var tm2, pm2 := tm - {id}, if b1 == [] then pm1 - {p} else pm1;
    if b1 != [] {
      assert b1[0] in b;
    }
    forall j | j in tm2 ensures tm2[j].priority in pm2 && j in pm2[tm2[j].priority] {
      if tm[j].priority == p {
        assert j in b1;
      }
    }
    forall q | q in pm2
      ensures forall i | 0 <= i < |pm2[q]| :: pm2[q][i] in tm2 && tm2[pm2[q][i]].priority == q
    {
      forall i | 0 <= i < |pm2[q]| ensures pm2[q][i] in tm2 && tm2[pm2[q][i]].priority == q {
        var x := pm2[q][i];
        if q == p {
          assert x in b1;
          var j :| 0 <= j < |b| && b[j] == x;
        } else {
          assert x == pm[q][i];
        }
      }
    }
    assert Listed(tm2, pm2);
  }

  /** `rmv` keeps `highestPriority` when the removed task had another priority. */
  lemma RmvHighest(keys: set<int>, hp: int, p: int, keys': set<int>)
    requires IsHighest(keys, hp) && p in keys && p != hp
    requires keys' == keys || keys' == keys - {p}
    ensures IsHighest(keys', hp)
  {
  }

  // ----- Loading the initial tasks -----

  /** The tasks `[userId, taskId, priority]` by task id. */
  function Load(tasks: seq<(int, int, int)>): (m: map<int, Task>)
    ensures forall i | 0 <= i < |tasks| :: tasks[i].1 in m
    ensures forall k | k in m :: exists i | 0 <= i < |tasks| :: tasks[i].1 == k
  {
    if tasks == [] then map[]
    else
      var t := tasks[|tasks| - 1];
      var front := tasks[..|tasks| - 1];
      var m := Load(front);
      assert forall i | 0 <= i < |front| :: front[i] == tasks[i];
      m[t.1 := Task(t.0, t.1, t.2)]
  }

  /** Task ids pairwise distinct, each between the sentinels', each priority above the tail's. */
  ghost predicate Loadable(tasks: seq<(int, int, int)>) {
    && (forall i, j | 0 <= i < j < |tasks| :: tasks[i].1 != tasks[j].1)
    && (forall i | 0 <= i < |tasks| :: MinSafe <= tasks[i].1 < MaxSafe && tasks[i].2 > MinSafe)
  }

  class TaskManager {
    /** Task id to node. */
    var taskMap: map<int, Task>
    /** Priority to the task ids of its list, head first. */
    var priorityMap: map<int, seq<int>>
    var highestPriority: int

    ghost predicate Valid()
      reads this
    {
      Coherent(taskMap, priorityMap, highestPriority)
    }

    /** Adds each of `tasks` in turn, each `[userId, taskId, priority]`. */
    constructor (tasks: seq<(int, int, int)>)
      requires Loadable(tasks)
      ensures Valid() && taskMap == Load(tasks)
    {
      taskMap := map[];
      priorityMap := map[];
      highestPriority := MinSafe;
      new;
      var i := 0;
      while i < |tasks|
        invariant 0 <= i <= |tasks|
        invariant Valid() && taskMap == Load(tasks[..i])
      {
        var t := tasks[i];
        forall j | 0 <= j < i ensures tasks[..i][j].1 != t.1 {
          assert tasks[..i][j] == tasks[j];
        }
        Add(t.0, t.1, t.2);
        assert tasks[..i + 1][..i] == tasks[..i];
        i := i + 1;
      }
      assert tasks[..i] == tasks;
    }

    /** `add`: the task is indexed and filed under its priority, which `highestPriority` now covers. */
    method Add(userId: int, taskId: int, priority: int)
      requires Valid() && taskId !in taskMap
      requires MinSafe <= taskId < MaxSafe && priority > MinSafe
      modifies this
      ensures Valid()
      ensures taskMap == old(taskMap)[taskId := Task(userId, taskId, priority)]
    {
      var task := Task(userId, taskId, priority);
      AddLinked(taskMap, priorityMap, task);
      AddHighest(priorityMap.Keys, highestPriority, priority);
      highestPriority := Max(task.priority, highestPriority);
      taskMap := taskMap[task.taskId := task];
      InsertNodeToPriorityMap(task);
    }

    /** `edit`: a present task keeps its user and id and takes the new priority; an unknown id changes nothing. */
    method Edit(taskId: int, newPriority: int)
      requires Valid() && newPriority > MinSafe
      modifies this
      ensures Valid()
      ensures taskId in old(taskMap) ==>
        taskMap == old(taskMap)[taskId := old(taskMap)[taskId].(priority := newPriority)]
      ensures taskId !in old(taskMap) ==>
        taskMap == old(taskMap) && priorityMap == old(priorityMap) && highestPriority == old(highestPriority)
    {
      if taskId in taskMap {
        var node := taskMap[taskId];
        Rmv(node.taskId);
        Add(node.userId, node.taskId, newPriority);
      }
    }

    /**
     * `rmv`: a present task is unlinked, its list dropped if it empties, and
     * `highestPriority` rescanned if it was that task's priority; an unknown
     * id changes nothing.
     */
    method Rmv(taskId: int)
      requires Valid()
      modifies this
      ensures Valid()
      ensures taskMap == old(taskMap) - {taskId}
      ensures taskId !in old(taskMap) ==> priorityMap == old(priorityMap) && highestPriority == old(highestPriority)
    {
      if taskId in taskMap {
        var node := taskMap[taskId];
        RmvLinked(taskMap, priorityMap, taskId);
        ghost var keys := priorityMap.Keys;
        RemoveNodeFromPriorityMap(node);
        if IsLinkedListEmpty(priorityMap[node.priority], taskMap) {
          priorityMap := priorityMap - {node.priority};
        }
        if node.priority == highestPriority {
          highestPriority := GetHighestFrequency();
        } else {
          RmvHighest(keys, highestPriority, node.priority, priorityMap.Keys);
        }
        taskMap := taskMap - {taskId};
      }
    }

    /**
     * `execTop`: removes the task with the highest priority, and among those
     * the largest task id, and returns its user; with no task, returns
     * `NoTask` and changes nothing.
     */
    method ExecTop() returns (userId: int)
      requires Valid()
      modifies this
      ensures Valid()
      ensures old(taskMap) == map[] ==> userId == NoTask && taskMap == old(taskMap)
      ensures old(taskMap) != map[] ==>
        var top := Top(old(taskMap));
        userId == old(taskMap)[top].userId && taskMap == old(taskMap) - {top}
    {
      if highestPriority in priorityMap && !IsLinkedListEmpty(priorityMap[highestPriority], taskMap) {
        var head := priorityMap[highestPriority];
        var task := taskMap[head[0]];
        TopIsHead(taskMap, priorityMap, highestPriority);
        IsTop(taskMap, head[0]);
        userId := task.userId;
        Rmv(task.taskId);
      } else {
        if highestPriority in priorityMap {
          TopIsHead(taskMap, priorityMap, highestPriority);
        } else {
          NoHighestNoTask(taskMap, priorityMap, highestPriority);
        }
        userId := NoTask;
      }
    }

    /**
     * `insertNodeToPriorityMap`: walks the list of the task's priority from
     * its head until the first task id not larger than the new one (the tail
     * sentinel at the latest) and links the task in front of it.
     */
    method InsertNodeToPriorityMap(task: Task)
      modifies this
      ensures priorityMap == old(priorityMap)[task.priority :=
        InsertDescending(BucketAt(old(priorityMap), task.priority), task.taskId)]
      ensures taskMap == old(taskMap) && highestPriority == old(highestPriority)
    {
      if task.priority !in priorityMap {
        priorityMap := priorityMap[task.priority := []];
      }
      var bucket := priorityMap[task.priority];
      assert bucket == BucketAt(old(priorityMap), task.priority);
      var i := 0;
      while i < |bucket| && bucket[i] > task.taskId
        invariant 0 <= i <= |bucket|
        invariant forall j | 0 <= j < i :: bucket[j] > task.taskId
      {
        i := i + 1;
      }
      InsertAt(bucket, task.taskId, i);
      priorityMap := priorityMap[task.priority := bucket[..i] + [task.taskId] + bucket[i..]];
    }

    /** `removeNodeFromPriorityMap`: unlinks the task from the list of its priority, if there is one. */
    method RemoveNodeFromPriorityMap(task: Task)
      modifies this
      ensures priorityMap == Unfiled(old(priorityMap), task)
      ensures taskMap == old(taskMap) && highestPriority == old(highestPriority)
    {
      if task.priority !in priorityMap {
        return;
      }
      var bucket := priorityMap[task.priority];
      if task.taskId in bucket {
        priorityMap := priorityMap[task.priority := Seqs.RemoveAt(bucket, Seqs.IndexOf(bucket, task.taskId))];
      }
    }

    /** `getHighestFrequency`: the largest listed priority, or `MinSafe` when there is none larger. */
    method GetHighestFrequency() returns (max: int)
      ensures IsHighest(priorityMap.Keys, max)
    {
      max := MinSafe;
      var rest := priorityMap.Keys;
      while rest != {}
        invariant rest <= priorityMap.Keys
        invariant IsHighest(priorityMap.Keys - rest, max)
        decreases |rest|
      {
        var p := Pick(rest);
        assert priorityMap.Keys - (rest - {p}) == (priorityMap.Keys - rest) + {p};
        max := Max(p, max);
        rest := rest - {p};
      }
      assert priorityMap.Keys - rest == priorityMap.Keys;
    }
  }

  // ----- The test suite's scenarios -----

  /** `m` without `k` is `r` when `r` holds exactly the other entries of `m`. */
  lemma RemovedKey<K, V>(m: map<K, V>, k: K, r: map<K, V>)
    requires r.Keys == m.Keys - {k} && forall j | j in r :: r[j] == m[j]
    ensures m - {k} == r
  {
  }

  const NewLogicTasks: seq<(int, int, int)> := [(1, 101, 10), (2, 102, 20), (3, 103, 15)]
  const RaiseTasks: seq<(int, int, int)> := [(2, 12, 32), (3, 27, 33), (10, 5, 23), (8, 4, 3)]

  /** The first scenario's tasks load as three nodes. */
  lemma LoadNewLogic()
    ensures Loadable(NewLogicTasks)
    ensures Load(NewLogicTasks) == map[101 := Task(1, 101, 10), 102 := Task(2, 102, 20), 103 := Task(3, 103, 15)]
  {
    var t := NewLogicTasks;
    assert t[..1][..0] == [];
    assert Load(t[..1]) == map[101 := Task(1, 101, 10)];
    assert t[..2][..1] == t[..1];
    assert Load(t[..2]) == map[101 := Task(1, 101, 10), 102 := Task(2, 102, 20)];
    assert t[..3] == t && t[..3][..2] == t[..2];
  }

  /** The third scenario's tasks load as four nodes. */
  lemma LoadRaise()
    ensures Loadable(RaiseTasks)
    ensures Load(RaiseTasks) == map[12 := Task(2, 12, 32), 27 := Task(3, 27, 33), 5 := Task(10, 5, 23), 4 := Task(8, 4, 3)]
  {
    var t := RaiseTasks;
    assert t[..1][..0] == [];
    assert Load(t[..1]) == map[12 := Task(2, 12, 32)];
    assert t[..2][..1] == t[..1];
    assert Load(t[..2]) == map[12 := Task(2, 12, 32), 27 := Task(3, 27, 33)];
    assert t[..3][..2] == t[..2];
    assert Load(t[..3]) == map[12 := Task(2, 12, 32), 27 := Task(3, 27, 33), 5 := Task(10, 5, 23)];
    assert t[..4] == t && t[..4][..3] == t[..3];
  }

  /** Task 103 has the highest priority, 15, in the first scenario's first `execTop`. */
  lemma TopNewLogicFirst(m: map<int, Task>)
    requires m == map[101 := Task(1, 101, 10), 102 := Task(2, 102, 8), 103 := Task(3, 103, 15), 104 := Task(4, 104, 5)]
    ensures 103 in m && Top(m) == 103
  {
    IsTop(m, 103);
  }

  /** Task 105 has the highest priority, 15, in the first scenario's second `execTop`. */
  lemma TopNewLogicSecond(m: map<int, Task>)
    requires m == map[102 := Task(2, 102, 8), 104 := Task(4, 104, 5), 105 := Task(5, 105, 15)]
    ensures 105 in m && Top(m) == 105
  {
    IsTop(m, 105);
  }

  /** Task 4, raised to priority 48, comes first in the third scenario. */
  lemma TopRaise(m: map<int, Task>)
    requires m == map[12 := Task(2, 12, 32), 27 := Task(3, 27, 33), 5 := Task(10, 5, 23), 4 := Task(8, 4, 48)]
    ensures 4 in m && Top(m) == 4
  {
    IsTop(m, 4);
  }

  /** "New Logic - 02", set-up: three tasks, then task 104 added and task 102 lowered to priority 8. */
  method NewLogicSetUp() returns (tm: TaskManager)
    ensures fresh(tm) && tm.Valid()
    ensures tm.taskMap == map[101 := Task(1, 101, 10), 102 := Task(2, 102, 8), 103 := Task(3, 103, 15), 104 := Task(4, 104, 5)]
  {
    LoadNewLogic();
    tm := new TaskManager(NewLogicTasks);
    tm.Add(4, 104, 5);
    assert tm.taskMap == map[101 := Task(1, 101, 10), 102 := Task(2, 102, 20), 103 := Task(3, 103, 15), 104 := Task(4, 104, 5)];
    tm.Edit(102, 8);
  }

  /** "New Logic - 02", first `execTop`: runs task 103, of user 3. */
  method NewLogicUntilFirstTop() returns (tm: TaskManager, first: int)
    ensures fresh(tm) && tm.Valid() && first == 3
    ensures tm.taskMap == map[101 := Task(1, 101, 10), 102 := Task(2, 102, 8), 104 := Task(4, 104, 5)]
  {
    tm := NewLogicSetUp();
    TopNewLogicFirst(tm.taskMap);
    ghost var before := tm.taskMap;
    first := tm.ExecTop();
    RemovedKey(before, 103, map[101 := Task(1, 101, 10), 102 := Task(2, 102, 8), 104 := Task(4, 104, 5)]);
  }

  /** "New Logic - 02": after the first half, a removal and an add make task 105, of user 5, the next one. */
  method ScenarioNewLogic() returns (first: int, second: int)
    ensures first == 3 && second == 5
  {
    var tm;
    tm, first := NewLogicUntilFirstTop();
    ghost var before := tm.taskMap;
    tm.Rmv(101);
    RemovedKey(before, 101, map[102 := Task(2, 102, 8), 104 := Task(4, 104, 5)]);
    tm.Add(5, 105, 15);
    assert tm.taskMap == map[102 := Task(2, 102, 8), 104 := Task(4, 104, 5), 105 := Task(5, 105, 15)];
    TopNewLogicSecond(tm.taskMap);
    second := tm.ExecTop();
  }

  /** "Failed Submission": the only task, moved to a lower priority, is still the one `execTop` runs. */
  method ScenarioSingleEdit() returns (top: int)
    ensures top == 10
  {
    var tm := new TaskManager([(10, 25, 31)]);
    tm.Edit(25, 9);
    assert tm.taskMap == map[25 := Task(10, 25, 9)];
    IsTop(tm.taskMap, 25);
    top := tm.ExecTop();
  }

  /** "Failed Submission 2": raising task 4 above every other priority makes it the next task. */
  method ScenarioRaise() returns (top: int)
    ensures top == 8
  {
    LoadRaise();
    var tm := new TaskManager(RaiseTasks);
    tm.Edit(4, 48);
    assert tm.taskMap == map[12 := Task(2, 12, 32), 27 := Task(3, 27, 33), 5 := Task(10, 5, 23), 4 := Task(8, 4, 48)];
    TopRaise(tm.taskMap);
    top := tm.ExecTop();
  }

  /** The last scenario: lowering task 7 and removing task 6, the highest, leaves task 7 as the next task. */
  method ScenarioLowerThenRemove() returns (top: int)
    ensures top == 2
  {
    var tm := new TaskManager([(6, 6, 44), (2, 7, 27)]);
    tm.Edit(7, 9);
    tm.Rmv(6);
    assert tm.taskMap == map[7 := Task(2, 7, 9)];
    IsTop(tm.taskMap, 7);
    top := tm.ExecTop();
  }
}
