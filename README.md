# s30-Design-7 in Dafny

A model of four design exercises from the s30-Design-7 repository. Each comes with proofs about its behaviour.

- **Bucketed LFU cache** (`lfu_cache_optimised.ts`), modelled in `lfu_optimised.dfy`.
  - Each use count has its own LRU list (`LRUNodeCache`). `leastFrequency` names the lowest non-empty count.
  - Eviction unlinks the least recently used node of that bucket.
- **Single-list LFU cache** (`lfu_cache.ts`), modelled in `lfu_list.dfy`.
  - One doubly-linked list holds every node, ordered by (use count, last update) descending.
  - A touched node is swapped towards the head; eviction takes the node before the tail.
- **Both caches against one specification.**
  - `lfu_spec.dfy` states the LFU behaviour both caches share, as pure functions on an abstract cache: `LfuSpec.Get` and `LfuSpec.Put`.
  - Every `get` and `put` of both classes is proved to step the abstract state exactly as that specification does.
  - `lfu_conformance.dfy` replays call sequences on both caches and proves the two give the same answers. It also replays the repository's "Happy Path" suite.
- **Task manager** (`task_manager.ts`), modelled in `task_manager.dfy`.
  - Tasks are indexed by id. Each priority keeps a sentinel-bounded list of task ids in descending order.
  - `highestPriority` tracks the largest listed priority.
  - `execTop` runs the task with the highest priority and, among equals, the largest id.
- **Snake game** (`snake_game.ts`), modelled in `snake_game.dfy`.
  - The snake moves on a `height` × `width` board. It grows when it eats the next piece of food, in order.
  - A move off the board or into its own body ends the game (`-1`). Otherwise the move returns the score.
  - A boolean grid (`visitedSnakeBody`) marks the body.

Shared helpers:
- `seqs.dfy`: distinctness, index-of, remove-at.
- `ranking.dfy`: the first element of a map under a strict total order.
- `wrappers.dfy`: `Option`.

How the model is built:
- Classes whose fields the source updates in place are Dafny classes. Their methods carry `modifies` clauses.
- Each doubly-linked list is a `seq` field of keys, head first. Node data lives in key-indexed maps.
- The snake's grid is an `array2<bool>`.

## Model

| member | source | states |
|---|---|---|
| LfuSpec.Victim | lfu_cache_optimised.ts:114-120 | the evicted key has the least use count, and among those the earliest last touch |
| LfuSpec.InitInv | lfu_cache_optimised.ts:89-95 | an empty cache of capacity at least one satisfies the cache invariant |
| LfuSpec.GetInv | lfu_cache_optimised.ts:97-105 | `get` keeps the invariant |
| LfuSpec.PutInv | lfu_cache_optimised.ts:107-130 | `put` keeps the invariant, so the cache never holds more than `capacity` entries |
| LfuSpec.GetMiss | lfu_cache_optimised.ts:97-105 | a miss returns -1 and changes nothing |
| LfuSpec.GetHit | lfu_cache_optimised.ts:98-102 | a hit returns the stored value, raises that key's use count by exactly one and leaves every other entry unchanged |
| LfuSpec.PutExisting | lfu_cache_optimised.ts:108-112 | `put` on a resident key stores the new value, raises its count by one and keeps the key set and the other entries |
| LfuSpec.PutEvicts | lfu_cache_optimised.ts:113-128 | `put` of a new key into a full cache evicts exactly one key, the least used and among those the least recently touched; the new key enters with its value, use count one and the current time, and every other entry is kept |
| LfuSpec.PutRoom | lfu_cache_optimised.ts:121-128 | `put` of a new key into a cache with room evicts nothing and adds the key with use count one |
| LfuSpec.PutThenGet | lfu_cache_optimised.ts:97-130 | `get(k)` right after `put(k, v)` returns `v`; the count is two above its old value, or two for a new key |
| LfuSpec.CountsNeverDecrease | lfu_cache_optimised.ts:132-156 | no call lowers the use count of any entry that stays resident |
| LfuSpec.IsVictim | lfu_cache_optimised.ts:114-120 | a key that is first in eviction order is the victim |
| LfuOptimised.LRUNodeCache.constructor | lfu_cache_optimised.ts:24-31 | a new bucket is empty and keeps its capacity |
| LfuOptimised.LRUNodeCache.Size | lfu_cache_optimised.ts:33-35 | the size is the number of linked nodes |
| LfuOptimised.LRUNodeCache.RemoveNode | lfu_cache_optimised.ts:61-71 | unlinks the given node, or `tail.prev` when given none, and drops its key; the list without that key is what remains |
| LfuOptimised.LRUNodeCache.InsertNode | lfu_cache_optimised.ts:74-80 | the node becomes `head.next` and is indexed |
| LfuOptimised.LRUNodeCache.Get | lfu_cache_optimised.ts:37-43 | a miss returns -1 and changes nothing; a hit returns the value and moves the key to the front |
| LfuOptimised.LRUNodeCache.Put | lfu_cache_optimised.ts:45-58 | a resident key is overwritten and moved to the front; a new key goes to the front after the last key is evicted from a full list |
| LfuOptimised.Unlink | lfu_cache_optimised.ts:61-71 | `removeNode` as a value: the key leaves the index and the list loses one link, keeping only keys it had |
| LfuOptimised.LinkFirst | lfu_cache_optimised.ts:74-80 | `insertNode` as a value: the node is `head.next`, the old list follows it, and a new key grows the size by one |
| LfuOptimised.Unlinked | lfu_cache_optimised.ts:134-147 | the first half of `update_frequency`: the key leaves its bucket, and `leastFrequency` rises by one only when that was the least bucket and it is now empty |
| LfuOptimised.Relinked | lfu_cache_optimised.ts:149-155 | the second half of `update_frequency`: the node is indexed and first in the bucket of its count, made when missing, and is touched now |
| LfuOptimised.Promoted | lfu_cache_optimised.ts:132-156 | `update_frequency`: the key set is the old one with the node's key, the node keeps its value with one more use, and it is touched at the current time with the clock moving on by one |
| LfuOptimised.Evicted | lfu_cache_optimised.ts:114-120 | the eviction: the key of `tail.prev` of the least bucket leaves the index, that bucket loses one link, the least count stays |
| LfuOptimised.Inserted | lfu_cache_optimised.ts:121-128 | the insertion: the key enters with its value and count one, first in bucket one, touched now; `leastFrequency` becomes one and other nodes are unchanged |
| LfuOptimised.LeastRecentIsVictim | lfu_cache_optimised.ts:114-120 | in a coherent cache, `tail.prev` of the least use count's bucket is the specification's victim |
| LfuOptimised.PromotedCoherent | lfu_cache_optimised.ts:132-156 | `update_frequency` keeps buckets, key index, least use count and recency order coherent |
| LfuOptimised.PromotedLeast | lfu_cache_optimised.ts:141-146 | after the promotion, with its rise by one when the least bucket empties, `leastFrequency` is still the least resident use count and names a non-empty bucket |
| LfuOptimised.EvictedLinked | lfu_cache_optimised.ts:114-120 | eviction keeps the nodes linked, removes one key, and removes exactly the specification's victim |
| LfuOptimised.InsertedCoherent | lfu_cache_optimised.ts:121-128 | insertion with use count one restores coherence, with least use count one, and adds exactly the new entry |
| LfuOptimised.AbsInv | lfu_cache_optimised.ts:83-95 | a linked cache within capacity satisfies the specification's invariant |
| LfuOptimised.GetHitRefines | lfu_cache_optimised.ts:97-105 | a `get` hit is the specification's `get` |
| LfuOptimised.GetMissRefines | lfu_cache_optimised.ts:97-105 | a `get` miss is the specification's miss |
| LfuOptimised.PutExistingRefines | lfu_cache_optimised.ts:108-112 | an overwrite is the specification's `put` of a resident key |
| LfuOptimised.PutEvictRefines | lfu_cache_optimised.ts:113-128 | eviction then insertion is the specification's `put` into a full cache, and leaves the cache coherent and full |
| LfuOptimised.PutRoomRefines | lfu_cache_optimised.ts:121-128 | insertion is the specification's `put` into a cache with room |
| LfuOptimised.LFUCache.constructor | lfu_cache_optimised.ts:89-95 | a new cache is the specification's empty cache |
| LfuOptimised.LFUCache.UpdateFrequency | lfu_cache_optimised.ts:132-156 | moves the node to the front of the next count's bucket, making that bucket if missing, and raises `leastFrequency` when the old least bucket empties |
| LfuOptimised.LFUCache.Get | lfu_cache_optimised.ts:97-105 | answer and new state are the specification's `get`; the invariant is kept |
| LfuOptimised.LFUCache.EvictLeastRecent | lfu_cache_optimised.ts:114-120 | unlinks `tail.prev` of the least bucket and forgets its key |
| LfuOptimised.LFUCache.InsertNew | lfu_cache_optimised.ts:121-128 | links a count-one node at the front of bucket one and resets `leastFrequency` to one |
| LfuOptimised.LFUCache.Put | lfu_cache_optimised.ts:107-130 | the new state is the specification's `put`; the invariant is kept |
| LfuList.Swap | lfu_cache.ts:109-116 | the two neighbours trade places and every other position is unchanged |
| LfuList.Bumped | lfu_cache.ts:85-89 | one more use, updated at the current timestamp, key, value and creation time unchanged |
| LfuList.SwapStep | lfu_cache.ts:91-118 | one swap of the loop moves the out-of-place node up one position and keeps the rest ranked |
| LfuList.StopRanked | lfu_cache.ts:91-118 | when the walk stops the whole list is ranked head to tail |
| LfuList.BumpRankedBut | lfu_cache.ts:85-89 | `increaseFrequency` breaks the order at most at the bumped node, which ranks above every later one |
| LfuList.AppendRankedBut | lfu_cache.ts:129-140 | linking a fresh node before the tail breaks the order at most at that node |
| LfuList.ValueSetRanked | lfu_cache.ts:70-71 | overwriting a value keeps the order and stamps |
| LfuList.DropLastRanked | lfu_cache.ts:75-76 | removing the node before the tail keeps the list ranked |
| LfuList.LastIsVictim | lfu_cache.ts:75-76 | the node before the tail of a ranked list is the specification's victim |
| LfuList.AbsInv | lfu_cache.ts:29-58 | a sound cache satisfies the specification's invariant |
| LfuList.GetHitRefines | lfu_cache.ts:60-66 | a `get` hit is the specification's `get` |
| LfuList.GetMissRefines | lfu_cache.ts:60-61 | a `get` miss is the specification's miss |
| LfuList.PutExistingRefines | lfu_cache.ts:69-73 | an overwrite is the specification's `put` of a resident key |
| LfuList.PutNewRefines | lfu_cache.ts:74-82 | evicting the node before the tail when full, then adding a count-one node, is the specification's `put` of a new key |
| LfuList.LFUCache.constructor | lfu_cache.ts:37-58 | a new cache is the specification's empty cache |
| LfuList.LFUCache.IncreaseFrequency | lfu_cache.ts:85-89 | the node gains one use and the current timestamp; the clock advances |
| LfuList.LFUCache.RebalanceIfRequired | lfu_cache.ts:91-118 | afterwards the list is ranked; a list that was already ranked is unchanged; nodes and clock are unchanged |
| LfuList.LFUCache.RemoveNode | lfu_cache.ts:120-127 | unlinks the node and drops its key |
| LfuList.LFUCache.InsertNode | lfu_cache.ts:129-140 | indexes the node, links it, and leaves the list ranked |
| LfuList.LFUCache.Get | lfu_cache.ts:60-66 | answer and new state are the specification's `get`; the invariant is kept |
| LfuList.LFUCache.PutResident | lfu_cache.ts:69-73 | the new value with one more use and the current timestamp; the list stays ranked |
| LfuList.LFUCache.PutNew | lfu_cache.ts:74-82 | when full, the node before the tail is evicted; the new key enters with use count one and the current timestamp |
| LfuList.LFUCache.Put | lfu_cache.ts:68-83 | the new state is the specification's `put`; the invariant is kept |
| LfuConformance.Next | lfu_cache_optimised.ts:97-130 | one call keeps the specification's invariant |
| LfuConformance.Out | lfu_cache_optimised.ts:97-105 | a `get` answers the stored value or -1, a size read the number of resident keys, a `put` nothing |
| LfuConformance.Run | lfu_cache_optimised.ts:159-182 | a call sequence yields exactly one answer per `get` and per size read |
| LfuConformance.Asked | lfu_cache_optimised.ts:159-182 | no more calls answer than were made |
| LfuConformance.After | lfu_cache_optimised.ts:159-182 | every state reached by a call sequence satisfies the invariant |
| LfuConformance.RunSnoc | lfu_cache_optimised.ts:159-182 | one more call appends exactly its own answer, given in the state the earlier calls leave, and moves that state one step |
| LfuConformance.StepOptimised | lfu_cache_optimised.ts:97-130 | one call on the bucketed cache answers and moves as the specification does |
| LfuConformance.StepList | lfu_cache.ts:60-83 | one call on the single-list cache answers and moves as the specification does |
| LfuConformance.RunOptimised | lfu_cache_optimised.ts:159-182 | replaying calls on a fresh bucketed cache yields the specification's answers |
| LfuConformance.RunList | lfu_cache.ts:143-166 | replaying calls on a fresh single-list cache yields the specification's answers |
| LfuConformance.SameAnswers | lfu_cache.ts:143-166 | on every call sequence both caches give the same answers, as the two suites (the other at lfu_cache_optimised.ts:159-182) expect of the same trace |
| LfuConformance.FillSteps | lfu_cache_optimised.ts:162-166 | the suite's first puts and `get(1)` in terms of the specification |
| LfuConformance.FirstEviction | lfu_cache_optimised.ts:168 | `put(3, 3)` evicts key 2, the only entry used once |
| LfuConformance.MiddleGets | lfu_cache_optimised.ts:171-172 | `get(2)` misses and `get(3)` hits |
| LfuConformance.SecondEviction | lfu_cache_optimised.ts:174 | `put(4, 4)` evicts key 1: counts tie and key 1 was touched earlier |
| LfuConformance.FinalGets | lfu_cache_optimised.ts:177-180 | `get(1)` misses, `get(3)` and `get(4)` hit |
| LfuConformance.StateSizes | lfu_cache_optimised.ts:162-176 | the sizes the suite reads |
| LfuConformance.HappyPathOptimised | lfu_cache_optimised.ts:159-182 | the bucketed cache gives the answers the suite expects |
| LfuConformance.HappyPathList | lfu_cache.ts:143-166 | the single-list cache gives the answers the suite expects |
| TaskManagerModel.InsertDescending | task_manager.ts:95-112 | the list gains exactly the new id, one longer, and stays descending |
| TaskManagerModel.InsertAt | task_manager.ts:100-111 | linking in front of the first id not larger than the new one is that insertion |
| TaskManagerModel.RemoveAtDescending | task_manager.ts:114-123 | unlinking a task keeps its list descending |
| TaskManagerModel.Unfiled | task_manager.ts:114-123 | unlinking touches no other priority and keeps the priority keys |
| TaskManagerModel.IsLinkedListEmpty | task_manager.ts:125-128 | reads as empty for a list with no tasks and as non-empty when its head task's priority is above the tail's |
| TaskManagerModel.DescendingUnique | task_manager.ts:95-112 | two descending lists holding the same ids are equal |
| TaskManagerModel.CoherentDetermined | task_manager.ts:14-20 | in a reachable state the task index alone fixes the lists and `highestPriority` |
| TaskManagerModel.Top | task_manager.ts:61-77 | the next task has the highest priority, and the largest id among equals |
| TaskManagerModel.IsTop | task_manager.ts:61-77 | a task that outranks every other is the next task |
| TaskManagerModel.TopIsHead | task_manager.ts:61-70 | in a reachable state with tasks, `head.next` of the highest priority's list outranks every other task |
| TaskManagerModel.NoHighestNoTask | task_manager.ts:65-76 | with no list under `highestPriority` there are no tasks |
| TaskManagerModel.AddLinked | task_manager.ts:28-36 | `add` keeps every task filed in the descending list of its own priority |
| TaskManagerModel.AddHighest | task_manager.ts:31 | `Math.max` keeps `highestPriority` the largest listed priority |
| TaskManagerModel.RmvLinked | task_manager.ts:46-59 | `rmv` leaves a list headed by a task of that priority, or an empty one that is dropped, and the rest linked |
| TaskManagerModel.RmvHighest | task_manager.ts:54-56 | removing a task of another priority keeps `highestPriority` correct |
| TaskManagerModel.Load | task_manager.ts:22-26 | every loaded task id is indexed and nothing else |
| TaskManagerModel.TaskManager.constructor | task_manager.ts:22-26 | adding the tasks in turn indexes them all in a reachable state |
| TaskManagerModel.TaskManager.Add | task_manager.ts:28-36 | the task is indexed and linked and the invariant holds |
| TaskManagerModel.TaskManager.Edit | task_manager.ts:38-44 | a present task takes the new priority, keeping user and id; an unknown id changes nothing |
| TaskManagerModel.TaskManager.Rmv | task_manager.ts:46-59 | the task leaves the index, its list drops it, an emptied list is deleted, `highestPriority` is rescanned; an unknown id changes nothing |
| TaskManagerModel.TaskManager.ExecTop | task_manager.ts:61-77 | returns the user of the highest-priority, largest-id task and removes that task; with no task returns -1 and changes nothing |
| TaskManagerModel.TaskManager.InsertNodeToPriorityMap | task_manager.ts:95-112 | the task is linked in front of the first smaller id of its priority's list, which is made when missing |
| TaskManagerModel.TaskManager.RemoveNodeFromPriorityMap | task_manager.ts:114-123 | the task is unlinked from its list; nothing happens without a list |
| TaskManagerModel.TaskManager.GetHighestFrequency | task_manager.ts:130-136 | the largest listed priority, or `MIN_SAFE_INTEGER` when there is no list |
| TaskManagerModel.LoadNewLogic | task_manager.ts:141-145 | the first suite's tasks load as three nodes |
| TaskManagerModel.LoadRaise | task_manager.ts:165-170 | the third suite's tasks load as four nodes |
| TaskManagerModel.TopNewLogicFirst | task_manager.ts:148 | task 103 comes first in the first suite |
| TaskManagerModel.TopNewLogicSecond | task_manager.ts:149-151 | task 105 comes first after the removal and the add |
| TaskManagerModel.TopRaise | task_manager.ts:171-172 | task 4, raised to 48, comes first |
| TaskManagerModel.NewLogicSetUp | task_manager.ts:140-147 | after the add and the edit the index holds the four expected tasks |
| TaskManagerModel.NewLogicUntilFirstTop | task_manager.ts:140-148 | the first `execTop` returns user 3 |
| TaskManagerModel.ScenarioNewLogic | task_manager.ts:139-152 | the suite's two `execTop` calls return 3 and then 5 |
| TaskManagerModel.ScenarioSingleEdit | task_manager.ts:154-160 | the suite's `execTop` returns 10 |
| TaskManagerModel.ScenarioRaise | task_manager.ts:162-173 | the suite's `execTop` returns 8 |
| TaskManagerModel.ScenarioLowerThenRemove | task_manager.ts:175-190 | the suite's `execTop` returns 2 |
| SnakeGame.Target | snake_game.ts:26-38 | a known direction moves the head one cell (up lowers the row, left lowers the column); any other string leaves it in place |
| SnakeGame.PopTail | snake_game.ts:54-56 | dropping the tail leaves a path on the board, holding every other cell of the body |
| SnakeGame.PushHead | snake_game.ts:60-61 | a free on-board cell next to the head extends the path |
| SnakeGame.Step | snake_game.ts:25-68 | the answer is -1 or the new length minus one; the food index stays or advances by one |
| SnakeGame.StepKeepsBody | snake_game.ts:40-65 | every move keeps the body a non-empty connected path of distinct on-board cells |
| SnakeGame.StepScore | snake_game.ts:67 | the score returned is the number of pieces of food eaten |
| SnakeGame.OffBoardChangesNothing | snake_game.ts:40-45 | a move off the board returns -1 and changes nothing |
| SnakeGame.EatingGrows | snake_game.ts:48-52 | eating puts the food cell in front, keeps the tail and moves to the next piece |
| SnakeGame.GrowsIffEats | snake_game.ts:47-62 | the snake grows by one exactly when it eats; otherwise it does not grow and the food index stays |
| SnakeGame.ChasingTheTail | snake_game.ts:54-61 | moving into the cell the tail is leaving is allowed |
| SnakeGame.BitingEndsGame | snake_game.ts:54-58 | moving into any other body cell returns -1 with the tail already given up |
| SnakeGame.UnknownDirection | snake_game.ts:30-38 | an unknown direction keeps a one-cell snake in place with score 0, and ends the game for a longer one |
| SnakeGame.SnakeBoard.constructor | snake_game.ts:11-23 | the snake sits on (0, 0), which alone is marked, and no food is eaten |
| SnakeGame.SnakeBoard.Unshift | snake_game.ts:60-61 | the new head is in front and marked |
| SnakeGame.SnakeBoard.Pop | snake_game.ts:55-56 | the tail is removed and unmarked |
| SnakeGame.SnakeBoard.Move | snake_game.ts:25-68 | the answer and the new snake and food index are those of `Step`; the grid still marks exactly the body |
| SnakeGame.OpeningMoves | snake_game.ts:79-80 | `R` then `D` return 0 and 0 |
| SnakeGame.FirstFood | snake_game.ts:81-82 | `R` eats the first piece and returns 1; `U` returns 1 |
| SnakeGame.SecondFoodThenWall | snake_game.ts:83-84 | `L` eats the second piece and returns 2; `U` hits the wall and returns -1 |
| SnakeGame.HappyPath | snake_game.ts:73-85 | the suite's six moves return 0, 0, 1, 1, 2, -1 |
| SnakeGame.CurlRight | snake_game.ts:48-52 | on a 2 × 3 board the snake eats to the right |
| SnakeGame.CurlDown | snake_game.ts:48-52 | the snake then eats downwards |
| SnakeGame.CurlLeft | snake_game.ts:48-52 | the snake then eats to the left |
| SnakeGame.CurlChasesTail | snake_game.ts:54-61 | moving up into the cell the tail leaves returns 3 |
| SnakeGame.CurlBites | snake_game.ts:54-58 | moving back down into the body returns -1 |

## Left out

- Pointer links. `prev`/`next` relinking, the head and tail sentinels and node identity are a sequence of keys per list. The model does not capture aliasing between nodes or lists.
- LfuOptimised.LFUCache: `frequencyMap` holds each bucket as a value, not as a shared `LRUNodeCache` object. `LRUNodeCache` is modelled and proved as a class of its own, and the cache applies the same `removeNode`/`insertNode` steps to bucket values.
- LfuOptimised.LFUCache.Put: the eviction and insertion steps are the helper methods `EvictLeastRecent` and `InsertNew`; the source does them inline.
- Logical time of the bucketed cache: the cache keeps no timestamps, so the model adds a ghost last-touch time per key and a ghost clock to relate it to the specification.
- LfuOptimised.LRUNodeCache.Put: nodes are identified by key. The source overwrites a resident key only when given the very node object that is linked; a different object with that key makes `removeNode` dereference its missing `prev`, which the model does not represent. Its requires also excludes a full list of capacity 0, where `removeNode(tail.prev)` is handed the head sentinel and fails on its missing `prev`.
- Capacity zero: `put` on a cache of capacity 0 dereferences a missing node in both caches. Both constructors require capacity at least one.
- Empty buckets of the bucketed cache are never deleted from `frequencyMap` (as in the code).
- `createdAt` of the single-list cache is stored but read nowhere; it is carried along unchanged. The unused `counterMap` is left out.
- A stored value of -1 is indistinguishable from a miss, as in the source.
- LfuOptimised.LRUNodeCache.RemoveNode: requires a non-empty list for `removeNode(null)` and a linked node otherwise; the source dereferences missing nodes in those cases.
- TaskManagerModel.TaskManager.Add: requires a task id not yet present. Re-adding an id overwrites the index but leaves the old node linked, a corrupted state the model does not represent.
- TaskManagerModel.TaskManager.Add: requires `MIN_SAFE_INTEGER <= taskId < MAX_SAFE_INTEGER` and a priority above `MIN_SAFE_INTEGER`, because the sentinels' values must compare strictly against real tasks.
- TaskManagerModel.TaskManager.Edit: requires the new priority above `MIN_SAFE_INTEGER`, for the same reason.
- TaskManagerModel.TaskManager.ExecTop: the check `head.next != null` always holds (the tail sentinel follows the head), so it is omitted.
- TaskManagerModel.TaskManager.GetHighestFrequency: the source scans `priorityMap` in insertion order; the model visits the priorities in an arbitrary order (`Pick`), which the maximum does not depend on.
- task_manager_with_heap.ts is not part of this model.
- SnakeGame.SnakeBoard.Move: requires a next piece of food whenever the head stays on the board. The source reads `food[foodIdx]` unguarded and fails once all food is eaten.
- SnakeGame.SnakeBoard.Move: requires the next piece of food not to lie on the body. The source never checks this; the problem statement it implements (LeetCode 353) guarantees it, and food on the body would desynchronise the grid from the body.
- SnakeGame.SnakeBoard.constructor: requires width and height at least one. A zero height fails on `visitedSnakeBody[0]`. A zero width runs in the source (the mark on (0, 0) is stored past the end of an empty row, and every move then returns -1), but the starting cell is off such a board, which the model's invariant (the body lies on the board) cannot hold; that degenerate board is not modelled.
- Coordinates: food cells and body cells are `Cell(row, col)` pairs, not two-element arrays.
- Game over is not a state. After `-1` from a collision the snake has already lost its tail, as in the source. Further moves are modelled as they would run.
- `console.log` output, the `describe`/`it` harness and `expect` are left out. The suites' expected answers are stated as scenario methods and lemmas.
- JavaScript numbers are modelled as unbounded integers. No value in these exercises is near 2^53, except the sentinels, which are constants.
