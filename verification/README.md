# servex, verified

A Dafny model of the parts of [servex](https://github.com/Tsukikage7/servex) whose behaviour spans many
calls: its collections, its two concurrent queues and its domain and business engines. `dafny verify
dfyconfig.toml` checks everything.

Code that changes things in place is modelled as classes with the same fields and loops. Each method is
proved against a function or a sorted map, sequence, trace or history; what the source promises is then
proved about those. Where goroutines or processes interleave, there is also a step system: `State`,
`Action`, `Enabled`, `Next`, runs, an invariant that every step keeps, and theorems over all runs.

| file | models |
|---|---|
| `TreeMap.dfy` with `NodeArena.dfy`, `RedBlackTree.dfy`, `TreeSearch.dfy`, `SortedEntries.dfy` | the red-black map: pointer code over an arena of nodes, trees with a hole (zippers), searching, and the sorted map it all stands for |
| `PriorityQueue.dfy` | the binary heap |
| `DelayQueue.dfy` | the delay queue as a step system over heap, token and timer |
| `BlockingQueue.dfy`, `RingIndex.dfy` | the bounded queue as a step system over two semaphores and a ring; wrapped and masked indices |
| `Deque.dfy` | the ring-buffer deque, with the amortised cost of resizing |
| `LruCache.dfy`, `Recency.dfy` | the cache as hash map plus linked list, and the recency order it stands for |
| `EventSourcing.dfy` | aggregates, repository and snapshots under several holders |
| `Outbox.dfy` | the relay loops under crashes and several relays |
| `Saga.dfy` | saga runs as traces |
| `Scheduler.dfy` | interleaved invocations of one job |
| `Workflow.dfy` | the workflow engine over registered definitions |
| `Quota.dfy` | the in-memory quota manager |
| `Gateway.dfy` | provider registration and routing |
| `Rbac.dfy` | roles, inheritance and permission checks |
| `Options.dfy`, `Sequences.dfy`, `FiniteSets.dfy` | optional results, reversal, facts about finite sets |

## Where the code does less than it says

Each of these is a theorem: the concrete run that fails, and the exact condition under which the promise
holds.

- Delay queue: `Enqueue` signals only for a new earliest entry, so one of two waiting consumers can be left
  asleep beside a due entry. Nobody is stranded exactly when there is at most one consumer.
- Event sourcing: the repository's factory takes no identity, and a snapshot does not hold it. Versions stay
  gap-free exactly when no load, with or without a snapshot, gives an aggregate that can go on under another
  identity than it was loaded by.
- Outbox: `domain/outbox/store.go:41` and the state diagram in `domain/outbox/outbox.go:10` say that
  `ResetStale` also resets Failed messages; `domain/outbox/gorm/store.go:121-132` resets only Processing ones. A
  failed message below the retry limit can be tried again exactly when the reset covers Failed.
- Saga and scheduler: neither checks the sign of the retry count. With a negative one, steps count as
  completed without having been tried, and invocations end without handler and hooks.
- Quota: the 64-bit sum is compared after it may have wrapped around, and a clock that comes back to a window
  grants its limit again. Both are stated as exact conditions.

## How to read the model

- Pointers are addresses in a map from addresses to records, 0 being nil. What the collector frees stays in
  the map; nothing reaches it.
- The mirror images in `insertFixup` and `deleteFixup` are written once, with a parameter for the side.
- Comparators are total preorders and heap orders strict weak orders, as the documentation asks of them.
- Clocks, generated identifiers, handlers, actions, publishers, lockers and the moments at which processes
  die are parameters that answer in any way.
- A step of a step system is one access to shared state or one call to code outside.

## Model

| member | source | states |
|---|---|---|
| TreeMaps.TreeMap.Put | collections/treemap/tree_map.go:68-103 | binds exactly the one key (as the comparator sees it) in the sorted map and keeps every red-black, order, link and size invariant, whatever tree it starts from |
| TreeMaps.TreeMap.Remove | collections/treemap/tree_map.go:124-135 | takes out exactly the requested key, even when the successor is copied over its node, returns the value that was bound, and keeps every invariant |
| TreeMaps.TreeMap.Perform | collections/treemap/tree_map.go:67-135 | over any run of puts and removes, each lookup finds what the last call for an equal key left there |
| SortedEntries.PerformedLookup | collections/treemap/tree_map.go:67-135 | the same on the sorted map: the entries stay sorted and agree with an independent "last call for this key" definition |
| TreeMaps.TreeMap.Get | collections/treemap/tree_map.go:106-113 | finds the value the sorted map binds to the key, or nothing |
| TreeMaps.TreeMap.FindNode | collections/treemap/tree_map.go:300-313 | finds the node of the key or the place where it belongs; the number of comparisons is at most 2 * log2(size + 1) |
| RedBlackTree.SearchIsLogarithmic | collections/treemap/tree_map.go:39 | the O(log n) promise for any way down from the root |
| RedBlackTree.HeightIsLogarithmic | collections/treemap/tree_map.go:39 | height is at most 2 * log2(size + 1), the logarithm rounded down |
| TreeMaps.TreeMap.constructor | collections/treemap/tree_map.go:56-58 | starts as the empty map, for any comparator that is a total preorder |
| TreeMaps.TreeMap.ReplaceLink | collections/treemap/tree_map.go:368-374 | exactly the one link that led to a node leads to another |
| TreeMaps.TreeMap.RotateLeft | collections/treemap/tree_map.go:361-377 | writes exactly the links of a left rotation: one grandchild moves, three parents change, the outer link or the root follows |
| TreeMaps.TreeMap.RotateRight | collections/treemap/tree_map.go:379-395 | writes exactly the links of a right rotation |
| NodeArena.RotationHolds | collections/treemap/tree_map.go:361-395 | after those writes the arena holds the rotated tree, in place, with all parent links right and everything around untouched |
| TreeMaps.TreeMap.Rotate | collections/treemap/tree_map.go:361-395 | either rotation, at any place in the tree |
| RedBlackTree.RotatedInorder | collections/treemap/tree_map.go:361-395 | a rotation leaves the in-order sequence unchanged |
| TreeMaps.TreeMap.RecolorUncle | collections/treemap/tree_map.go:401-405 | the colours of parent, uncle and grandparent change and nothing else |
| RedBlackTree.RecoloredPending | collections/treemap/tree_map.go:401-405 | with a red uncle, recolouring moves the one possible red-red pair two levels up and keeps contents and black heights |
| TreeMaps.TreeMap.TurnOut | collections/treemap/tree_map.go:407-410 | an inner grandchild is rotated out; the old parent becomes the node to repair |
| RedBlackTree.TurnedOutPending | collections/treemap/tree_map.go:407-410 | that keeps contents and black heights and leaves an outer red-red pair |
| TreeMaps.TreeMap.LiftParent | collections/treemap/tree_map.go:411-413 | the parent comes up in black over the reddened grandparent |
| RedBlackTree.LiftedPending | collections/treemap/tree_map.go:411-413 | that removes the red-red pair and keeps contents and black heights |
| TreeMaps.TreeMap.InsertRound | collections/treemap/tree_map.go:398-432 | one round of the repair loop: invariant and contents kept, and the node is strictly nearer to the root, so the loop ends |
| TreeMaps.TreeMap.InsertFixup | collections/treemap/tree_map.go:397-434 | ends, with a red-black tree of the same contents |
| RedBlackTree.InsertDone | collections/treemap/tree_map.go:433 | when the parent is not red, blackening the root gives a red-black tree |
| TreeMaps.TreeMap.SetValue | collections/treemap/tree_map.go:85-88 | putting a key that is there replaces its value and nothing else |
| TreeMaps.TreeMap.AddNode | collections/treemap/tree_map.go:92-103 | putting a new key adds one entry, at its place in the order |
| TreeMaps.TreeMap.LinkNode | collections/treemap/tree_map.go:92-98 | hangs the new red node on the side the comparison says |
| NodeArena.LinkNew | collections/treemap/tree_map.go:93-98 | linking in a fresh node puts exactly that leaf into the tree |
| TreeMaps.TreeMap.Minimum | collections/treemap/tree_map.go:316-321 | reaches the node of the first entry in order |
| TreeMaps.TreeMap.Maximum | collections/treemap/tree_map.go:324-329 | reaches the node of the last entry in order |
| RedBlackTree.LeftmostIsFirst | collections/treemap/tree_map.go:316-321 | the leftmost node holds the least entry |
| RedBlackTree.RightmostIsLast | collections/treemap/tree_map.go:324-329 | the rightmost node holds the greatest entry |
| TreeMaps.TreeMap.TakeSuccessor | collections/treemap/tree_map.go:441-446 | copies the successor over the node; unlinking the successor then removes the entry the node held before |
| RedBlackTree.SuccessorSettled | collections/treemap/tree_map.go:441-446 | the copying keeps colours and heights, and what is left to delete has no left child |
| TreeMaps.TreeMap.SpliceOut | collections/treemap/tree_map.go:448-467 | the only child, or nothing, takes the place of the node, with its parent link set |
| NodeArena.Splice | collections/treemap/tree_map.go:448-467 | in the arena, those three writes put exactly the child in the hole |
| RedBlackTree.SpliceSettled | collections/treemap/tree_map.go:469-471 | a red node can go without repair; a black one leaves its place exactly one black short |
| TreeMaps.TreeMap.Unlink | collections/treemap/tree_map.go:448-471 | splicing out and repairing gives a red-black tree without that one entry |
| TreeMaps.TreeMap.DeleteNode | collections/treemap/tree_map.go:436-472 | the tree afterwards is red-black and holds all entries but the one deleted |
| TreeMaps.TreeMap.RaiseSibling | collections/treemap/tree_map.go:478-482 | a red sibling is blackened and rotated over the reddened parent |
| RedBlackTree.SiblingRaisedPending | collections/treemap/tree_map.go:478-482 | that keeps contents and the one missing black, and gives a black sibling |
| TreeMaps.TreeMap.ReddenSibling | collections/treemap/tree_map.go:484-490 | the sibling turns red and nothing else changes |
| RedBlackTree.SiblingReddenedPending | collections/treemap/tree_map.go:484-490 | with black nephews, that moves the missing black one level up |
| TreeMaps.TreeMap.RaiseNear | collections/treemap/tree_map.go:492-499 | a red near nephew is blackened and rotated over the reddened sibling |
| RedBlackTree.NearRaisedPending | collections/treemap/tree_map.go:492-499 | that keeps contents and heights and makes the far nephew red |
| TreeMaps.TreeMap.Refill | collections/treemap/tree_map.go:500-505 | the last rotation, with the three colours it sets |
| RedBlackTree.RefilledSettled | collections/treemap/tree_map.go:500-507 | with a red far nephew, that supplies the missing black and so ends the repair |
| TreeMaps.TreeMap.RefillRound | collections/treemap/tree_map.go:491-505 | the near and far nephew cases one after the other |
| TreeMaps.TreeMap.NextSibling | collections/treemap/tree_map.go:477-483 | the sibling the rest of the round works on is the black one |
| TreeMaps.TreeMap.DeleteRound | collections/treemap/tree_map.go:475-543 | what one round makes of the tree, in every case, for either side |
| RedBlackTree.RoundKeeps | collections/treemap/tree_map.go:475-543 | one round keeps the contents and either ends the repair or leaves the missing black strictly nearer to the root |
| TreeMaps.TreeMap.DeleteFixup | collections/treemap/tree_map.go:474-547 | ends, with a red-black tree of the same contents |
| RedBlackTree.DeleteDone | collections/treemap/tree_map.go:544-546 | a red node, or the root, absorbs the missing black |
| TreeMaps.TreeMap.FinishDelete | collections/treemap/tree_map.go:544-546 | the same on the arena |
| SortedEntries.BindSorted | collections/treemap/tree_map.go:68-103 | binding keeps the entries sorted |
| SortedEntries.BindLookup | collections/treemap/tree_map.go:68-103 | binding changes what is found for equal keys and for no other |
| SortedEntries.UnbindSorted | collections/treemap/tree_map.go:124-135 | unbinding keeps the entries sorted and brings in nothing |
| SortedEntries.UnbindLookup | collections/treemap/tree_map.go:124-135 | unbinding removes what is found for equal keys and for no other |
| SortedEntries.LookupIndex | collections/treemap/tree_map.go:159-186 | each listed entry is what a lookup of its key finds |
| TreeSearch.SearchHit | collections/treemap/tree_map.go:300-313 | a search that ends at a node has found the key of the sorted map; changing or removing that node binds or unbinds the key |
| TreeSearch.SearchMiss | collections/treemap/tree_map.go:300-313 | a search that ends at a leaf shows that the key is not bound |
| TreeSearch.InsertHere | collections/treemap/tree_map.go:75-98 | and that leaf is where a node for the key belongs |
| TreeMaps.TreeMap.Clear | collections/treemap/tree_map.go:153-156 | leaves the empty map |
| TreeMaps.TreeMap.First | collections/treemap/tree_map.go:243-249 | the least entry, or nothing |
| TreeMaps.TreeMap.Last | collections/treemap/tree_map.go:252-258 | the greatest entry, or nothing |
| TreeMaps.TreeMap.InorderTraversal | collections/treemap/tree_map.go:332-343 | visits the entries in order, up to and including the first that is not accepted |
| TreeMaps.TreeMap.ReverseInorderTraversal | collections/treemap/tree_map.go:346-357 | visits them in reverse order, up to and including the first that is not accepted |
| TreeSearch.VisitedInorder | collections/treemap/tree_map.go:332-343 | what a traversal visits, part by part: left subtree, node, right subtree, with early stop |
| TreeSearch.VisitedReverse | collections/treemap/tree_map.go:346-357 | the same for the reverse traversal |
| TreeMaps.TreeMap.ListEntries | collections/treemap/tree_map.go:159-186 | lists every entry once, in key order, as many as size says |
| PriorityQueues.SiftUpOrders | collections/priorityqueue/priority_queue.go:142-151 | if only the element at i may precede its parent, moving it up restores the heap |
| PriorityQueues.SiftDownOrders | collections/priorityqueue/priority_queue.go:154-177 | if only the element at i may be preceded by its children, moving it down restores the heap |
| PriorityQueues.SiftUpKeepsElements | collections/priorityqueue/priority_queue.go:142-151 | moving up permutes the elements and never touches what is above the path |
| PriorityQueues.SiftDownKeepsElements | collections/priorityqueue/priority_queue.go:154-177 | moving down permutes the elements |
| PriorityQueues.FirstChildIsLeast | collections/priorityqueue/priority_queue.go:154-177 | of two children the one that is compared with the parent is preceded by neither |
| PriorityQueues.HeapTop | collections/priorityqueue/priority_queue.go:83-89 | in a heap nothing precedes the top, for any strict weak order, ties included |
| PriorityQueues.PushOrders | collections/priorityqueue/priority_queue.go:54-59 | pushing keeps the heap and adds exactly the item |
| PriorityQueues.PopOrders | collections/priorityqueue/priority_queue.go:62-80 | popping keeps the heap and removes exactly one top, which nothing precedes |
| PriorityQueues.PushAllOrders | collections/priorityqueue/priority_queue.go:54-59 | the same for several items at once |
| PriorityQueues.DrainSorts | collections/priorityqueue/priority_queue.go:108-115 | popping everything gives the contents in order, as a permutation |
| PriorityQueues.PriorityQueue.constructor | collections/priorityqueue/priority_queue.go:36-41 | starts empty, for any strict weak order |
| PriorityQueues.PriorityQueue.CloneOf | collections/priorityqueue/priority_queue.go:118-125 | a clone has the same heap |
| PriorityQueues.PriorityQueue.SiftUp | collections/priorityqueue/priority_queue.go:142-151 | the loop computes what the recursive definition does, and ends |
| PriorityQueues.PriorityQueue.SiftDown | collections/priorityqueue/priority_queue.go:154-177 | the loop computes what the recursive definition does, and ends |
| PriorityQueues.PriorityQueue.Push | collections/priorityqueue/priority_queue.go:54-59 | keeps the heap; the contents grow by exactly the items |
| PriorityQueues.PriorityQueue.Pop | collections/priorityqueue/priority_queue.go:62-80 | keeps the heap; returns and removes an element that nothing precedes, or reports empty |
| PriorityQueues.PriorityQueue.Peek | collections/priorityqueue/priority_queue.go:83-89 | an element that nothing precedes, or nothing |
| PriorityQueues.PriorityQueue.DrainToSlice | collections/priorityqueue/priority_queue.go:108-115 | a sorted permutation of the contents; the queue is empty afterwards |
| DelayQueues.DelayQueue.EnqueueLocked | collections/delayqueue/delay_queue.go:53-58 | the section under the mutex: the entry is added to the heap, and a signal is due exactly if it is earlier than every other entry |
| DelayQueues.DelayQueue.Notify | collections/delayqueue/delay_queue.go:124-129 | afterwards a token is there, whether or not one was |
| DelayQueues.DelayQueue.DequeueLocked | collections/delayqueue/delay_queue.go:76-95 | the section under the mutex, told by the entries alone: empty; or an entry that is due and has the least deadline, which is taken out; or exactly the time that is left until the least deadline |
| DelayQueues.LockTakesDueLeast | collections/delayqueue/delay_queue.go:89-94 | what a consumer takes is due at that moment and has the least deadline of all entries |
| DelayQueues.InvStep | collections/delayqueue/delay_queue.go:43-110 | every step of every interleaving keeps the heap, loses or invents no entry, and sets every timer beyond its deadline by exactly the time between looking at the heap and starting the timer |
| DelayQueues.WakeupStep | collections/delayqueue/delay_queue.go:57-62 | with one consumer, no step of any producer leaves it waiting on out-of-date information without a signal on its way |
| DelayQueues.RunKeeps | collections/delayqueue/delay_queue.go:43-129 | both over every run |
| DelayQueues.SignalsIffEarliest | collections/delayqueue/delay_queue.go:53-58 | the comparison of the tops before and after says exactly whether the new entry is earlier than every other |
| DelayQueues.NeverOversleeps | collections/delayqueue/delay_queue.go:84-110 | with one consumer, in every run: unless a signal is on its way, it waits on an empty queue only if there is none, and for a timer beyond the least deadline by no more than the time it took to start it |
| DelayQueues.AlwaysReturns | collections/delayqueue/delay_queue.go:65-112 | a lone consumer is never stuck: in any reachable state with an entry in the heap, time, notifications under way and its own steps make its call return one |
| DelayQueues.ReturnedAfterDelay | collections/delayqueue/delay_queue.go:42-56 | with any number of producers and consumers: whatever is returned was asked for by a call of Enqueue, and its whole delay has passed since that call |
| DelayQueues.TwoConsumersStrand | collections/delayqueue/delay_queue.go:57-59 | with two consumers there is a run that leaves one asleep beside a due entry with nobody to wake it |
| DelayQueues.NobodyStrandedIffOneConsumer | collections/delayqueue/delay_queue.go:42-62 | no run leaves a consumer asleep beside a due entry if and only if there is at most one consumer |
| RingIndex.SlotIsRemainder | collections/blockingqueue/blocking_queue.go:56 | the wrapped index is the remainder modulo the length |
| RingIndex.MaskIsRemainder | collections/deque/deque.go:274-280 | masking with a power of two less one is the remainder, also for negative numbers |
| RingIndex.MaskIsSlot | collections/deque/deque.go:125 | so the masked sum is the slot of the i-th element |
| RingIndex.MaskBefore | collections/deque/deque.go:278-280 | and the masked predecessor of slot 0 is the last slot |
| BlockingQueues.WriteAppends | collections/blockingqueue/blocking_queue.go:54-58 | with room, a write appends to the sequence the ring stands for, and the free slots stay cleared |
| BlockingQueues.TakeRemoves | collections/blockingqueue/blocking_queue.go:71-77 | with an item, a read takes the first of the sequence and clears its slot |
| BlockingQueues.Semaphore.TryAcquire | collections/blockingqueue/blocking_queue.go:44 | takes permits only if there are enough |
| BlockingQueues.Semaphore.Release | collections/blockingqueue/blocking_queue.go:60 | gives permits back, within the size |
| BlockingQueues.ArrayBlockingQueue.constructor | collections/blockingqueue/blocking_queue.go:33-46 | all capacity free to enqueue, nothing to dequeue |
| BlockingQueues.ArrayBlockingQueue.EnqueueLocked | collections/blockingqueue/blocking_queue.go:54-58 | the section under the mutex is the abstract write |
| BlockingQueues.ArrayBlockingQueue.DequeueLocked | collections/blockingqueue/blocking_queue.go:71-77 | the section under the mutex is the abstract read |
| BlockingQueues.StepIsSafe | collections/blockingqueue/blocking_queue.go:49-81 | in every reachable state the permits alone rule out overwriting an item, reading an empty slot and releasing too much |
| BlockingQueues.ConservedStep | collections/blockingqueue/blocking_queue.go:49-81 | every step keeps the two conservation laws between permits, count and threads under way |
| BlockingQueues.InvStep | collections/blockingqueue/blocking_queue.go:49-81 | and keeps what was written equal to what was read followed by what is in the ring |
| BlockingQueues.RunKeeps | collections/blockingqueue/blocking_queue.go:49-81 | all of it over every interleaving; what is read stays a prefix of what is written |
| BlockingQueues.RunsAreFifo | collections/blockingqueue/blocking_queue.go:33-81 | in every interleaving from New, every read gets the oldest item not yet read, every write finds room, and no release goes beyond the capacity |
| BlockingQueues.QuietPermits | collections/blockingqueue/blocking_queue.go:33-81 | when no call is under way the permits are exactly the free and the filled slots |
| Deques.RotateAt | collections/deque/deque.go:193-197 | rotating by any integer n brings element (i + n) mod count to position i |
| Deques.RotateBack | collections/deque/deque.go:193-197 | rotating by n and then by -n changes nothing |
| Deques.ThreeReversals | collections/deque/deque.go:208-215 | reversing the two parts and then the whole is the rotation |
| Deques.ReverseRangeAt | collections/deque/deque.go:219-228 | reversing a range mirrors it and leaves the rest |
| Deques.StepIsPaid | collections/deque/deque.go:282-292 | what a push or pop copies, and what it leaves to be paid, is covered by what was paid before and two more |
| Deques.AmortizedCost | collections/deque/deque.go:10 | so over any run of pushes and pops, from any size, resizing copies at most two elements per operation beyond the potential it starts with |
| Deques.NeverWasteful | collections/deque/deque.go:288-292 | from a new deque on, after any run of pushes and pops, the buffer has 8 slots or fewer than four times as many as elements |
| Deques.NormalizedRemainder | collections/deque/deque.go:201-207 | the truncated remainder, made non-negative, is the mathematical one |
| Deques.Deque.New | collections/deque/deque.go:27-31 | an empty deque with no credit |
| Deques.Deque.NewWithCapacity | collections/deque/deque.go:34-42 | an empty deque whose buffer is the least power of two (at least 8) that fits |
| Deques.Deque.CloneOf | collections/deque/deque.go:168-177 | the same elements in a buffer of its own |
| Deques.Deque.Resize | collections/deque/deque.go:294-307 | the same elements in a buffer of the new size, wrapped or not, counted as copied |
| Deques.Deque.GrowIfNeeded | collections/deque/deque.go:282-286 | doubles the buffer exactly when it is full, then copying all elements and otherwise none; the contents stay |
| Deques.Deque.ShrinkIfNeeded | collections/deque/deque.go:288-292 | halves the buffer exactly when it is above the minimum and at most a quarter full, then copying all elements and otherwise none; the contents stay |
| Deques.Deque.PushFront | collections/deque/deque.go:54-59 | puts the item before the sequence; how much it copies is exactly the cost that the amortised bound counts |
| Deques.Deque.PushBack | collections/deque/deque.go:62-67 | puts the item after the sequence, at exactly that cost |
| Deques.Deque.PopFront | collections/deque/deque.go:70-83 | takes the first element and clears its slot, or reports empty, at exactly that cost |
| Deques.Deque.PopBack | collections/deque/deque.go:86-99 | takes the last element and clears its slot, or reports empty, at exactly that cost |
| Deques.Deque.Perform | collections/deque/deque.go:54-99 | any run of m pushes and pops: the resulting sequence, and at most 2m elements copied beyond the potential of the first buffer |
| Deques.Deque.Run | collections/deque/deque.go:10 | from New, m pushes and pops copy at most 2m elements in all, and leave a buffer of 8 slots or of fewer than four for each element |
| Deques.Deque.At | collections/deque/deque.go:120-126 | the element at the index, or nothing outside the range |
| Deques.Deque.Set | collections/deque/deque.go:129-135 | changes exactly the element at the index, or nothing outside the range |
| Deques.Deque.ToSlice | collections/deque/deque.go:159-165 | the sequence itself |
| Deques.Deque.ReverseInRange | collections/deque/deque.go:219-228 | the in-place loop mirrors exactly that range, across the wrap too |
| Deques.Deque.ReverseAll | collections/deque/deque.go:231-237 | the reversed sequence |
| Deques.Deque.RotateBy | collections/deque/deque.go:197-216 | the rotation by any integer |
| Deques.Deque.ReverseThrice | collections/deque/deque.go:213-215 | the three in-place reversals are the rotation |
| Deques.Deque.Clear | collections/deque/deque.go:148-156 | empty; the buffer keeps its size, and every slot is cleared |
| LruCaches.UnlinkedChain | collections/lrucache/lru_cache.go:241-244 | unlinking an entry leaves a well-formed doubly linked list of the others |
| LruCaches.PushedChain | collections/lrucache/lru_cache.go:233-238 | linking in after the head puts the entry first |
| LruCaches.LRUCache.constructor | collections/lrucache/lru_cache.go:37-54 | empty, with capacity at least 1 |
| LruCaches.LRUCache.RemoveEntry | collections/lrucache/lru_cache.go:241-244 | the list without that entry, both directions |
| LruCaches.LRUCache.AddToFront | collections/lrucache/lru_cache.go:233-238 | the list with the entry first |
| LruCaches.LRUCache.MoveToFront | collections/lrucache/lru_cache.go:247-250 | the entry comes first and the others keep their order |
| LruCaches.LRUCache.RemoveLast | collections/lrucache/lru_cache.go:253-259 | map and list lose exactly the least recent entry; an empty cache stays as it is |
| LruCaches.LRUCache.Get | collections/lrucache/lru_cache.go:58-69 | answers what is cached for the key; a hit comes first, a miss changes nothing, and no key finds anything else than before |
| LruCaches.LRUCache.Put | collections/lrucache/lru_cache.go:74-93 | the key is found with the new value, as the first entry; every other key finds what it did, but that a new key in a full cache pushes out the least recent entry |
| LruCaches.LRUCache.Remove | collections/lrucache/lru_cache.go:152-162 | exactly that key goes, from map and list; every other finds what it did |
| LruCaches.LRUCache.Peek | collections/lrucache/lru_cache.go:131-141 | answers without touching the order |
| LruCaches.LRUCache.Clear | collections/lrucache/lru_cache.go:177-184 | empty map and list |
| LruCaches.LRUCache.Resize | collections/lrucache/lru_cache.go:200-214 | ends, and keeps exactly the first entries, which are the most recent, as many as fit |
| LruCaches.LRUCache.Keys | collections/lrucache/lru_cache.go:187-196 | the keys from most to least recently used |
| LruCaches.LRUCache.GetOrPutStart | collections/lrucache/lru_cache.go:98-105 | a hit answers at once and counts as a use |
| LruCaches.LRUCache.GetOrPutFinish | collections/lrucache/lru_cache.go:110-127 | a key that came in meanwhile wins over the loaded value |
| LruCaches.LRUCache.GetOrPut | collections/lrucache/lru_cache.go:97-128 | whatever other calls run while the loader is outside the lock, the value returned is the one cached for the key on exit, as the most recent entry |
| LruCaches.LRUCache.Run | collections/lrucache/lru_cache.go:57-214 | any one operation, on entries and capacity |
| LruCaches.LRUCache.RunAll | collections/lrucache/lru_cache.go:57-214 | any run on a new cache: what is found for a key is the value of its last put that no removal or clearing follows, the entries are in the order of their last use, and they fit |
| Recency.FindAt | collections/lrucache/lru_cache.go:58-69 | with no key twice, finding and dropping a key are about its one position |
| Recency.FindKey | collections/lrucache/lru_cache.go:58-69 | a key is found exactly if it is cached |
| Recency.GetLaw | collections/lrucache/lru_cache.go:58-69 | what a get does to every key |
| Recency.PutLaw | collections/lrucache/lru_cache.go:74-93 | what a put does to every key |
| Recency.RemoveLaw | collections/lrucache/lru_cache.go:152-162 | what a removal does to every key |
| Recency.OrderedByLastUse | collections/lrucache/lru_cache.go:57-214 | in any run of all operations from the empty cache, the entries are sorted by the time of their last get or put, as the run alone tells it, no key twice, and no more than the capacity |
| Recency.FindsLastPut | collections/lrucache/lru_cache.go:57-214 | and whatever is found for a key is what the run last put there |
| Recency.RecentlyUsedStays | collections/lrucache/lru_cache.go:72-93 | a key is still cached after any run of gets and puts that together with what came before it touches fewer other keys than the capacity |
| Recency.CapacityNewKeysEvict | collections/lrucache/lru_cache.go:72-93 | as many puts of new keys as the capacity evict every key not used since |
| EventSourcing.Aggregate.RaiseEvent | domain/eventsourcing/eventsourcing.go:108-140 | if the applier fails, version, state and uncommitted events are as before; otherwise the version is one more, the state what the applier gave, and exactly that event is appended |
| EventSourcing.Repository.Save | domain/eventsourcing/repository.go:69-107 | stores exactly the batch after what is stored and clears it, unless it is empty or one of its versions is taken: then nothing changes; a snapshot is due every so many versions |
| EventSourcing.Repository.Load | domain/eventsourcing/repository.go:117-172 | the replay from the snapshot, or from the factory when there is none or it cannot be read |
| EventSourcing.ReplayConcat | domain/eventsourcing/repository.go:163-169 | replaying in two parts is replaying at once |
| EventSourcing.StaleIsRejected | domain/eventsourcing/eventsourcing.go:38-40 | a batch hits the unique index exactly when its holder has missed a stored event |
| EventSourcing.SnapshotLoadAgrees | domain/eventsourcing/repository.go:109-172 | a load through a snapshot that agrees with the log gives the state and version of a full replay |
| EventSourcing.PlainLoad | domain/eventsourcing/repository.go:149-171 | without a snapshot: not found for an empty log, otherwise the full replay at the last version, or its failure |
| EventSourcing.RaiseConsistent | domain/eventsourcing/eventsourcing.go:108-140 | raising keeps an aggregate the replay of what it has seen plus its own events |
| EventSourcing.HolderGrows | domain/eventsourcing/eventsourcing.go:108-140 | in any run, whatever others do: a holder that only raises ends with the events its applier took, in order and numbered on, and with nothing of those it refused |
| EventSourcing.SavesWhatWasRaised | domain/eventsourcing/repository.go:69-107 | and a save after that stores exactly those events, or changes nothing |
| EventSourcing.BatchFits | domain/eventsourcing/repository.go:75-77 | a batch that is accepted continues its stream without a gap, and its holder is then up to date with the stream |
| EventSourcing.SaveKeepsInv | domain/eventsourcing/repository.go:75-77 | a save that succeeds keeps the log gap-free and every other holder consistent |
| EventSourcing.LoadConsistent | domain/eventsourcing/repository.go:117-172 | a load, begun with any snapshot read before, gives an aggregate that is consistent with the log, or to which no event applies |
| EventSourcing.InvStep | domain/eventsourcing/repository.go:69-172 | whatever the factory does, every step of every holder keeps versions gap-free and every snapshot equal to the fold of the events up to its version, for all identities that no other aggregate can go on under |
| EventSourcing.RunKeeps | domain/eventsourcing/repository.go:69-172 | the same over every run |
| EventSourcing.LoadsAgreeInEveryRun | domain/eventsourcing/repository.go:109-172 | for any factory and after any run of interleaved loads, raises and saves: the events of an identity that no other aggregate is loaded under are gap-free, and loading them with and without the snapshot gives the same state and version |
| EventSourcing.NextEventGoesElsewhere | domain/eventsourcing/repository.go:117-118 | if a load, plain or through a snapshot of any version, gives another identity, the next event is stored under that identity |
| EventSourcing.GapFreeIffIdentityKept | domain/eventsourcing/repository.go:117-147 | versions stay 1..n for every identity in every run if and only if no load, plain or through a snapshot, gives an aggregate that can go on under another identity |
| EventSourcing.StraySnapshotDisagrees | domain/eventsourcing/repository.go:80-94 | under an identity that another aggregate is loaded under, a snapshot need not agree with the events |
| Outbox.FetchedByOneRelay | domain/outbox/store.go:35-36 | in every run without stale resets, a message that one relay has is in no other batch, and no fetch can hand it out |
| Outbox.Poll | domain/outbox/relay.go:110-139 | each fetched id is once among the sent or once among the failed; it is sent if and only if its row was below the retry limit and the publisher took it; its row ends Sent, or Failed with one retry more; no other row changes |
| Outbox.PollSplits | domain/outbox/relay.go:122-132 | the fetched ids are exactly the sent ids together with the failed ids |
| Outbox.SortedExactly | domain/outbox/relay.go:122-148 | an id is sorted as sent exactly if its row is below the retry limit and the publisher takes it |
| Outbox.SendEach | domain/outbox/relay.go:121-132 | the loop over the fetched messages |
| Outbox.PollMarksEachRow | domain/outbox/relay.go:110-148 | the sorted ids and the marked rows are what the rows before and the answers of the publisher say, for each single row |
| Outbox.InvStep | domain/outbox/relay.go:110-196 | every step of several relays, with crashes, resets and cleanups in between, keeps: Sent or cleaned up only if delivered |
| Outbox.RunKeeps | domain/outbox/relay.go:110-196 | the same over every run |
| Outbox.NothingLost | domain/outbox/relay.go:107-196 | a saved message is in the table until it has been delivered; Sent or gone means delivered |
| Outbox.PollIsRun | domain/outbox/relay.go:110-148 | whatever a poll comes to is a run of the steps of its relay with those answers |
| Outbox.PollLosesNothing | domain/outbox/relay.go:107-148 | so, from any reachable state, a message that the publisher has not taken is still in the table after a poll and not marked Sent |
| Outbox.BatchSplits | domain/outbox/relay.go:122-132 | at the end of each batch, in every run, the ids are split into sent and failed, none in both |
| Outbox.OneFailureGivesUp | domain/outbox/relay.go:122-138 | a run from the empty table in which one refused publication leaves the message failed, undelivered and with no relay |
| Outbox.GivenUpForever | domain/outbox/gorm/store.go:121-132 | with the store as written, a failed message that no relay holds stays failed and is never delivered again |
| Outbox.HopelessForever | domain/outbox/relay.go:142-148 | nor is a message at the retry limit, which is fetched and marked failed again at most |
| Outbox.ArrivesIffNotGivenUp | domain/outbox/gorm/store.go:119-132 | an undelivered message that no relay has can still be delivered if and only if batches are not empty, it is below the retry limit, and it is not Failed or the reset covers Failed rows |
| Outbox.CrashIsRecovered | domain/outbox/gorm/store.go:119-132 | a run from the empty table in which a relay crashes with a message in its batch: the row stays Processing with no relay, and the message can still be delivered |
| Outbox.RetriedIffResetCoversFailed | domain/outbox/store.go:41-42 | a given-up message can still be delivered if and only if the reset covers Failed rows, as the interface says and the store does not, the message is below the retry limit, and batches are not empty |
| Sagas.Execution.ExecuteStepWithRetry | domain/saga/saga.go:250-282 | the attempts of one step, as a trace, and whether it counts as done |
| Sagas.Execution.Compensate | domain/saga/saga.go:285-331 | every completed step is compensated in reverse, going on after failures; each step status says how it went |
| Sagas.Execution.RunSteps | domain/saga/saga.go:137-197 | stops at the first step that does not complete or finds the context done |
| Sagas.Execution.Execute | domain/saga/saga.go:109-247 | trace, saga status and all step statuses of the whole run; nil exactly when completed |
| Sagas.AttemptsShape | domain/saga/saga.go:250-282 | attempts 0, 1, 2, ... of the step, at most retryCount + 1, all failed but perhaps the last |
| Sagas.ForwardOrder | domain/saga/saga.go:137-197 | actions come in step order, none after a success of its step, none beyond the first step that does not complete |
| Sagas.ForwardCounts | domain/saga/saga.go:137-197 | each completed step is tried 1 to retryCount + 1 times, later ones never |
| Sagas.BackwardOrder | domain/saga/saga.go:285-331 | compensations come strictly in reverse order of the steps |
| Sagas.BackwardCounts | domain/saga/saga.go:285-331 | each completed step with a compensation is compensated once, and nothing else |
| Sagas.RunCounts | domain/saga/saga.go:109-247 | both counts for the whole trace |
| Sagas.TraceHas | domain/saga/saga.go:285-331 | which compensations, with which outcome, are in the trace |
| Sagas.TraceSucceeds | domain/saga/saga.go:137-197 | a step has a successful attempt in the trace exactly if it completes |
| Sagas.TriedCounts | domain/saga/saga.go:137-197 | a step has no attempt exactly if it comes after the first that does not complete, or is that one and the context was done before it |
| Sagas.StepStatusMatchesTrace | domain/saga/saga.go:137-331 | every final step status, from Pending to CompensateFailed, is the one that the trace tells by attempts, successes and compensations |
| Sagas.CompensateFailedMatchesTrace | domain/saga/saga.go:228-243 | the saga is CompensateFailed exactly when some compensation in the trace failed |
| Sagas.CompensatedMatchesTrace | domain/saga/saga.go:228-246 | the saga is Compensated exactly when some step did not complete and no compensation in the trace failed |
| Sagas.StatusMatchesTrace | domain/saga/saga.go:137-246 | the final status of the saga is the one that its trace tells |
| Sagas.TraceActs | domain/saga/saga.go:137-282 | which attempts are in the trace: those of steps that the saga gets to with the context not done, within the retry count, after failures and waits that were not cut short |
| Sagas.CompletedIffAllSteps | domain/saga/saga.go:199-213 | the saga is Completed exactly when every step is |
| Sagas.TriedIffRetriesNotNegative | domain/saga/options.go:66-74 | every step that counts as completed has been tried with success, in every run, if and only if the retry count is not negative |
| Schedulers.SaneStep | scheduler/cron.go:257-374 | every step keeps what one invocation may have done at the point where it stands: attempts, successes, failures, hooks, skips |
| Schedulers.ClaimStep | scheduler/job.go:182-189 | every step keeps: state Running exactly while one invocation stands between tryStart and its finish, never two |
| Schedulers.RunCountStep | scheduler/job.go:108-135 | every step keeps: RunCount = SuccessCount + FailCount + attempts in flight |
| Schedulers.SkipCountStep | scheduler/job.go:138-142 | every step keeps: SkipCount is the number of skipped invocations |
| Schedulers.InvStep | scheduler/cron.go:257-374 | all four for every step |
| Schedulers.RunKeeps | scheduler/cron.go:257-374 | all four over every interleaving of ticks and triggers |
| Schedulers.BusyExactlyWhileTaken | scheduler/cron.go:266-275 | an invocation is skipped as busy exactly while another one has the job |
| Schedulers.QuietIsIdle | scheduler/job.go:182-189 | when all invocations are done the job is idle again and every start has ended as success or failure |
| Schedulers.LockDecides | scheduler/cron.go:277-316 | in every run, by the answers of the lock and the before-hooks: attempts only with the lock; an invocation that is over was let through, and then not skipped, or was skipped once without calling any hook or handler |
| Schedulers.NoOverlapIffSingleton | scheduler/job.go:53-55 | attempts of the job never overlap in this process, in any run, if and only if it is a singleton or never runs at all |
| Schedulers.TwoOverlap | scheduler/cron.go:265-275 | without singleton, two invocations can be in the handler at once |
| Schedulers.HooksCompleteIffRetriesNotNegative | scheduler/hooks.go:50-51 | every finished invocation past the before-hooks has called the after-hooks exactly once, in every run, if and only if the retry count is not negative |
| Schedulers.PassesWithoutTrying | scheduler/cron.go:322-325 | with a negative retry count an invocation passes the before-hooks and ends without calling the handler or any hook |
| Schedulers.CronJob.ValidInv | scheduler/cron.go:257-374 | so the fields of a job satisfy the invariants at every moment |
| Schedulers.CronJob.TryStart | scheduler/job.go:182-184 | the compare-and-swap, as a step of the run |
| Schedulers.CronJob.Finish | scheduler/job.go:187-189 | the reset to idle, as a step of the run |
| Schedulers.CronJob.RecordSkip | scheduler/job.go:138-142 | one skip more |
| Schedulers.CronJob.RecordStart | scheduler/job.go:108-113 | one run more |
| Schedulers.CronJob.RecordResult | scheduler/job.go:116-135 | one success or one failure more |
| Schedulers.CronJob.Others | scheduler/cron.go:257-374 | any steps of other invocations leave this one where it stands |
| Schedulers.CronJob.ExecuteJob | scheduler/cron.go:257-319 | whatever other invocations do in between, the invocation ends, each of its moves is a step of the run, and it is either skipped once, as busy or without the lock, or makes exactly the attempts up to the first success, if the before-hooks let it |
| Schedulers.CronJob.RunStarted | scheduler/cron.go:278-319 | after tryStart, finish comes last on every way out; a distributed job without the lock is skipped once and makes no attempt |
| Schedulers.CronJob.RunWithRetry | scheduler/cron.go:322-374 | attempts up to the first success and at most RetryCount + 1 |
| Schedulers.CronJob.Attempt | scheduler/cron.go:325-372 | one round of the retry loop: whether another follows, and what has been counted |
| Schedulers.CronJob.CallHandler | scheduler/cron.go:332-358 | the start and the result are counted, and the answer decides what comes next |
| Schedulers.CronJob.CallHooks | scheduler/cron.go:344-359 | error-hooks only after the last failure, then after-hooks, each once |
| Workflows.RoundKeeps | bizx/workflow/workflow.go:250-340 | one visit of a node, of whatever kind, goes along an edge of the definition or stops in a status that fits the node |
| Workflows.AdvancedKeeps | bizx/workflow/workflow.go:243-341 | the same for the whole loop, with checkpoints and a crash at any round |
| Workflows.ChangedKeeps | bizx/workflow/workflow.go:223-453 | every call keeps: the instance has walked along its definition from the start, and every approval node behind it was approved once per visit |
| Workflows.InvStep | bizx/workflow/workflow.go:195-453 | the same for the store with all instances |
| Workflows.RunKeeps | bizx/workflow/workflow.go:195-453 | the same over every run of calls |
| Workflows.GateOpensOnlyByApproval | bizx/workflow/workflow.go:286-289 | an instance leaves an approval node if and only if an approval finds it waiting there; executing it again only makes it wait again |
| Workflows.FinalStep | bizx/workflow/workflow.go:229-231 | completed and cancelled instances do not change, failed ones can only be cancelled in place |
| Workflows.FinalForGood | bizx/workflow/workflow.go:440-453 | the same over every run |
| Workflows.RejectedForGood | bizx/workflow/workflow.go:421-437 | a rejected instance stays where it was rejected over every run, failed or at most cancelled |
| Workflows.ExecuteLaw | bizx/workflow/workflow.go:224-342 | the whole of Execute: every node it left behind had answered ok in its own round and led to the next one; the node where it stopped and the answer there tell result and status: HandlerFailed and Failed exactly if that answer was not ok, Done and Completed or WaitingApproval exactly at an end; if the process dies, stored is the last checkpoint |
| Workflows.AdvancedVisits | bizx/workflow/workflow.go:243-249 | a call visits at most maxSteps further nodes; if it reports too many, it has visited that many nodes of the definition |
| Workflows.LimitStopsOnlyCycles | bizx/workflow/workflow.go:134-141 | with a limit above the number of nodes, a call exceeds it only after coming back to a node, and then the instance is failed |
| Workflows.Engine.StartWorkflow | bizx/workflow/workflow.go:195-221 | a new pending instance at the start node, and no other change, or no definition |
| Workflows.Engine.Execute | bizx/workflow/workflow.go:224-242 | refuses final instances and unknown ones without any change; otherwise trail, status and result are what the nodes and their answers say, as in ExecuteLaw, and no other instance changes |
| Workflows.Engine.Advance | bizx/workflow/workflow.go:243-342 | the loop ends; stored is the last checkpoint if the process dies, the outcome otherwise |
| Workflows.Engine.Visit | bizx/workflow/workflow.go:250-340 | goes on only from a node that has answered ok, to its first successor or to where its condition says; otherwise ends with the result and the status that the node and its answer call for |
| Workflows.Engine.Approve | bizx/workflow/workflow.go:385-418 | only if waiting: counts the approval and goes on to the first successor, Running, or completes; otherwise nothing changes |
| Workflows.Engine.Reject | bizx/workflow/workflow.go:421-437 | only if waiting: Failed in place; otherwise nothing changes |
| Workflows.Engine.Cancel | bizx/workflow/workflow.go:440-453 | Cancelled in place, unless completed or cancelled, when nothing changes |
| Quotas.QuotaManager.GetOrCreate | bizx/ratelimit/ratelimit.go:122-130 | the counter of the window the clock is in, a new one at zero if it was another window |
| Quotas.QuotaManager.BuildUsage | bizx/ratelimit/ratelimit.go:132-143 | the limit, what is used, and what is left of the limit, which is never negative |
| Quotas.QuotaManager.Consume | bizx/ratelimit/ratelimit.go:152-163 | refused exactly when the sum overruns the limit, unless it overflows; a refusal changes no usage; used, limit and remaining are those of the counter afterwards |
| Quotas.QuotaManager.Check | bizx/ratelimit/ratelimit.go:145-150 | reports used, limit and remaining of the current window without consuming |
| Quotas.QuotaManager.Reset | bizx/ratelimit/ratelimit.go:165-170 | forgets the key and no other |
| Quotas.LimitKept | bizx/ratelimit/ratelimit.go:152-163 | without overflow, and with a clock that does not come back to a window, the counter is what was granted in the window and never above the limit |
| Quotas.LimitKeptIffNoReturn | bizx/ratelimit/ratelimit.go:87-90 | a positive limit is kept for every pattern of requests if and only if the clock never comes back to a window it has left |
| Quotas.MonotoneNeverReturns | bizx/ratelimit/ratelimit.go:87-90 | a clock that never goes back is such a clock |
| Quotas.SmallNeverOverflow | bizx/ratelimit/ratelimit.go:157-161 | requests that fit into 64 bits together with the limit never overflow the counter |
| Quotas.OverflowGrants | bizx/ratelimit/ratelimit.go:157-161 | a full counter wraps around and grants the request that takes it beyond 64 bits |
| Quotas.LimitKeptIffRequestsFit | bizx/ratelimit/ratelimit.go:152-163 | the limit is kept for all requests up to a bound if and only if bound plus limit fits into 64 bits |
| Quotas.TwoWindows | bizx/ratelimit/ratelimit.go:87-95 | an interval no longer than the window meets at most two aligned windows |
| Quotas.SlidingLimit | bizx/ratelimit/ratelimit.go:152-163 | any interval no longer than the window is granted at most twice the limit |
| Quotas.SlidingLimitIsReached | bizx/ratelimit/ratelimit.go:152-163 | and twice the limit can be had within one tick, so the bound is exact |
| Gateways.LastListing | llm/gateway/gateway.go:124-125 | the last registration that lists the model, if any |
| Gateways.RouteAfter | llm/gateway/gateway.go:126-162 | what one more registration does to the routing of every model |
| Gateways.ReplaceKeeps | llm/gateway/gateway.go:140-148 | replacing the entry of a name keeps one entry a name, each for the last registration of its name |
| Gateways.AppendKeeps | llm/gateway/gateway.go:158 | so does appending an entry for a new name |
| Gateways.RoutedEntry | llm/gateway/gateway.go:144-149 | the entries removed from the index are exactly those of the replaced provider |
| Gateways.Gateway.constructor | llm/gateway/gateway.go:105-122 | one entry for each given provider, with its chat model and no model names; none is indexed |
| Gateways.Gateway.InitialEntries | llm/gateway/gateway.go:113-120 | distinct names, whatever the iteration order |
| Gateways.Gateway.RegisterProvider | llm/gateway/gateway.go:126-162 | providers and index stay what the history of registrations says |
| Gateways.Gateway.RemoveModels | llm/gateway/gateway.go:144-149 | removes the models of the old entry unless another entry has them by now |
| Gateways.Gateway.AddModels | llm/gateway/gateway.go:150-153 | points each listed model to the new entry |
| Gateways.Gateway.IndexIsLive | llm/gateway/gateway.go:126-162 | every index entry leads to a live provider that lists the model |
| Gateways.Gateway.RouteModel | llm/gateway/gateway.go:166-179 | the model of the last registration that lists it, if that provider has not been registered again; otherwise not found, or no providers |
| Rbac.ParsePrint | auth/rbac/rbac.go:80-94 | parsing gives back what was printed if and only if the resource has no colon |
| Rbac.PrintParse | auth/rbac/rbac.go:80-94 | printing gives back what was parsed; without a colon it means every action |
| Rbac.MatchesIffGranting | auth/rbac/rbac.go:271-281 | the at most six permission strings that allow an action on a resource, wildcards included |
| Rbac.ChainRepeats | auth/rbac/rbac.go:223-225 | once the chain of parents comes back to a role it brings nothing new |
| Rbac.CollectedFrom | auth/rbac/rbac.go:222-243 | what has been visited and what is still collected make up what is inherited, at every point of the chain |
| Rbac.CollectsWhatIsInherited | auth/rbac/rbac.go:218-243 | on any parent graph, cycles included, the collected permissions are exactly those of the first ten roles on the chain |
| Rbac.AllowedIffPermissionMatches | auth/rbac/rbac.go:245-316 | for users without the super admin role, the check agrees with matching over all permissions of the user |
| Rbac.InheritsIffReached | auth/rbac/rbac.go:218-243 | a permission is inherited exactly if a line of at most ten existing roles, each the parent of the one before, leads to a role that holds it |
| Rbac.AllowedIffEntitled | auth/rbac/rbac.go:245-281 | allowed is exactly who has the existing super admin role, or a role from which such a line leads to a matching permission |
| Rbac.LessIsAllowedWithLess | auth/rbac/rbac.go:178-197 | deleting or revoking a role never allows anything new |
| Rbac.Manager.CreateRole | auth/rbac/rbac.go:159-172 | adds the role under its name unless the name is taken |
| Rbac.Manager.DeleteRole | auth/rbac/store.go:60-68 | removes exactly that role, or reports that there is none |
| Rbac.Manager.AssignRole | auth/rbac/rbac.go:186-193 | only existing roles are assigned, to that user alone |
| Rbac.Manager.RevokeRole | auth/rbac/store.go:90-97 | takes that role from that user and changes nothing else |
| Rbac.Manager.GetUserRoles | auth/rbac/rbac.go:199-216 | exactly the assigned roles that exist |
| Rbac.Manager.CollectPermissions | auth/rbac/rbac.go:222-243 | the recursion over the shared set of visited names ends and never visits more than ten |
| Rbac.Manager.HasPermission | auth/rbac/rbac.go:245-268 | true if and only if the user has the existing super admin role, or a role from which a line of at most ten parents leads to a matching permission |
| Rbac.Manager.RolePermits | auth/rbac/rbac.go:251-264 | the same for one role |
| Rbac.Manager.GetUserPermissions | auth/rbac/rbac.go:296-316 | exactly the permissions that a line of at most ten parents reaches from some assigned existing role |

## Left out

- Redis, GORM, etcd, Consul, Nacos, HTTP and gRPC middleware, generators, JWT and parsing of user agents: I/O, or libraries whose code is not part of this repository.
- Loggers, hook side effects, payload contents and context values.
- Iterators, `ForEach`, `Range`, `PeekFront`, `PeekBack`, `ToMap`, `Clone` of the tree map, `GetOrDefault`, `ContainsKey`, `Len` and `Contains`: thin wrappers around what is modelled.
- The order in which ties leave the heap and the order of iteration over Go maps: unspecified by the source.
- 64-bit overflow of sizes, versions and statistics; only the quota counter is modelled with wrap-around.
- Delay queue: fairness between ready channels in `select`, and a timer that fires late for ever.
- Blocking queue: the order in which the weighted semaphore serves its waiters; a cancelled `Acquire` takes nothing and so is no step.
- Event sourcing: the snapshot codec is taken to give back the business state, and the applier to change nothing when it fails; aggregate types and a failing event store are left out.
- Outbox: the order of rows in a batch, sizes of stale timeouts and clean-up ages, and stopping a relay; any stale reset and any clean-up of sent rows may happen at any time. That Sent stays Sent, or that delivery happens once, is not claimed: it is not so.
- Saga: storing the state after each phase, and the wrapped error texts.
- Scheduler: cron expressions, starting and stopping the scheduler, time-outs, and exclusion across processes, which rests on a lock with a time to live.
- Workflow: handlers are taken to touch only the instance's data, which is left out; a parallel node runs its own handler, as the code does; replacing a definition while instances of it are under way is left out, as is concurrent use of one instance, whose calls are taken to be atomic.
- Workflow: `MemoryStore` copies are values here, so that nothing outside can change a stored instance.
- Quota: the time at which a window resets, which reads the clock a second time, and the Redis implementation.
- Gateway: weights, priorities, listing of models, HTTP handlers, billing and moderation; the caller's slice of model names is taken not to change after registration.
- Access control: the optional cache, which the checks do not use, role identifiers other than names, and changing a role after it has been stored.
- Hash sets, multimaps, linked maps, tree sets, state machines, sequences, feature flags, leaderboards and A/B tests: simpler relatives of what is modelled.
