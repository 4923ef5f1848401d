# Ginkgo OS, verified in Dafny

A Dafny 4.11 model of the parts of the Ginkgo kernel and its user libraries whose correctness is a
matter of invariants over whole runs: the red-black tree and the timer queue on it, the buddy
allocator and the heap above it, the virtqueue driver, the cache of file system nodes, the Sv39 page
tables, the scheduler with its mutexes, semaphores and futexes, and five algorithms (Reed-Solomon
coding, `fmod` on bit patterns, fixed-point clock conversion, the stable list sort and the
byte-bounded cache).

`dafny verify dfyconfig.toml` checks the whole project.

## How it is built

Code that changes memory step by step is a class whose fields are that memory and whose methods are
the source's functions, loops included.  Each such method is proved against a description of the
abstract state that does not mention how it is stored:

- The tree (`RbShape`, `RbOrder`, `RbSteps`, `RbBalance`, `RbTree`) is a heap of nodes with child, parent and
  colour fields.  A ghost tree and a ghost context (the path from the root to the place where a loop
  is working) give its meaning.  The two mirrored halves of each routine are written once, over a side.
- The timer queue (`Timer`) is shown to be a list kept in the order of expiry and insertion.  A run of
  its interrupt handler is compared with a plain replay of the callbacks on that list.
- The buddy allocator (`Dyadic`, `BuddyTiles`, `Buddy`) is a tiling of the page frames by aligned
  blocks.  The heap above it (`SizeClasses`, `Heap`) calls that allocator and cuts the pages it gets
  into blocks of one size class.
- The virtqueue (`Virtqueue`) carries a ghost history of the run, with a device that may take and
  return chains at any moment and in any order, also in the middle of the interrupt handler.
- The node cache (`VfsPaths`, `Vfs`) is tied to the list of acquisitions that are outstanding.
- The page tables (`PageTable`) are a tree of three levels.  `Lookup` reads them as the kernel does,
  along the valid bits; `Translate` reads them as the hardware does, with superpages and the entries
  it rejects.
- The scheduler (`Sched`) is a machine of steps; a step runs from where a thread gets the hart to
  where it gives it away.
- `GaloisField`, `GaloisRoots` and `ReedSolomon`, `Fmod`, `Clock`, `StableSort` and `Lsort`, and `LruLinks` and `Lru`
  compare each algorithm with a definition of what it should compute.

`Lists` and `Wrappers` hold what several of these share.

Addresses are natural numbers and zero is the null pointer.  Fixed-width arithmetic is written out
wherever a wrap or a lost bit could matter.

## What the code does not do

Some natural claims are false of the code.  The model keeps the code as it is and says exactly when
the claim holds:

- `ktime_add_safe` gives the saturated sum if and only if neither time is negative
  (`Timer.AddSafeSaturates`, with two inputs for which it fails in `Timer.AddSafeFails`).
- The timer handler need not end: a timer that is always restarted for the time of the interrupt fires
  for ever (`Timer.NeverEnds`).  With callbacks that see to their own timers it ends if and only if
  they leave off catching up (`Timer.HandlerEnds`); with callbacks that start and cancel any timers it
  ends if from some round on none is started that is due at once (`Timer.LeavesOff`).
- `timer_forward` on an enqueued timer keeps the queue in order if and only if the timer still fits
  between its neighbours (`Timer.ForwardFits`, and `Timer.ForwardCanFail` for an input).
- `timer_init` of a timer keeps the queue intact if and only if the timer is not in it
  (`Timer.TimerBase.Init`).
- A new buddy system is free of mergeable pairs exactly when it has fewer than 2^21 frames
  (`Buddy.CanonCoalesced`).
- `vfs_node_acquire` gives all references back after a failure if and only if the failure is not that
  a node below the first component could not be created; then it gives back only the node reached, and
  the nodes above it, from the root of the mount on, stay held (`Vfs.NodeCache.Acquire`,
  `Vfs.WalksThatFail`).  A component that
  turns out not to be a directory is reported as success, without a node.
- A page that was mapped translates if and only if its permissions make a legal leaf; `map_range` takes
  any.  With a size of zero it maps all pages up to the highest address
  (`PageTable.PageTables.MapRange`).
- A virtqueue send that fails midway, as in `Virtqueue.FailsMidway`, loses the slots it has written.  At most 127 more requests can be
  sent in any run that follows (`Virtqueue.FailureBounds`), and once the next slot is a lost one every
  send fails (`Virtqueue.Jammed`).
- A key set in the cache is found again if and only if it is shorter than 256 bytes
  (`Lru.SetThenSearch`, and `Lru.LongKeyLost` for an input), because its length is kept in one byte.
- The shift search of the clock factors finds no shift exactly when even a shift of one leaves no
  room; it then pairs a shift of zero with the factor for one (`Clock.Search`, `Clock.SearchCanFail`).

## Model

| member | source | states |
|---|---|---|
| RbTree.RbRoot.Insert | lib/rbtree.c:369-372 | linking a new node at any empty place and rebalancing gives a valid red-black tree (black root, no red child of a red node, equal black heights, correct parent links) whose in-order sequence is the old one with the node at that place; no node outside the tree is touched; the climb takes at most log2(n + 1) rounds |
| RbTree.RbRoot.InsertColor | lib/rbtree.c:28-168 | from any tree with one red node that may clash with its parent, the climbing loop ends with all rules restored and the in-order sequence unchanged |
| RbTree.RbRoot.InsertFlip | lib/rbtree.c:62-85 | case 1: the colours are exchanged and the clash moves two levels up with the same order |
| RbTree.RbRoot.InsertRotate | lib/rbtree.c:87-165 | cases 2 and 3, on either side: the rotations end the repair and keep the order |
| RbTree.RbRoot.Erase | lib/rbtree.c:374-381 | erasing any node leaves a valid red-black tree whose in-order sequence is the old one without exactly that node; no node outside the tree is touched; the repair takes at most 2 log2(n + 1) rounds |
| RbTree.RbRoot.EraseNode | include/rbtree_augmented.h:97-203 | the structural part: the node is out of the order, and either all rules hold or exactly one path is short of one black node at the place that is returned |
| RbTree.RbRoot.EraseInner | include/rbtree_augmented.h:134-199 | cases 2 and 3: the successor takes the place of a node with two children, found by a loop of any length |
| RbTree.RbRoot.EraseOnly | include/rbtree_augmented.h:110-133 | case 1: a node with at most one child is unlinked |
| RbTree.RbRoot.EraseColor | lib/rbtree.c:170-351 | from any tree in which one path is short of a black node, the loop ends, restores all rules and keeps the order |
| RbTree.RbRoot.EraseFlip | lib/rbtree.c:206-236 | case 2: the sibling is recoloured, and the repair is done or goes on one level up with the same order |
| RbTree.RbRoot.EraseRotate | lib/rbtree.c:237-348 | cases 3 and 4, on either side: the rotations end the repair |
| RbTree.RbRoot.Rotate | lib/rbtree.c:18-26 | relinking three subtrees, their parents and the link from above is a rotation of the tree |
| RbTree.RbRoot.ChangeChild | include/rbtree_augmented.h:82-92 | exactly the link that led to the old node leads to the new one |
| RbTree.RbRoot.First | lib/rbtree.c:406-428 | the first or last node of the in-order sequence, null for the empty tree, in at most 2 log2(n + 1) rounds |
| RbTree.RbRoot.Neighbour | lib/rbtree.c:430-468 | the in-order successor or predecessor, found by descending or by climbing through parents in at most 2 log2(n + 1) rounds; null at the end and for a cleared node |
| RbTree.RbRoot.Clear | include/rbtree.h:26 | exactly the cell of the node changes and the node is known as cleared; the tree stays as it is |
| RbShape.FillInOrder | lib/rbtree.c:28-168 | the order of a tree is the order before a place, below it and after it |
| RbSteps.RotationOrder | lib/rbtree.c:87-130 | a rotation does not change the in-order sequence, whatever the colours |
| RbSteps.FlippedRules | lib/rbtree.c:206-236 | a colour flip moves the missing black node one level up |
| RbSteps.SplicedOrder | include/rbtree_augmented.h:152-187 | putting the successor in place of a node removes exactly that node from the order |
| RbSteps.TreeInside | lib/rbtree.c:28-351 | the nodes of a tree link only to each other, so that whatever follows links from them stays inside |
| RbBalance.Balanced | lib/rbtree.c:28-351 | a tree of n nodes is at most 2 log2(n + 1) high, and no more nodes than that are above any place |
| Timer.TimerBase.AddTimer | core/timer.c:23-49 | an inactive timer goes behind all timers that do not expire later; the result says whether it is first; `next` stays the first of the order |
| Timer.TimerBase.DelTimer | core/timer.c:51-69 | an enqueued timer leaves the queue, which is otherwise unchanged, and `next` stays the first |
| Timer.TimerBase.Start | core/timer.c:84-104 | the timer is moved to its new place and the device is asked for the first expiry |
| Timer.TimerBase.Cancel | core/timer.c:127-143 | the timer leaves the queue and the device is asked for the first expiry that is left |
| Timer.TimerBase.Forward | core/timer.c:112-119 | only the expiry changes; everything that holds of the queue still holds if and only if the timer is not in it or still fits between its neighbours |
| Timer.TimerBase.EventHandler | core/timer.c:145-169 | whatever timers the callbacks start, cancel and restart, as long as replaying them on the list ends: the queue, the expiries and the timers fired are those of the replay, each round firing the first of the queue; none left is due; the device is asked for the first.  With callbacks that see to their own timers, as many fire as were due and were restarted due at once; if no restart is due at once, exactly the timers that were due fire, in order of expiry and then of insertion, and the others are untouched |
| Timer.TimerBase.Make | core/timer.c:161 | the calls that a callback makes for any timers, its own included, act on the queue as on the list |
| Timer.HandlerEnds | core/timer.c:154-165 | with callbacks that see to their own timers, the loop ends if and only if, after some number of rounds, the timers due at first and the restarts due at once are no more than the rounds |
| Timer.DueCount | core/timer.c:154-165 | until the loop ends, the timers due after n rounds are those due at first plus the restarts due at once less n |
| Timer.CallsEnd | core/timer.c:154-165 | whatever timers the callbacks start and cancel, the loop has ended after n rounds if the timers due at first and those started due at once are no more than n |
| Timer.DueStartsCount | core/timer.c:154-165 | each call that starts a timer due at once counts once, and no other |
| Timer.LeavesOff | core/timer.c:154-165 | if only the first callbacks start timers that are due at once, the loop ends, within as many rounds as there are timers due at first and timers so started |
| Timer.NeverEnds | core/timer.c:154-165 | an input for which no round is the last |
| Timer.TimerBase.FireOne | core/timer.c:159-164 | one round: the first timer is taken, its callback runs with the calls it makes, and it goes back to its new place if it asks to |
| Timer.EnqueueDue | core/timer.c:145-169 | a timer put back past the time of the interrupt does not become due |
| Timer.RoundProgress | core/timer.c:154-165 | a round leaves one timer less due, or as many if its callback restarts with an expiry that is not past the time |
| Timer.AddSafeSaturates | include/core/time.h:62-69 | the sum is the saturated one if and only if neither time is negative |
| Timer.AddSafeNegative | include/core/time.h:62-69 | with a negative time the sum is the end of time, unless both are negative and the sum wraps |
| Timer.AddSafeFails | include/core/time.h:62-69 | a sum that fits and is replaced by the end of time, and a sum of two negative times that wraps |
| Timer.ForwardFits | core/timer.c:112-119 | with a new expiry the order still holds if and only if the timer fits between its neighbours |
| Timer.ForwardCanFail | core/timer.c:112-119 | two timers of which the first is forwarded past the second: in order before and not after |
| Timer.TimerBase.Init | core/timer.c:71-82 | the timer is inactive with a cleared node, and the rest of the queue is as it was; everything that holds of the queue still holds if and only if the timer was not in it |
| Timer.ClearedWhen | core/timer.c:23-82 | in every state the node of a timer is cleared if and only if the timer is not in the queue |
| Buddy.BuddySystem.constructor | mm/buddy.c:102-155 | all frames are tiled by free blocks, the largest first, and lists, counts and bitmap agree; no two blocks can be merged if and only if there are fewer than 2^21 frames |
| Buddy.BuddySystem.LocateFree | mm/buddy.c:157-176 | a smallest free block that is large enough, none only if there is none |
| Buddy.BuddySystem.Split | mm/buddy.c:178-190 | the block becomes smaller and the halves given up are free; tiling, lists, counts and bitmap agree again |
| Buddy.BuddySystem.Merge | mm/buddy.c:192-225 | the block grows over its free buddies until its buddy is not free |
| Buddy.BuddySystem.AllocPage | mm/buddy.c:241-261 | fails exactly when no free block is large enough; otherwise one block of the smallest sufficient order is added to those in use, and nothing else changes |
| Buddy.BuddySystem.FreePage | mm/buddy.c:263-279 | exactly the block given is no longer in use; freeing a free block changes nothing |
| Buddy.BuddySystem.AddPage | mm/buddy.c:8-19 | list, count and bitmap bit of the order agree after a block is added |
| Buddy.BuddySystem.DelPage | mm/buddy.c:21-33 | list, count and bitmap bit of the order agree after a block is removed |
| Buddy.RequestOrderFits | mm/buddy.c:251 | the order asked for is the smallest whose blocks hold the pages |
| Buddy.LiveDisjoint | mm/buddy.c:178-279 | in every state the blocks in use are aligned, lie within the frames and share no frame |
| Buddy.EmptyIsInitial | mm/buddy.c:138-152 | whenever nothing is in use the free lists hold exactly the blocks of a new system |
| Buddy.CanonCoalesced | mm/buddy.c:138-152 | a new system has no two free buddies if and only if it has fewer than 2^21 frames |
| BuddyTiles.AllFreeIsCanon | mm/buddy.c:192-225 | a tiling by free blocks without mergeable pairs is the one that filling from the front gives |
| BuddyTiles.SplitTile | mm/buddy.c:182-188 | halving a block keeps the tiling |
| BuddyTiles.JoinTile | mm/buddy.c:211-220 | joining two buddies keeps the tiling |
| Dyadic.Halves | mm/buddy.c:201-218 | flipping one bit of an aligned block's number gives the other half of the block that contains both |
| SizeClasses.AdjustLocates | mm/mem_pool.c:149-160 | every request up to the largest is served by an existing pool whose blocks are large enough, with less than one step wasted |
| SizeClasses.BestFit | mm/mem_pool.c:149-177 | no pool with smaller blocks could serve the request |
| SizeClasses.ClassTable | mm/mem_pool.c:60-78 | there is a pool of 16 bytes, of 32 and of 48, and from 64 bytes on four to each doubling; all sizes are multiples of 16 |
| SizeClasses.LocateIs | mm/mem_pool.c:87-92 | the two indices computed from a size are those of the pool created with that size |
| Heap.Allocator.constructor | mm/mem_pool.c:52-81 | there is a pool for exactly the size classes, each with an empty list, and nothing is given out |
| Heap.Allocator.AllocPoolPage | mm/mem_pool.c:13-39 | fails exactly when the page allocator has no page; otherwise the blocks of a new page, and no others, come onto the list of the pool, and `free_count` is their number |
| Heap.Allocator.PoolAlloc | mm/mem_pool.c:162-177 | a block that was not in use and is large enough; fails exactly for a size of zero or above the largest, or when the list is empty and no page is left |
| Heap.Allocator.PoolFree | mm/mem_pool.c:112-121 | the block is back on the list of its own pool, found through the header of its page |
| Heap.Allocator.Malloc | mm/kalloc.c:27-32 | small requests get a block, large ones whole pages that cover them; fails exactly for zero, or when the list is empty and the page allocator has no block that is large enough; what the page allocator has in use is always the pages of the pools and the runs given out |
| Heap.Allocator.Free | mm/kalloc.c:46-52 | the alignment of a pointer tells the allocator that it came from, and only that allocator's state changes: a block leaves the pages in use as they are, a run goes back to the page allocator |
| Heap.LiveApart | mm/mem_pool.c:30-36 | in every state two blocks in use never overlap, nor a block and pages given out whole, nor two runs of pages; no block or run reaches into the header of a page of a pool |
| Heap.BlockFacts | mm/mem_pool.c:106-110 | a block lies in its page, behind the header and aligned to 16 bytes, so it is never aligned to a page |
| Heap.CountFits | mm/mem_pool.c:25-36 | the first block follows the header, and one block more would not fit in the page |
| Virtqueue.Queue.DescNew | driver/virtio/virtio.c:20-37 | a slot is written only if it is free, and no chain in use is touched; what is written has the buffer and flags passed in, with bit 0 set if the chain goes on and otherwise bit 0 clear and bit 1 set |
| Virtqueue.Queue.AvailNew | driver/virtio/virtio.c:92-100 | a linked chain in free slots is published without overwriting an entry the device has yet to read |
| Virtqueue.Queue.SendCommand1 | driver/virtio/virtio.c:56-64 | the descriptor is published if the next slot is free; otherwise nothing changes |
| Virtqueue.Queue.SendCommand2 | driver/virtio/virtio.c:66-76 | the free slots from the next one on are written, and the next slot moves past them; the request is published as a chain of two exactly if they were enough, and otherwise nothing is |
| Virtqueue.Queue.SendCommand3 | driver/virtio/virtio.c:78-90 | the free slots from the next one on are written, and the next slot moves past them; the request is published as a chain of three exactly if they were enough, and otherwise nothing is |
| Virtqueue.LinkedCarried | driver/virtio/virtio.c:20-90 | the chain published for a request carries it: each buffer and the flags as passed in, every descriptor but the last marked as going on and leading to the next slot, the last one writable by the device |
| Virtqueue.Queue.IrqHandler | driver/virtio/virtio.c:240-272 | whatever the callback sends and the device does meanwhile, at the end every chain returned has been handed to the callback exactly once, as it was sent, in the order of return and of the chain; lost slots stay lost.  The run is told move by move: during each call of the callback exactly its events happen, each with its effect |
| Virtqueue.Queue.HandBack | driver/virtio/virtio.c:248-271 | one chain is walked and handed back while sends and device steps happen in between, each with its effect |
| Virtqueue.Queue.FreeOne | driver/virtio/virtio.c:254-268 | one descriptor is freed and handed to the callback, and the next one of its chain is found although the table changes meanwhile |
| Virtqueue.Queue.ActAll | driver/virtio/virtio.c:56-100 | any run of sends, device takes and device returns has the effect of each in turn and keeps all that holds, and history only grows |
| Virtqueue.UsedPending | driver/virtio/virtio.c:246 | the comparison of 16-bit indices tells whether a returned chain is unread |
| Virtqueue.TakePending | driver/virtio/virtio.c:92-100 | the same comparison tells the device whether a published chain is unread |
| Virtqueue.RingsNotOverrun | driver/virtio/virtio.c:92-100 | chains on their way never outnumber the 128 entries of a ring |
| Virtqueue.HandedBackOnce | driver/virtio/virtio.c:240-272 | between interrupts the callback has seen each returned request once |
| Virtqueue.FailureLoses | driver/virtio/virtio.c:66-90 | every slot that a failed send has written stays occupied and belongs to no chain |
| Virtqueue.FailsMidway | driver/virtio/virtio.c:66-76 | a run from the start in which a send fails midway and loses a slot |
| Virtqueue.SentBefore | driver/virtio/virtio.c:20-90 | from any state to any later one, no more requests are sent than slots lie before a lost one |
| Virtqueue.FailureBounds | driver/virtio/virtio.c:66-90 | after a send that failed having written something, any run sends at most 127 more requests |
| Virtqueue.Jammed | driver/virtio/virtio.c:20-37 | once the next slot is a lost one it never moves again, and every later send fails |
| Virtqueue.SendLasting | driver/virtio/virtio.c:56-90 | a send leaves lost slots as they are and never moves the next slot past one |
| VfsPaths.CountMatch | fs/vfs.c:89-112 | the length of the mount path if the path goes on behind it with a separator or ends, or if the mount is the root, and zero otherwise |
| VfsPaths.MatchSplits | fs/vfs.c:89-112 | a mount that covers a path has the first of its components, and those left are the others |
| VfsPaths.MatchWhen | fs/vfs.c:89-112 | a mount covers a path if and only if the path begins with its path and has its components first |
| VfsPaths.CompsOfPath | fs/vfs.c:421-438 | taking a path apart undoes putting it together |
| VfsPaths.CompsAppend | fs/vfs.c:421-437 | the components of a path cut at a separator are those of its parts |
| VfsPaths.NextName | fs/vfs.c:421-437 | the loops find the next component of the path |
| VfsPaths.LastSlash | fs/vfs.c:383-385 | the last separator |
| VfsPaths.JoinInjective | fs/vfs.c:423-438 | a node's path determines its components |
| VfsPaths.LastSlashOfJoin | fs/vfs.c:383-387 | cutting a node's path at its last separator gives the path of its directory |
| Vfs.NodeCache.FindRoot | fs/vfs.c:114-145 | the first of the mounts that cover most of the path, none only if none covers any |
| Vfs.NodeCache.Lookup | fs/vfs.c:235-257 | finds the node of a place exactly when it is cached, and then takes one reference |
| Vfs.NodeCache.Get | fs/vfs.c:199-233 | a new node with one reference in the list of its hash, counted by its mount |
| Vfs.NodeCache.Put | fs/vfs.c:264-282 | one reference less; at the last one the node leaves the cache and its mount counts one less |
| Vfs.NodeCache.Release | fs/vfs.c:361-401 | exactly one acquisition ends: every node on its path and the root of the mount give back one reference |
| Vfs.NodeCache.Acquire | fs/vfs.c:403-466 | the result is exactly the fate of the path, computed beforehand from the cache and the file system's answers: it arrives, or stops at the first component that cannot be passed for the reason reported; the components of the mount and those walked are together the components of the path; what is held afterwards is exact, and after a failure it is what was held before if and only if no node below the first component failed to be created; the path buffer is never overrun |
| Vfs.FateMeans | fs/vfs.c:403-466 | a path arrives if and only if no component is an obstacle, and otherwise stops at the first one |
| Vfs.ArrivedThrough | fs/vfs.c:440-463 | on a path that arrives, every component that was not cached was found by the file system and, unless it is the last, is a directory |
| Vfs.WalksThatFail | fs/vfs.c:440-463 | a path whose second node cannot be created and which leaves the root of the mount held, and one that stops at a file and reports success |
| Vfs.ServedOnce | fs/vfs.c:114-145 | a path is served by one mount |
| Vfs.NodeCache.Enter | fs/vfs.c:440-463 | one component: found, created, rejected or impossible, exactly according to the cache and the file system's answers |
| Vfs.NodeCache.PutLast | fs/vfs.c:443-448 | after a failed creation only the node reached gives back its reference |
| Vfs.NodeCache.AddMount | fs/vfs.c:600-611 | a mount gets a root with one reference of its own |
| Vfs.CachedWhen | fs/vfs.c:199-282 | a place is cached exactly when an outstanding acquisition passes through it or it is the root of a mount, and its count is the number of those acquisitions, one more for a root |
| Vfs.PrefixClosed | fs/vfs.c:403-466 | with a node every directory above it is cached |
| Vfs.UniquePaths | fs/vfs.c:235-257 | no two nodes of a mount have the same path |
| Vfs.AllReleased | fs/vfs.c:361-401 | when everything is released only the roots of the mounts are left, each with one reference |
| Vfs.IdleMount | fs/vfs.c:670-674 | a mount counts at most one node if and only if nobody holds a node below its root |
| PageTable.PageTables.constructor | arch/vm.c:40-45 | a tree of one empty table: no page translates |
| PageTable.PageTables.Walk | arch/vm.c:63-96 | the table reached is the one on the page's own path; no translation changes, for the kernel or the hardware; tables are added only from the page allocator and none is shared or lost; without allocation nothing changes; no entry is found only for a page without translation |
| PageTable.PageTables.WalkAddr | arch/vm.c:98-115 | the physical page of a valid user page, zero for all others |
| PageTable.PageTables.MapRange | arch/vm.c:117-149 | every page of the range has the entry of the matching physical page with the permissions given, and translates for the hardware if and only if the permissions make a legal leaf; every other page is as before, and the tables still form an unshared tree; without memory for a table it stops and the same holds for the pages done so far; for a size of zero or a range beyond the highest address it goes on to that address and panics |
| PageTable.PageTables.UnmapRange | arch/vm.c:151-176 | no page of the range translates, for the kernel or the hardware, and every other page translates as before; it stops at a page that no last-level table serves; for a size of zero or a range beyond the highest address it never ends normally |
| PageTable.LeafWritten | arch/vm.c:140 | writing one entry of a last-level table changes the translation of exactly one page |
| PageTable.ExtendedMap | arch/vm.c:90-91 | an empty table in place of an invalid entry changes no translation |
| PageTable.ExtendedTree | arch/vm.c:76-91 | the tables still form a tree with one path to each |
| PageTable.MakePteReads | arch/vm.c:140 | the entry has bit 0 set, the page number from bit 10 on and the permissions in between |
| PageTable.TranslateIs | arch/vm.c:63-96 | in every tree of tables that the kernel builds, the hardware's walk, which takes its index from the page number by division, with superpages and rejected entries, finds what the kernel's own walk along the valid bits finds, unless that entry is not a legal leaf |
| PageTable.IndexIs | arch/include/riscv.h:82-84 | the index at each level is the page number divided by the pages an entry of that level serves, modulo 512 |
| PageTable.IndexBits | arch/include/riscv.h:82-84 | the indices are the lowest, the middle and the highest nine bits of the page number |
| PageTable.LegalLeaves | arch/include/riscv.h:68-72 | the permissions of a leaf are R, RW, X, RX or RWX |
| Sched.Kernel.Schedule | core/sched.c:57-92 | the first of the ready list, with the current thread put back behind it if it can run, gets the hart; the list is never empty |
| Sched.Kernel.Create | core/thread.c:44-95 | a new thread is in no list and sleeps |
| Sched.Kernel.Start | core/thread.c:130-137 | a new thread goes to the end of the ready list; resuming a thread that is not asleep changes nothing |
| Sched.Kernel.Yield | core/sched.c:57-92 | the current thread goes to the end of the list and the first one runs |
| Sched.Kernel.Leave | core/thread.c:118-128 | a thread that ends is not queued again |
| Sched.Kernel.Block | core/thread.c:139-156 | the current thread sleeps at the end of the list of the primitive, and the next one runs |
| Sched.Kernel.MutexLock | core/mutex.c:11-24 | a round of the loop takes the mutex exactly if it is free, and otherwise sleeps |
| Sched.Kernel.MutexUnlock | core/mutex.c:26-44 | the mutex is free, and the thread that slept first, if any, is ready to try again |
| Sched.Kernel.SemaphoreDown | core/semaphore.c:13-33 | a round of the loop takes one exactly if the count is positive, and otherwise sleeps |
| Sched.Kernel.SemaphoreUp | core/semaphore.c:35-56 | the count grows by one and the thread that slept first, if any, is ready to try again |
| Sched.Kernel.FutexWait | core/futex.c:123-195 | the thread sleeps on the address exactly if the value is the expected one, and otherwise nothing changes |
| Sched.Kernel.FutexWake | core/futex.c:218-260 | despite hash collisions and the early exit, exactly the threads asleep on that address and address space become ready, and no other thread changes |
| Sched.Kernel.Unqueue | core/futex.c:197-246 | the sleepers with the key leave the chain, the others keep their order, and `waiters` is the length of what is left |
| Sched.Kernel.Step | core/sched.c:29-92 | a step that the current thread can take has exactly its effect, and any other none; every step keeps all that holds between steps; those who wait for the hart keep their order, and only the first of them can get it |
| Sched.Kernel.Run | core/sched.c:29-92 | the states of a run follow each other by the effects of its steps, and after any run: no thread queued twice, the ready list is exactly the runnable threads other than the current one, at most one owner for a mutex, no negative count, and no thread asleep on a primitive whose count exceeds the woken threads on their way to it; the threads of the ready list get the hart in its order, before any that joined later |
| Sched.GetsTurn | core/sched.c:57-92 | over any run, the thread at place i of the ready list is the one the hart is handed to for the (i+1)st time, and until then moves up by one at each hand-over |
| Sched.ValidIsSafe | core/mutex.c:11-44 | the invariant implies these promises |
| Sched.NotLeftAsleep | core/semaphore.c:13-56 | while a thread sleeps on a primitive, the count is at most the number of runnable threads that will try it |
| Sched.WakeFacts | core/futex.c:197-260 | waking all sleepers of an address keeps every list, count and chain right |
| GaloisField.Multiply | user-test/lib/libx/qrcgen.c:160-171 | the product in the field of 256 elements: x^8 + x^4 + x^3 + x^2 + 1 divides its difference from the product of the two polynomials |
| GaloisField.TimesProduct | user-test/lib/libx/qrcgen.c:160-171 | the sum of shifted factors is the carry-less product modulo the field's polynomial |
| GaloisField.ProductUnique | user-test/lib/libx/qrcgen.c:160-171 | only one byte is the product |
| GaloisRoots.PowersDiffer | user-test/lib/libx/qrcgen.c:173-190 | the first 255 powers of x are different, so the roots of a generator are |
| GaloisRoots.KeyPowers | user-test/lib/libx/qrcgen.c:167 | x^255 is one, and x^15, x^51 and x^85 are not |
| GaloisField.TimesFacts | user-test/lib/libx/qrcgen.c:160-171 | the product is additive, and two factors can be applied in either order |
| GaloisField.TimesOne | user-test/lib/libx/qrcgen.c:160-171 | one is neutral |
| ReedSolomon.ComputeDivisor | user-test/lib/libx/qrcgen.c:173-190 | the divisor is the product of x - 2^i for i below the degree |
| ReedSolomon.ComputeRemainder | user-test/lib/libx/qrcgen.c:192-206 | the data followed by the remainder is a polynomial that the generator divides, for every generator and all data |
| ReedSolomon.Encode | user-test/lib/libx/qrcgen.c:221-226 | a block with its remainder is a multiple of the generator and vanishes at 2^i for every i below the degree |
| ReedSolomon.Syndromes | user-test/lib/libx/qrcgen.c:192-206 | a multiple of the generator vanishes at every root |
| ReedSolomon.GeneratorRoot | user-test/lib/libx/qrcgen.c:173-190 | the generator vanishes at 2^i for every i below the degree |
| ReedSolomon.GeneratorMonic | user-test/lib/libx/qrcgen.c:173-190 | the leading coefficient, which the code leaves out, is one |
| Fmod.Fmod | user-test/lib/libm/fmod.c:3-67 | for all finite x and finite nonzero y, subnormals included, the result is finite, has the sign of x and a magnitude that is exactly that of x modulo that of y; x for infinite y; not a number exactly for zero or NaN y and for x not finite |
| Fmod.Normalize | user-test/lib/libm/fmod.c:24-37 | the leading bit goes to bit 52 and the value is kept, also for subnormals and with the sign shifted out |
| Fmod.SubStep | user-test/lib/libm/fmod.c:40-48 | a subtraction of the long division keeps the remainder |
| Fmod.Packed | user-test/lib/libm/fmod.c:58-64 | the result decodes to the remainder, and the last shift loses no bit |
| Fmod.MagnitudeOrder | user-test/lib/libm/fmod.c:17-21 | patterns without sign are ordered as the numbers they stand for |
| Fmod.Difference | user-test/lib/libm/fmod.c:41-42 | the top bit of the 64-bit difference is its sign |
| Fmod.Kinds | user-test/lib/libm/fmod.c:13-16 | which patterns are not numbers and which are finite, by their order |
| Fmod.Anchors | user-test/lib/libm/fmod.c:3-67 | the scale of the magnitudes: the smallest subnormal is one unit and 1.0 is 2^1074 units |
| StableSort.SortedIsStable | lib/lsort.c:70-109 | the sorted list has the same entries, in order, and equal entries as they were |
| StableSort.SortedParts | lib/lsort.c:90-94 | merging the sorted halves is sorting the whole |
| StableSort.MergedAssoc | lib/lsort.c:103-108 | stable merging is associative, so the order of the merges plays no part |
| Lsort.ListHeads.Merge | lib/lsort.c:13-33 | relinking gives the stable merge of the two lists and touches no other node |
| Lsort.ListHeads.MergeBack | lib/lsort.c:35-68 | the ring is closed in both directions around the stable merge |
| Lsort.ListHeads.Carry | lib/lsort.c:90-94 | the new list is merged with the slots that are taken; the search for a free slot never leaves the array |
| Lsort.ListHeads.Distribute | lib/lsort.c:84-102 | however long the list, the last of the 21 slots stays empty, each slot holds its stretch of the input sorted, and the highest slot used is not empty |
| Lsort.ListHeads.Sort | lib/lsort.c:70-109 | for every list and every total preorder the ring holds the stably sorted list with correct links back |
| Clock.Search | include/clocksource/clocksource.h:112-130 | the largest shift whose rounded factor leaves room for the range, in 64 bits throughout; a shift of zero if and only if none does |
| Clock.RoomIs | include/clocksource/clocksource.h:112-118 | a factor may have as many bits as leave room for the range in 64 bits, and at most 32 |
| Clock.ClocksourceFactors | include/clocksource/clocksource.h:90-133 | the exact factor when the ratio is whole, and what the search finds otherwise, in 32 bits |
| Clock.ConversionInRange | include/clocksource/clocksource.h:152-155 | for a shift above zero and every cycle count in range, the product fits in 64 bits and the result is within cycles/2^(shift+1) + 1 of the exact ratio |
| Clock.ConversionExact | include/clocksource/clocksource.h:100-107 | for a whole ratio the conversion is exact and fits |
| Clock.SearchCanFail | include/clocksource/clocksource.h:123-132 | an input for which the search leaves the factor for a shift of one with a shift of zero |
| Clock.ClockEvent.CalcFactors | include/clockevent/clockevent.h:78-107 | the factor and shift are what the search finds, and the factor fits in 32 bits |
| Clock.ClockEvent.Delta2ns | include/clockevent/clockevent.h:116-133 | the overflow test is exact; the result is rounded up where that is safe and at least 1000 |
| Clock.TicksMean | include/clockevent/clockevent.h:116-133 | the result is the quotient, rounded up where the factor is at most one and the sum fits and otherwise down, or 1000 if that is more; a product that does not fit is cut off |
| Clock.TicksBack | include/clockevent/clockevent.h:116-133 | the time for a number of ticks is worth at least that number of ticks |
| Clock.ClockEvent.SetLimits | driver/ce-clint-timer.c:48-50 | the limits are the conversions of one tick and of the largest count |
| Clock.ClockEvent.SetEventNext | driver/clockevent.c:55-71 | a past event is refused; any other is clamped to the limits, its product fits in 64 bits and at least one tick is asked for |
| Clock.LimitsFit | driver/ce-clint-timer.c:48-50 | for every factor and shift the limits are in order, the upper one does not overflow and the lower one is worth a tick |
| Lru.Cache.Set | user-test/lib/libx/lru.c:199-225 | for every key: the item made comes first, followed by as many of the latest other entries as fit, and list and chains are linked; the cache is intact if the key is shorter than 256 bytes, and otherwise if and only if the cut key has the same chain and is not in use; an entry that can never fit changes nothing; a failed allocation keeps the old value of the key |
| Lru.StoredWhen | user-test/lib/libx/lru.c:208-213 | the item holds the key and the value if and only if the key is shorter than 256 bytes; otherwise its key is cut to the length modulo 256 |
| Lru.SetThenSearch | user-test/lib/libx/lru.c:199-225 | what was set is found again, with its value, if and only if the key is shorter than 256 bytes |
| Lru.LongKeyLost | user-test/lib/libx/lru.c:199-225 | a run in which a key of 256 bytes is set and not found |
| Lru.Cache.Evict | user-test/lib/libx/lru.c:121-133 | the oldest entries other than the one to be replaced go, and no more than needed |
| Lru.Cache.AllocItem | user-test/lib/libx/lru.c:103-140 | room is made exactly if the entry can fit and memory is left |
| Lru.Cache.Get | user-test/lib/libx/lru.c:182-197 | the value of the key, cut to the buffer, nothing for a key that is not held |
| Lru.Cache.Remove | user-test/lib/libx/lru.c:227-238 | exactly the entry of the key goes |
| Lru.Cache.RemoveItem | user-test/lib/libx/lru.c:79-96 | the item leaves its chain and the doubly linked list, by their links, and its bytes are given back |
| Lru.Cache.HashRemove | user-test/lib/libx/lru.c:54-77 | following the links finds the item in its chain and takes it out; all other chains keep their links |
| Lru.Cache.ListRemove | user-test/lib/libx/lru.c:82-93 | the links, head and tail spell out the list without the item, both ways |
| Lru.Cache.ListInsert | user-test/lib/libx/lru.c:215-221 | the links, head and tail spell out the list with the item first, both ways |
| Lru.Cache.HashInsert | user-test/lib/libx/lru.c:47-52 | the links spell out the chain with the item first, and all other chains as before |
| Lru.Cache.Search | user-test/lib/libx/lru.c:30-45 | following the links of a chain finds the item of a key exactly if there is one, despite collisions |
| Lru.SetMeans | user-test/lib/libx/lru.c:199-225 | after a set the key has the new value, and any other key has the one it had or was among the oldest that no longer fit |
| Lru.LatestIs | user-test/lib/libx/lru.c:121-133 | the entries kept fit, and one more would not |

## Left out

- Buddy.BuddySystem.AllocPage: requests of more than 2^20 pages are excluded, because their order lies outside the table of lists.
- Buddy.BuddySystem.FreePage: only starts of blocks are given back; the page map says nothing about other frames.
- Timer.TimerBase.EventHandler: a callback starts and cancels timers that are known; it does not forward or initialise one that is in the queue, which would break the order of the queue. A run that never ends is excluded.
- Vfs.NodeCache.AddMount: covers giving a mount its root and listing it; acquiring the node it covers, the file system's own mounting and the failures of `vfs_mount` are left out.
- Vfs.NodeCache.Acquire: paths fit the buffer of 1024 bytes; an acquisition runs to its end before another begins.
- Virtqueue.Queue.DescNew: descriptors are passed in without the flag that marks a successor, as all callers do.
- Sched.Kernel.MutexUnlock: only the holder unlocks, as in all runs of `Sched.Kernel.Run`; the source does not check this.
- PageTable.PageTables.MapRange: virtual and physical addresses are page numbers; the log line for a page that was mapped before is left out, and so are the accessed and dirty bits and the user bit, which decide about a fault and not about the page found.
- Sched.Kernel.Run: threads suspend only themselves, only the holder unlocks, a sleeper is woken only by what it sleeps on, and the idle thread does not sleep; freeing the memory of a thread that has ended is left out.
- Heap.Allocator.Malloc: requests of more than 2^20 pages are excluded, as for `Buddy.BuddySystem.AllocPage`; the pool never gives a page back, as its test for that comes out false after every free.
- Clock.ClockEvent.SetEventNext: the sum of the device's counter and the ticks is not modelled.
- The pointer arithmetic of the page map and the layout of the arena at the end of the kernel (mm/buddy.c:102-136).
- The augmented and cached variants of the tree, node replacement and post-order iteration.
- Opening, reading and writing files through descriptors, and unmounting: plumbing around the node cache.
- The hash functions of the futex table, the node cache and the byte-bounded cache: all claims hold for any hash function.
- Blocks of a QR code interleaved with their remainders, and everything else about QR codes.
- Memory barriers and several harts: the kernel is configured for one, and its spin locks are empty.
- Interrupt entry, device registers, page faults, inter-process communication, capability slots, address spaces, the class system, drivers for input and display, the window manager, and the parsers.
