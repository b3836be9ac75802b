# RestrictedQuadtree: the prototype quadtree of `QuadtreeRenderer` and the hurricane volume loader

This project models two parts of the RestrictedQuadtree volume viewer in Dafny and
proves what they do.

The first is the tree logic of `QuadtreeRenderer`. The tree is a heap-linked `q_node`
tree with four child slots per cell. The record `qtree` holds its unsigned counters
`budget`, `budget_filled` and `frame_budget`. The operations are:

- the constructor, which builds the one-leaf tree;
- the read-only tests `splitable` and `collabsible`;
- `split_node` and `collapse_node`;
- `update_tree`, which gathers candidates with a stack walk, then splits the top of
  a priority queue while its three guards hold;
- the leaf walk of `update_vbo`;
- the template `helper::clamp`.

The second is `Volume_loader_raw_hurricane`:

- its two channel tables;
- the constant getters;
- the file name `load_volume` builds from a directory prefix, a channel and a time step;
- the buffer it returns.

Modules:

- `Unsigned` (`unsigned.dfy`): the 32-bit `unsigned` type `u32`, with wrap-around
  addition and subtraction.
- `QuadtreeTypes` (`quadtree_types.dfy`): the classes `QNode` (`q_node`) and `QTree`
  (`qtree`), and the field-level conditions of `splitable` and `collabsible`.
- `QuadtreeShape` (`quadtree_shape.dfy`): the tree shape as a value, a `Skeleton`. For
  each cell it records:
  - its flags, depth, parent and child slots;
  - its path from the root;
  - its slot under its parent.

  All facts about trees are proved here, on values. That covers well-formedness, what
  a split does, subtrees, stack walks, and the relation `Refines` between the tree
  before and after a series of splits.
- `SplitQueue` (`split_queue.dfy`): `PopOrder`, the order in which a priority queue
  hands out its elements. The comparator `lesser_prio_ptr` is not defined in the
  modelled files, so it is a parameter `head` that picks the top. The module proves that the pop order
  is a permutation, and that what was popped so far is a prefix of it.
- `Renderer` (`quadtree.dfy`): the class `QuadtreeRenderer`.
  - It has a ghost `shape`. `Valid` says that each cell's root and leaf flags, depth,
    parent and child slots equal its record in `shape`, and that `shape` is a tree
    hanging from `m_tree.root_node`. Ids, priorities and errors are not part of
    `shape`. The split methods state them directly: `ChildrenLabelled`, and frames
    that leave those fields of existing cells untouched.
  - Each method states its effect on `shape` and on the counters.
  - The split loop is proved against the predicate `Progress`: the cells split so far
    are a prefix of the pop order, the counters have moved on by that many
    iterations, and the guard held before each of them.
- `Helper` (`helper.dfy`): `clamp`, on reals.
- `VolumeLoader` (`volume_loader.dfy`): the loader class `HurricaneLoader`, the
  decimal numerals of `std::to_string` with their parser, the file name, and the buffer.

The source's quirks are kept as written:

- Children take the **root's** depth plus one and a quarter of the **root's** priority
  and error. With a root of depth 0, every cell but the root therefore has depth 1.
  This is part of `Skeleton.WellFormed`, so under `max_depth` 1 only the root is ever
  splittable.
- `budget_filled` grows by 8 per split: 4 in `split_node` and 4 in the loop.
- `frame_budget` grows by 1 per split.
- `collapse_node` only lowers `budget_filled`, with wrap-around, since the source has
  no guard. Its deletes run only on a leaf, whose slots are empty.
- `update_tree` builds a collapse queue that it never uses.
- `++time_step` wraps, so the last time step gives the step field `00`.

## Model

| member | source | states |
|---|---|---|
| Unsigned.Add32 | framework/QuadtreeRenderer.hpp:44-47 | unsigned `+` on a counter is the plain sum when it fits, and the sum less 2^32 when it overflows |
| Unsigned.Sub32 | framework/QuadtreeRenderer.cpp:159 | unsigned `-=` is the plain difference when it does not go below zero, and the difference plus 2^32 when it does |
| Unsigned.AddAfterMod | framework/QuadtreeRenderer.cpp:118 | successive wrapped increments add up modulo 2^32 |
| QuadtreeTypes.QNode.constructor | framework/QuadtreeRenderer.hpp:36-39 | a new `q_node` is a leaf, is not the root, and has four empty slots (the empty slots are an assumption) |
| QuadtreeTypes.QNode.Assign | framework/QuadtreeRenderer.cpp:108-113 | the field writes after `new q_node()` set id, flags, depth, priority and error; parent and slots are unchanged |
| QuadtreeTypes.QTree.constructor | framework/QuadtreeRenderer.cpp:69 | the value-initialised `m_tree` has no root and all counters zero |
| QuadtreeTypes.QTree.AssignCounters | framework/QuadtreeRenderer.cpp:73-77 | the constructor's counter writes set exactly the five counters |
| QuadtreeTypes.QTree.CountSplit | framework/QuadtreeRenderer.cpp:118-119 | `split_node` adds 4 to `budget_filled` and 1 to `frame_budget`, both wrapping |
| QuadtreeShape.Skeleton.SubOfRoot | framework/QuadtreeRenderer.cpp:171 | every cell of a well-formed tree is in the subtree of the root, so a walk started at the root can reach all of them |
| QuadtreeShape.Skeleton.ChildOnPath | framework/QuadtreeRenderer.cpp:179-184 | a cell strictly below `t` is below one of `t`'s children, which sits in a slot of `t` |
| QuadtreeShape.Skeleton.RootDepth | framework/QuadtreeRenderer.cpp:83 | the root of a well-formed tree has depth 0 |
| QuadtreeShape.Skeleton.LeafHasNoKids | framework/QuadtreeRenderer.cpp:152-157 | a leaf's four slots are empty, so the deletes of `collapse_node` free nothing |
| QuadtreeShape.Skeleton.KidsInTree | framework/QuadtreeRenderer.cpp:180-184 | every present child of a cell is a cell of the tree |
| QuadtreeShape.Skeleton.SubOfLeaf | framework/QuadtreeRenderer.cpp:186-189 | a leaf's subtree is the leaf alone |
| QuadtreeShape.Skeleton.BelowChild | framework/QuadtreeRenderer.cpp:180-184 | a child's subtree lies in the parent's subtree, does not contain the parent, and passes through that child |
| QuadtreeShape.Skeleton.SubOfInnerCover | framework/QuadtreeRenderer.cpp:179-184 | an inner cell has four children, and its subtree is itself plus their four subtrees |
| QuadtreeShape.Skeleton.SubOfInnerDisjoint | framework/QuadtreeRenderer.cpp:179-184 | the four children's subtrees are pairwise disjoint and none contains their parent |
| QuadtreeShape.Skeleton.SubOfInner | framework/QuadtreeRenderer.cpp:179-184 | counted with multiplicity, an inner cell's subtree is the cell plus its children's subtrees, each cell once |
| QuadtreeShape.Skeleton.PendingPush | framework/QuadtreeRenderer.cpp:182 | pushing `x` adds the subtree of `x` to what the stack has left to visit |
| QuadtreeShape.Skeleton.PopStep | framework/QuadtreeRenderer.cpp:176-177 | the cell popped from the stack is a cell of the tree not visited before |
| QuadtreeShape.Skeleton.WalkStart | framework/QuadtreeRenderer.cpp:169-171 | a stack holding only the root has every cell left to visit, each once |
| QuadtreeShape.Skeleton.VisitStep | framework/QuadtreeRenderer.cpp:175-185 | one pop-and-push step moves the popped cell from "left to visit" to "visited" and keeps every cell counted once |
| QuadtreeShape.Skeleton.LeavesStep | framework/QuadtreeRenderer.cpp:243-245 | visiting a cell adds it to the leaves seen exactly when it is a leaf |
| QuadtreeShape.Skeleton.SplittableStep | framework/QuadtreeRenderer.cpp:186-189 | visiting a cell adds it to the splittable cells seen exactly when it is a leaf that `splitable` accepts |
| QuadtreeShape.Skeleton.CollapsibleStep | framework/QuadtreeRenderer.cpp:191-193 | visiting a cell adds it to the collapsible cells seen exactly when `collabsible` accepts it |
| QuadtreeShape.Skeleton.WalkDone | framework/QuadtreeRenderer.cpp:175 | when the stack is empty, the walk has visited every cell |
| QuadtreeShape.Skeleton.OnlyRootSplittable | framework/QuadtreeRenderer.cpp:111-125 | under a depth limit of at most 1, the splittable cells are the root alone when it is a leaf and the limit is 1, and none otherwise |
| QuadtreeShape.Skeleton.NothingSplittableAfterRoot | framework/QuadtreeRenderer.cpp:111-125 | once the root is split, under a depth limit of at most 1, no cell is splittable |
| QuadtreeShape.Skeleton.LeafCollapsible | framework/QuadtreeRenderer.cpp:137-146 | a childless cell is accepted by `collabsible` |
| QuadtreeShape.Skeleton.QueuedIsLeaf | framework/QuadtreeRenderer.cpp:206-209 | every node still in the split queue is an untouched leaf of the tree, so `split_node` may split it |
| QuadtreeShape.Skeleton.RefinesStep | framework/QuadtreeRenderer.cpp:206-209 | splitting the queue's top moves it from the queue to the split cells; all other cells stay untouched; four cells are added |
| QuadtreeShape.Skeleton.RefinesStepQueue | framework/QuadtreeRenderer.cpp:206-207 | after a pop, the queue still has no repeats, the split cells have none, and the cells left in the queue are unchanged leaves |
| QuadtreeShape.Skeleton.RefinesStepCells | framework/QuadtreeRenderer.cpp:209 | after the split, every split cell is inner, every other old cell is unchanged, and the tree has four more cells per split |
| QuadtreeShape.Skeleton.SplitGrows | framework/QuadtreeRenderer.cpp:105-106 | a split adds exactly the four fresh children to the cells |
| QuadtreeShape.Skeleton.SplitWellFormed | framework/QuadtreeRenderer.cpp:102-120 | splitting a leaf of a well-formed tree into four fresh leaves of depth 1 gives a well-formed tree |
| QuadtreeShape.Skeleton.SplitKeepsOther | framework/QuadtreeRenderer.cpp:102-120 | a split leaves every cell other than the split one locally well formed |
| QuadtreeShape.Skeleton.SplitKeepsParent | framework/QuadtreeRenderer.cpp:105-116 | the split cell, now inner with four children, is locally well formed |
| QuadtreeShape.Skeleton.SplitMakesLeaf | framework/QuadtreeRenderer.cpp:106-113 | each new child is a well-formed leaf at depth 1 in slot `c` of its parent |
| QuadtreeShape.CountsOfSet | framework/QuadtreeRenderer.cpp:188 | a list with the counts of a set lists each element of the set exactly once |
| SplitQueue.PopOrder | framework/QuadtreeRenderer.cpp:197-207 | popping the whole queue returns as many elements as were queued |
| SplitQueue.PopOrderIsPermutation | framework/QuadtreeRenderer.cpp:197-207 | popping the whole queue returns each queued element exactly as often as it was queued |
| SplitQueue.Without | framework/QuadtreeRenderer.cpp:207 | `pop` leaves the other elements in order and removes only the top one |
| SplitQueue.PopOrderUnfold | framework/QuadtreeRenderer.cpp:206-207 | the first element popped is the top the comparator picks; the rest follow in their own pop order |
| SplitQueue.PopStep | framework/QuadtreeRenderer.cpp:206-207 | one `top(); pop()` extends the popped prefix by the next element of the pop order |
| SplitQueue.PoppedPrefix | framework/QuadtreeRenderer.cpp:202-207 | what was popped so far is a prefix of the pop order of the full queue |
| SplitQueue.PoppedWereQueued | framework/QuadtreeRenderer.cpp:202-207 | every element popped from the queue had been pushed onto it |
| Renderer.SplitBound | framework/QuadtreeRenderer.cpp:200-211 | while fewer than 2^30 splits have run, the guard `current_budget < frame_budget` admits at most ceil(F/3) splits, F being `frame_budget` on entry |
| Renderer.CountedStep | framework/QuadtreeRenderer.cpp:202-212 | an iteration under the guard adds 4 to `current_budget`, 8 to `budget_filled` and 1 to `frame_budget`, all modulo 2^32 |
| Renderer.CountedStop | framework/QuadtreeRenderer.cpp:202-204 | the guard on the live counters is the guard of iteration `s` in terms of the counters on entry |
| Renderer.ProgressStep | framework/QuadtreeRenderer.cpp:206-212 | splitting the queue's top while the guard holds is one more step of `Progress` |
| Renderer.ProgressStart | framework/QuadtreeRenderer.cpp:197-200 | before the loop, the queue holds all the candidates, nothing is split, and `current_budget` is 0 |
| Renderer.ProgressDone | framework/QuadtreeRenderer.cpp:202-213 | on exit, the split cells are a prefix of the pop order; the guard held before each split; it fails afterwards unless every candidate was split; the counters moved on by that many splits |
| Renderer.QuadtreeRenderer.Mirrored | framework/QuadtreeRenderer.hpp:26-34 | under the invariant, a cell's heap fields equal its record in the shape |
| Renderer.QuadtreeRenderer.constructor | framework/QuadtreeRenderer.cpp:65-90 | one root leaf: id 0, depth 0, priority 1, error 0, four empty slots; budget 10, filled 0, frame budget 1, frame budget filled 0, depth limit 1; the tree is valid |
| Renderer.QuadtreeRenderer.Splitable | framework/QuadtreeRenderer.cpp:122-135 | `splitable(n)` returns true exactly when `n` is shallower than `max_depth` and all four slots are empty; it changes nothing |
| Renderer.QuadtreeRenderer.Collabsible | framework/QuadtreeRenderer.cpp:137-146 | `collabsible(n)` returns true exactly when every present child is a leaf, which includes a childless cell; it changes nothing |
| Renderer.QuadtreeRenderer.CollapsibleMirrored | framework/QuadtreeRenderer.cpp:137-146 | on a cell of the tree, `collabsible`'s field condition agrees with `Collapsible` on the shape |
| Renderer.QuadtreeRenderer.MirrorsAfterSplit | framework/QuadtreeRenderer.cpp:105-116 | after the heap writes of a split, every cell of the split shape describes its heap cell |
| Renderer.QuadtreeRenderer.SplitCells | framework/QuadtreeRenderer.cpp:102-120 | four distinct fresh leaves fill the slots of `n`; child `c` gets parent `n`, id `child_node_index(n.id, c)`, the root's depth plus 1 and a quarter of the root's priority and error; `n` stops being a leaf; the counters grow by 4 and 1 |
| Renderer.QuadtreeRenderer.ReshapeAfterSplit | framework/QuadtreeRenderer.cpp:102-120 | the shape becomes `Split(n, kids)` and the tree invariant is restored |
| Renderer.QuadtreeRenderer.SplitNode | framework/QuadtreeRenderer.cpp:102-120 | on a leaf of the tree, the shape becomes `Split` with four fresh leaves; the tree stays valid; child `c` is a non-root leaf with parent `n`, depth 1, id `child_node_index(n.id, c)` and a quarter of the root's priority and error; `budget_filled` grows by 4 and `frame_budget` by 1; only the shape, those two counters and the `leaf` and `child_node` fields of `n` are written |
| Renderer.QuadtreeRenderer.CollapseNode | framework/QuadtreeRenderer.cpp:149-160 | `budget_filled` drops by 4, wrapping below zero; the tree, every flag and every slot stay as they were |
| Renderer.QuadtreeRenderer.PushChildren | framework/QuadtreeRenderer.cpp:180-184 | pushing the present children in slot order adds their subtrees to what the stack has left to visit |
| Renderer.QuadtreeRenderer.CandidateStep | framework/QuadtreeRenderer.cpp:176-193 | one traversal step visits a new cell and keeps both candidate lists equal, with multiplicity, to the accepted cells visited so far |
| Renderer.QuadtreeRenderer.CollectCandidates | framework/QuadtreeRenderer.cpp:166-194 | the traversal lists every leaf `splitable` accepts, and every cell `collabsible` accepts, each exactly once |
| Renderer.QuadtreeRenderer.LeafStep | framework/QuadtreeRenderer.cpp:233-245 | one leaf-walk step visits a new cell and lists it exactly when it is a leaf |
| Renderer.QuadtreeRenderer.CollectLeaves | framework/QuadtreeRenderer.cpp:221-246 | the leaf walk lists exactly the leaves of the tree, each once, and changes nothing |
| Renderer.QuadtreeRenderer.SplitHead | framework/QuadtreeRenderer.cpp:206-212 | one iteration pops the queue's top, splits it and moves the counters, preserving `Splitting` and `ChildrenLabelled`; it writes only the `leaf` and `child_node` fields of cells of the start tree; the queue shrinks |
| Renderer.QuadtreeRenderer.SplitAndFill | framework/QuadtreeRenderer.cpp:209-212 | `split_node(q)` followed by `budget_filled += 4`: the shape is split at `q` into four fresh leaves labelled as in `SplitNode`, `budget_filled` grows by 8, the frame budget grows by 1 |
| Renderer.QuadtreeRenderer.SplitLabelled | framework/QuadtreeRenderer.cpp:102-120 | one split of the loop keeps every child hung since the loop began labelled by `split_node`: id `child_node_index(parent id, slot)`, a quarter of the root's priority and error |
| Renderer.QuadtreeRenderer.AddToFilled | framework/QuadtreeRenderer.cpp:212 | `budget_filled += d` wraps and keeps the tree valid |
| Renderer.QuadtreeRenderer.SplitWithinBudget | framework/QuadtreeRenderer.cpp:197-213 | splits the candidates in pop order while the guard holds, stopping at the first failure or when the queue is empty; each split adds 8 to `budget_filled` and 1 to `frame_budget`; the tree stays valid and changes only by those splits: only the `leaf` and `child_node` fields of existing cells are written, and every new child carries `child_node_index(parent id, slot)` and a quarter of the root's priority and error (`ChildrenLabelled`) |
| Renderer.QuadtreeRenderer.UpdateTree | framework/QuadtreeRenderer.cpp:163-214 | the candidates are exactly the splittable leaves; the split cells are a prefix of their pop order, each split once; the guard held before each split and fails after the last unless all were split; the counters advance by 8 and 1 per split; nothing is collapsed; existing cells keep their ids, priorities and errors, and every new child is labelled as `split_node` labels it |
| Renderer.FirstUpdate | framework/QuadtreeRenderer.cpp:163-214 | on a freshly built renderer (constructor at lines 65-90), `update_tree` splits the root once into four leaves (5 cells); `budget_filled` is then 8 and `frame_budget` 2, and nothing is splittable any more |
| Renderer.SplitWereSplittable | framework/QuadtreeRenderer.cpp:163-207 | every cell `update_tree` splits was a leaf that `splitable` accepted when the traversal ran (defined cell, leaf, depth and slot conditions met) |
| Renderer.FirstSplit | framework/QuadtreeRenderer.cpp:186-209 | on the constructor's tree, the only candidate is the root, and the loop splits it |
| Renderer.FirstCandidates | framework/QuadtreeRenderer.cpp:186-188 | on the constructor's one-leaf tree with depth limit 1, the candidate list is the root alone |
| Renderer.FirstLoop | framework/QuadtreeRenderer.cpp:202-209 | with one candidate and the constructor's counters, the loop splits that candidate |
| Renderer.FirstShape | framework/QuadtreeRenderer.cpp:105-116 | splitting the root of the one-leaf tree gives five cells, an inner root, and nothing splittable under depth limit 1 |
| Renderer.FirstGuard | framework/QuadtreeRenderer.cpp:200-204 | the guard holds before the first iteration from the constructor's counters (0 < 1 and 0 < 10) |
| Renderer.FirstCounters | framework/QuadtreeRenderer.cpp:209-212 | one split from the constructor's counters leaves `budget_filled` 8 and `frame_budget` 2 |
| Helper.Clamp | framework/QuadtreeRenderer.cpp:51-55 | `clamp` returns one of `val`, `min` or `max`; within a proper range it lies in `[min, max]`; an input already in range is returned unchanged |
| Helper.ClampIdempotent | framework/QuadtreeRenderer.cpp:51-55 | on a proper range, clamping twice is the same as clamping once |
| Helper.ClampMonotone | framework/QuadtreeRenderer.cpp:51-55 | on a proper range, clamping preserves order |
| Helper.ClampNearest | framework/QuadtreeRenderer.cpp:51-55 | on a proper range, the result is the point of the range nearest to `val` |
| VolumeLoader.ChannelTables | framework/volume_loader_raw_hurrican.cpp:11-36 | the tables have 13 entries each, name `i` going with range `i`; the names are distinct and end in `f`; every range has its lower bound first |
| VolumeLoader.Digit | framework/volume_loader_raw_hurrican.cpp:56 | a digit value below 10 maps to the character that reads back as that value |
| VolumeLoader.Decimal | framework/volume_loader_raw_hurrican.cpp:56 | `std::to_string` gives a non-empty string of digits, one digit long exactly for values below 10 |
| VolumeLoader.ParseDecimalOfDecimal | framework/volume_loader_raw_hurrican.cpp:56 | reading the numeral back gives the number it was made from |
| VolumeLoader.DecimalLeadingDigit | framework/volume_loader_raw_hurrican.cpp:56 | the numeral of a positive number does not start with `0` |
| VolumeLoader.ParseLeadingZero | framework/volume_loader_raw_hurrican.cpp:53-54 | the padding `0` does not change the value of the step field |
| VolumeLoader.StepField | framework/volume_loader_raw_hurrican.cpp:51-56 | the step field is all digits and at least two characters long |
| VolumeLoader.StepFieldValue | framework/volume_loader_raw_hurrican.cpp:51-56 | the step field reads back as `time_step + 1` modulo 2^32 |
| VolumeLoader.StepFieldTwoDigits | framework/volume_loader_raw_hurrican.cpp:51-56 | time steps 0 to 8 give exactly the two digits `01` to `09` |
| VolumeLoader.StepFieldPlain | framework/volume_loader_raw_hurrican.cpp:51-56 | from time step 9 until the wrap, the field is the plain numeral of `time_step + 1`, with no leading zero |
| VolumeLoader.StepFieldWrap | framework/volume_loader_raw_hurrican.cpp:51-56 | the largest time step wraps to 0, and the field is `00` |
| VolumeLoader.StepFieldInjective | framework/volume_loader_raw_hurrican.cpp:51-56 | distinct time steps give distinct step fields |
| VolumeLoader.VolumePath | framework/volume_loader_raw_hurrican.cpp:47-56 | the path starts with the caller's `filepath`, ends with `.bin`, and its length is the sum of its four parts |
| VolumeLoader.SplitAtDigits | framework/volume_loader_raw_hurrican.cpp:49-56 | a name ending in a non-digit followed by a numeral splits back uniquely into the two |
| VolumeLoader.VolumePathInjective | framework/volume_loader_raw_hurrican.cpp:47-56 | for one `filepath`, the path determines the name and the time step |
| VolumeLoader.ChannelPathsDistinct | framework/volume_loader_raw_hurrican.cpp:47-56 | distinct (channel, time step) pairs name distinct files |
| VolumeLoader.DataSize | framework/volume_loader_raw_hurrican.cpp:70-74 | the buffer size is the product of the dimensions, one channel and the bytes per channel when that product fits in 32 bits, and otherwise differs from it by a multiple of 2^32 |
| VolumeLoader.DataSizeNegativeWraps | framework/volume_loader_raw_hurrican.cpp:70-74 | a negative signed product wraps in the unsigned conversion: dimensions -1×1×1 with 4 bytes per channel ask for 2^32 - 4 bytes |
| VolumeLoader.Filled | framework/volume_loader_raw_hurrican.cpp:76-79 | the buffer has the computed size; each byte comes from the file where the file has one, and is 0 otherwise |
| VolumeLoader.FilledFromLongFile | framework/volume_loader_raw_hurrican.cpp:76-79 | a file at least as long as the buffer fills it with its first bytes |
| VolumeLoader.HurricaneLoader.constructor | framework/volume_loader_raw_hurrican.cpp:7-37 | the constructor leaves exactly the 13 names and 13 ranges in the tables |
| VolumeLoader.HurricaneLoader.GetChannelRanges | framework/volume_loader_raw_hurrican.cpp:39-42 | returns the range table, one range per channel name, and changes nothing |
| VolumeLoader.HurricaneLoader.GetChannelCount | framework/volume_loader_raw_hurrican.cpp:105-110 | returns the number of names converted to `unsigned`, which is 13, whatever the path |
| VolumeLoader.HurricaneLoader.GetDimensions | framework/volume_loader_raw_hurrican.cpp:96-103 | returns 500 by 500 by 100, whatever the path |
| VolumeLoader.HurricaneLoader.GetBitPerChannel | framework/volume_loader_raw_hurrican.cpp:112-117 | returns 32 bits, a whole number of bytes, whatever the path |
| VolumeLoader.HurricaneLoader.DataSizeOfGetters | framework/volume_loader_raw_hurrican.cpp:66-74 | with the getters' values, the signed product does not overflow and the buffer is 100,000,000 bytes |
| VolumeLoader.HurricaneLoader.LoadVolume | framework/volume_loader_raw_hurrican.cpp:44-94 | opens the path made of `filepath`, the channel's name, the step field and `.bin`; an unopened file gives an empty buffer; an opened file gives 100,000,000 bytes, the file's own bytes first and zeros after; the loader is unchanged |

## Left out

- The OpenGL, shader and vertex-buffer work is not modelled, because it is driver I/O:
  `createProgram` in the constructor, the vertex generation and upload of `update_vbo`,
  `update_and_draw`, the empty `add` overloads, `reset` (its `m_dirty` flag is never
  read in the tree logic), `helper::weight`, and the destructor.
- Floating-point priority, error, channel ranges and `clamp` are modelled as exact
  reals; rounding is not.
- The comparator `lesser_prio_ptr` is not defined in the modelled files. It is the parameter
  `queueHead` of `UpdateTree`, which picks the top of the queue.
- The collapse queue built with `greater_prio_ptr` is never popped, so it is left out;
  the list it is built from, `collAble`, is computed and proved.
- `q_layout.child_node_index` lives in `quadtree_layout.inl`, which is not part of this
  model. It is the constructor parameter `childNodeIndex`.
- `m_tree.max_depth` is used but not declared in `QuadtreeRenderer.hpp`; it is modelled
  as a field of `QTree`.
- A fresh `q_node` is assumed to have four empty child slots; `new q_node()` leaves
  them uninitialised. Its other fields are assigned before they are read.
- `Renderer.QuadtreeRenderer.UpdateTree`: the C++ function returns nothing. The model
  returns the candidate list and, as ghost, the cells split, so that the contract can
  talk about them. The unused `screen_pos` argument is dropped.
- Renderer.SplitBound: the ceil(F/3) bound is proved only while fewer than 2^30 splits
  have run. Beyond that, `current_budget` wraps and the bound no longer follows from
  the guard.
- Renderer.QuadtreeRenderer.CollapseNode: the deletes of `collapse_node` are not
  modelled as deallocation. They run only on a leaf, whose slots are all empty, so
  they free nothing.
- `private` access to `split_node`, `collapse_node`, `splitable` and `collabsible` is
  not modelled; Dafny has no access control.
- The console messages of `load_volume` and the `ifstream` open, seek and read are I/O.
  The file system is the parameter `files` of `LoadVolume`.
- VolumeLoader.HurricaneLoader.LoadVolume: `assert(0)` on an unopened file aborts a
  debug build. The model gives the release-build result, an empty buffer.
- `volume_data_type` is declared in `data_types_fwd.hpp`, which is not part of this
  model. It is taken to be a vector of bytes.
- `get_time_steps` is declared in `volume_loader_raw_hurrican.hpp` but has no
  definition, so it is not modelled.
