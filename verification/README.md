# Verified models of the PARSEC components

The repository bundles parallel benchmark programs. This project models their most intricate
sequential algorithms and their synchronisation protocols in Dafny and proves what they are for.
`dafny verify dfyconfig.toml` checks everything.

## What is modelled

**freqmine** (`Itemsets`, `FPTree`, `FPArray`, `Narrowing`, `PatternBase`, `DescendingSort`, `CondTree`,
`SinglePath`, `FrequentSets`, `Miner`, `Arena`, `NodeRelease`, `NodeArrays`, `MiningOrder`). FP-growth from end to end: transactions are inserted
in a prefix tree, the tree is flattened to one shared array whose branches overlap, the array is mined recursively
over conditional pattern bases with the shortcut for chains; at the first level the array lies in memory and its cells are
narrowed in place between rounds. The main result, `Miner.MineDatabase`, is that every
frequent item set is reported exactly once with its support. The mark/release memory and the protocol by which
mining threads release node arrays are models of their own, joined in `NodeArrays`.

**barnes** (`OctreeCoords`, `Octree`, `OctreeLoad`, `HackCofm`, `Costzones`, `SpaceCurve`, `CycleBarrier`). Threads load bodies into an
octree with a lock per cell and double checks; the sums are formed bottom up by spinning on Done flags; the bodies
are divided among processors by cost zones; the phases are separated by a cycle/counter barrier. The parallel parts
are transition systems: one step is one shared access or one critical section, and results are about all runs.

**swaptions** (`LinearAlgebra`, `GaussJordan`). In-place Gauss-Jordan elimination over the reals.

**fluidanimate** (`ParsecBarrier`, `FluidGrid`). The two-phase barrier, and the rebuilding of the particle grid with
its pool of cells.

**canneal** (`AtomicSwap`, `RoutingCost`, `MersenneTwister`). The deadlock-free swap of atomic pointers, the cost of a
placement against the change that an annealing step computes, and the random number generator.

**x264** (`Numbers`, `Ebml`, `MatroskaFormat`, `MatroskaWriter`, `Recording`). The Matroska writer with its nested contexts, and a decoder
written from RFC 8794 (sections 4 to 7) and RFC 9559 that recovers what was recorded.

**dedup** (`Rabin`, `RabinPolynomial`, `RabinCuts`, `HashTable`). The rolling fingerprint against polynomial division over GF(2), and
the hash table with both ways to expand it.

`FiniteSets` and `Numbers` hold counting and arithmetic lemmas, `Wrappers` the option type.

## Where the code differs from what it promises

- The encoder of dedup initialises the window table with a window length of 0 (`encoder.cpp:643-644` and `874-875`).
  `Rabin.RollingIsRightIff` and `RabinCuts.CutsAreRightIff` give the exact condition under which rolling values and cuts are
  those of the window; `RabinCuts.ShortWindowsCutWrong` shows that no window length below 32 meets it, and
  `RabinCuts.EncoderMissesCut` gives an input that is cut differently.
- The cost change that annealing computes is off by `2 * distance` for every edge between the two elements and
  every self-loop; `RoutingCost.DeltaIsExactIff` says exactly when it is right.
- `newbuf` is documented to round to multiples of MULTOF = 8 but tests two bits only; `Arena.RoundedIsAligned` says when it does.
- The cycle/counter barrier is safe for at most NPROC threads (`CycleBarrier.SafeExactly`) and, among those, makes progress for
  exactly NPROC (`CycleBarrier.FinishesExactly`); with more a waiter can be lost (`CycleBarrier.TooManyLose`).
- The Matroska writer takes the place of the duration from the start of the header but seeks it from the start of the file, and accepts
  a header after clusters; `MatroskaWriter.Writer.Close` says that the file is right exactly when none came before, and
  `MatroskaWriter.RecordLate` gets there by public calls.
- The directions of barnes make the walk over the octree a connected curve, from box to box through common faces, except in the rows
  BRA_FRC, BDC_FRC, FRC_BUC and FRC_BRA of Direction_Sequence; `SpaceCurve.LinkedExactly` says where it jumps. The partition is right all the same.
- `AtomicPtr.h` guards the releasing store of Checkin with a misspelt macro (line 293), so Checkin is always a plain store; the model
  has one atomic store, in sequentially consistent memory, and that is enough there.
- Plan B of `hashtable_expand` passes a bucket's contents, not its address, to memset (`hashtable.c:163`); the model has the
  intended clearing.

## Model

| member | source | states |
|---|---|---|
| FPTree.FPTree.Insert | apps/freqmine/src/fp_tree.cpp:930-1008 | the tree of a database becomes the tree of the database with one more transaction: every node's count is the weight of all transactions that begin with its path, and `newDataNum` and `nodenum` reserve the cells and slots that flattening will need |
| FPTree.FPTree.WalkDown | apps/freqmine/src/fp_tree.cpp:948-965 | walks down exactly the part of the transaction that the tree already spells |
| FPTree.FPTree.Extend | apps/freqmine/src/fp_tree.cpp:966-1007 | a new node becomes the first child or is linked in behind the first, and keeps the tree in order |
| FPTree.AttachKeepsTree | apps/freqmine/src/fp_tree.cpp:979-1002 | linking a child in second place keeps sibling lists, parents and paths in agreement |
| FPTree.CountNewNode | apps/freqmine/src/fp_tree.cpp:966-979 | a node that did not exist has carried no weight, so the transaction's count is its whole count |
| FPTree.ReservedForNewNode | apps/freqmine/src/fp_tree.cpp:980-989 | the reservation made for a new node is 1 cell when it continues a branch and a whole branch otherwise |
| FPArray.Transform | apps/freqmine/src/fp_tree.cpp:105-175 | flattening loses nothing: from every recorded offset the array reads that node's ancestors, parent first, up to the mark, with the node's count, although each branch begins on the last cell of the branch before; all writes fit the reserved cells |
| FPArray.Descend | apps/freqmine/src/fp_tree.cpp:155-170 | one branch is written cell by cell and every node on it recorded |
| FPArray.BranchStep | apps/freqmine/src/fp_tree.cpp:155-167 | recording one node below the cells written so far keeps all earlier readings |
| FPArray.LeafStep | apps/freqmine/src/fp_tree.cpp:136-146 | a leaf that ends in place is recorded with the cell that is kept for it |
| FPArray.TraversalEnds | apps/freqmine/src/fp_tree.cpp:132-173 | when the stack is empty every node has been recorded exactly once |
| FPArray.RecordedSurvives | apps/freqmine/src/fp_tree.cpp:148-154 | later writes stay below every cell that a recorded entry reads |
| FPArray.NodeArraysFit | apps/freqmine/src/fp_tree.cpp:121-124 | every item's node array gets exactly the `nodenum` entries allocated for it |
| Narrowing.Narrow | apps/freqmine/src/fp_tree.cpp:421-426 | rewriting the array in place with narrower cells keeps the low bytes of every cell, though it reads what it overwrites |
| Narrowing.PrefixesSurvive | apps/freqmine/src/fp_tree.cpp:1334-1340 | after narrowing, a prefix of items below the new mark is read from the same offset and ends at the new mark |
| Narrowing.Store | apps/freqmine/src/fp_tree.cpp:105-175 | the array in memory: cell i holds the remainder that the cast to the cell type leaves, in little-endian bytes |
| Narrowing.ReducedIsFlattened | apps/freqmine/src/fp_tree.cpp:1334-1340 | cutting the cells down to remainders by m leaves a flattened array for all items up to the mark m - 1, since prefixes hold smaller items only |
| Narrowing.NarrowArray | apps/freqmine/src/fp_tree.cpp:421-426 | narrowing a flattened array in place leaves a flattened array for the items that are still to be mined, under the new mark |
| PatternBase.NodesCoverItem | apps/freqmine/src/fp_tree.cpp:291-314 | the nodes of an item stand for exactly the transactions that contain it |
| PatternBase.CondBaseSupport | apps/freqmine/src/fp_tree.cpp:288-331 | the conditional pattern base of x gives every set below x the support it has together with x |
| PatternBase.BaseIsReadable | apps/freqmine/src/fp_tree.cpp:301-312 | no item of a prefix that is read equals the mark, and the prefix is increasing and below the item |
| PatternBase.CountSupports | apps/freqmine/src/fp_tree.cpp:301-313 | the array loop computes the supports of all items in the pattern base |
| PatternBase.Collect | apps/freqmine/src/fp_tree.cpp:315-329 | exactly the frequent items are collected, in order, and the others are marked -1 |
| Itemsets.BaseSupport | apps/freqmine/src/fp_tree.cpp:288-331 | mining the base of an item is mining the database for sets with that item, for every database |
| DescendingSort.Sort | apps/freqmine/src/fp_tree.cpp:461-475 | for every length the pairs come out in descending order of count and rearranged within the range only, provided the slot left of the range holds nothing smaller |
| DescendingSort.Partition | apps/freqmine/src/fp_tree.cpp:438-449 | partition splits the range at the pivot although it may read and swap back the slot left of it |
| DescendingSort.InsertionSort | apps/freqmine/src/fp_tree.cpp:451-459 | short ranges are sorted by insertion, pairs together |
| DescendingSort.BothSidesSorted | apps/freqmine/src/fp_tree.cpp:468-473 | two sorted sides around a pivot that bounds them are sorted as a whole |
| DescendingSort.RearrangedKeepsDomination | apps/freqmine/src/fp_tree.cpp:461-475 | what dominates a range from the left still does after the range is rearranged |
| CondTree.SortItems | apps/freqmine/src/fp_tree.cpp:1186-1199 | sorting renumbers the frequent items by descending support, names and counts together |
| CondTree.SortedIsRenumbered | apps/freqmine/src/fp_tree.cpp:1192-1199 | a descending rearrangement of the (count, name) pairs is a renumbering of the frequent items |
| CondTree.FillCount | apps/freqmine/src/fp_tree.cpp:1030-1042 | the marked items come out in increasing order, each once, and every mark up to the largest item is cleared |
| CondTree.BuildTree | apps/freqmine/src/fp_tree.cpp:333-419 | the conditional tree holds the pattern base with infrequent items dropped and the rest renumbered |
| CondTree.Compact | apps/freqmine/src/fp_tree.cpp:355-381 | one read prefix becomes the increasing list of new numbers of its frequent items, and the marks are clear again for the next prefix |
| CondTree.HoldsOneMore | apps/freqmine/src/fp_tree.cpp:333-419 | inserting one recoded transaction keeps that correspondence |
| SinglePath.IsSinglePath | apps/freqmine/src/fp_tree.cpp:1238-1245 | the test along first children succeeds if and only if every node of the whole tree but the root is the only child of the node before it |
| SinglePath.ChainTransactions | apps/freqmine/src/fp_tree.cpp:1405-1410 | in a chain tree every transaction is an initial part of the item order |
| SinglePath.CountingSupport | apps/freqmine/src/fp_tree.cpp:1513-1516 | in such a database the support of a set is the support of its largest item |
| Miner.FPMiner.TreatItem | apps/freqmine/src/fp_tree.cpp:1457-1526 | one item of the header: itself and all frequent sets that end in it are reported, each once |
| Miner.FPMiner.MineBelow | apps/freqmine/src/fp_tree.cpp:1457-1526 | the work below one item: the frequent sets of its pattern base are reported, each once with the item added to it and with its support together with the item |
| Miner.FPMiner.FPGrowth | apps/freqmine/src/fp_tree.cpp:1431-1528 | for every tree and threshold of at least 1 every frequent set is reported once with its support, and `ITlen` grows by the numbers of sets of each size; the recursion ends because item numbers shrink |
| Miner.FPMiner.MineRange | apps/freqmine/src/fp_tree.cpp:1457-1526 | the mining loop over a range of items, last first, extends what has been found above the range by every frequent set whose largest item is in it |
| Miner.FPMiner.FPGrowthFirst | apps/freqmine/src/fp_tree.cpp:1290-1429 | the first level, on bytes: through all three rounds with their changes of cell type every frequent set is reported once with its support, as by FPGrowth |
| Miner.Retype | apps/freqmine/src/fp_tree.cpp:1326-1340 | the array always has the cell type that the round's conversion reads it with, and serves the items of the round afterwards |
| Miner.FPMiner.Powerset | apps/freqmine/src/fp_tree.cpp:1215-1236 | a chain's subsets are reported each once, with the count of the deepest item |
| Miner.TallySubsets | apps/freqmine/src/fp_tree.cpp:1511-1516 | the running `temp*i2/i1` always divides exactly and gives the number of subsets of each size |
| FrequentSets.ChooseStep | apps/freqmine/src/fp_tree.cpp:1513-1515 | the recurrence of that loop is the one of binomial coefficients |
| FrequentSets.SubsetsCount | apps/freqmine/src/fp_tree.cpp:1511-1518 | the number of subsets of size m is the binomial coefficient |
| FrequentSets.SubsetsMembers | apps/freqmine/src/fp_tree.cpp:1215-1231 | the recursion over a chain yields every subset and no other |
| FrequentSets.OneMoreItem | apps/freqmine/src/fp_tree.cpp:1457-1526 | frequent sets with largest item i are i alone and i with the frequent sets of its base |
| FrequentSets.RenumberedEnumeration | apps/freqmine/src/fp_tree.cpp:1498-1523 | an enumeration in the conditional tree's numbers is one in the old numbers |
| Miner.PathSubsets | apps/freqmine/src/fp_tree.cpp:1505-1519 | on a chain all subsets are exactly the frequent sets |
| Miner.MinedReportsAll | apps/freqmine/src/fp_tree.cpp:1431-1528 | an enumeration that is reported names every frequent set once, in item names, with its true support |
| Miner.MineDatabase | apps/freqmine/src/fp_tree.cpp:1290-1528 | end to end: the tree built from any well-formed database is mined completely, and the length counts agree with the reports |
| Arena.RoundedIsAligned | apps/freqmine/src/buffer.cpp:108 | rounding reaches a multiple of 4, and of MULTOF = 8 if and only if the size without its two low bits is one, which fails for size 4; the comment in the source promises 8 always |
| Arena.Memory.Newbuf | apps/freqmine/src/buffer.cpp:100-119 | a block is cut that is in bounds, disjoint from all live blocks and behind every mark, also when `markcount` points behind the last buffer; a request for no bytes cuts none and never fails |
| Arena.Memory.Switchbuf | apps/freqmine/src/buffer.cpp:121-157 | a new buffer has room for the request and disturbs no live block |
| Arena.Memory.SizesGrow | apps/freqmine/src/buffer.cpp:133-142 | later buffers are no smaller, at least BUFS_BIG from BUFSBSWITCH on and at most 2048 times that |
| Arena.Memory.Bufmark | apps/freqmine/src/buffer.cpp:159-166 | all blocks cut so far lie before the mark |
| Arena.Memory.Freebuf | apps/freqmine/src/buffer.cpp:174-196 | the blocks left are exactly those that were live when the mark was set |
| NodeRelease.StepKeepsInv | apps/freqmine/src/fp_tree.cpp:1247-1266 | a thread's status stays above the items it mines or may still get, and every scan stays at least every status it has passed, with stale reads |
| NodeRelease.NeverReleasedTooEarly | apps/freqmine/src/fp_tree.cpp:1247-1266 | in every run, an item that is being mined or has not been handed out has not been released |
| MiningOrder.EveryItemIsTaken | apps/freqmine/src/fp_tree.cpp:1343-1368 | in every run the items are taken from the last to the first, each by one thread and once |
| NodeArrays.Allocate | apps/freqmine/src/fp_tree.cpp:203-207 | each node array is cut right after its mark and has room for its pairs, so the marks tell which arrays came before |
| NodeArrays.Release | apps/freqmine/src/fp_tree.cpp:1256-1263 | the critical section leaves exactly the arrays of the items below the new position live |
| NodeArrays.FollowRun | apps/freqmine/src/fp_tree.cpp:1247-1266 | in every run and after every step the memory holds exactly the arrays that are not released, and every array whose item is being mined or not handed out is live |
| NodeArrays.MineAndRelease | apps/freqmine/src/fp_tree.cpp:1247-1266 | the same from the allocation on, for every list of array sizes, unless the buffers are used up |
| GaussJordan.Gaussj | apps/swaptions/src/nr_routines.c:58-119 | for all sizes: it solves exactly when the matrix is nonsingular; then b holds the solutions and a the two-sided inverse; the report Singular Matrix-1 never happens |
| GaussJordan.FindPivot | apps/swaptions/src/nr_routines.c:71-84 | the search finds the largest entry among unpivoted rows and columns |
| GaussJordan.Reduce | apps/swaptions/src/nr_routines.c:95-109 | one pivot step on both matrices, in place |
| GaussJordan.PivotStep | apps/swaptions/src/nr_routines.c:95-109 | the in-place step is a pivot step on the full tableau, with pivoted columns as unit columns |
| GaussJordan.SwapStep | apps/swaptions/src/nr_routines.c:85-90 | exchanging rows is an exchange of rows of the full tableau and of the column order of the inverse |
| GaussJordan.PivotKeepsElimination | apps/swaptions/src/nr_routines.c:91-110 | every step keeps the solution space of the original system |
| GaussJordan.Unscramble | apps/swaptions/src/nr_routines.c:111-115 | undoing the column exchanges in reverse order restores the order of the inverse |
| GaussJordan.SolutionsSolve | apps/swaptions/src/nr_routines.c:70-110 | after elimination the right-hand sides solve the original system |
| GaussJordan.RightInverse | apps/swaptions/src/nr_routines.c:58-115 | the unscrambled matrix is a right inverse |
| GaussJordan.LeftInverse | apps/swaptions/src/nr_routines.c:58-115 | and a left inverse |
| GaussJordan.EliminatedIsRegular | apps/swaptions/src/nr_routines.c:70-110 | a matrix that could be eliminated is nonsingular |
| GaussJordan.StuckIsSingular | apps/swaptions/src/nr_routines.c:93-94 | a zero pivot shows a nonzero vector that the matrix sends to zero |
| OctreeCoords.SubIndex | apps/barnes/src/load.c:413-433 | the loop computes the child number of the three coordinate bits |
| OctreeCoords.IndexInjective | apps/barnes/src/load.c:413-433 | different bits go to different children |
| OctreeCoords.BoxIsCube | apps/barnes/src/load.c:324-375 | two bodies follow the same path exactly when they share a cube of the grid |
| Octree.AddLeafKeepsTree | apps/barnes/src/load.c:337-346 | hanging a leaf into an empty slot keeps the tree |
| Octree.AddBodyKeepsTree | apps/barnes/src/load.c:360-366 | so does adding a body to a leaf with room |
| Octree.SplitKeepsTree | apps/barnes/src/load.c:529-581 | so does splitting a full leaf, whose node is used again for the first body |
| Octree.SplitHolds | apps/barnes/src/load.c:538-580 | the split loses no body and adds none |
| Octree.Distribute | apps/barnes/src/load.c:549-579 | the loop sorts the bodies into children by their coordinate bits |
| OctreeLoad.StepKeepsInv | apps/barnes/src/load.c:330-377 | every step of any thread keeps: paths match coordinate bits, leaves hold at most 10 bodies, each body is in at most one leaf, locks are exclusive, and a thread descends into cells only |
| OctreeLoad.RunKeepsInv | apps/barnes/src/load.c:330-377 | hence all of that in every interleaving |
| OctreeLoad.SlotsOnlyAdvance | apps/barnes/src/load.c:334-358 | over a run a child slot only goes from empty to leaf to cell |
| OctreeLoad.EnoughLevels | apps/barnes/src/load.c:331-333 | for bodies of which at most ten agree in all digits save the last the level never runs out |
| OctreeLoad.Exclusive | apps/barnes/src/load.c:336-369 | no two threads hold the same cell's lock |
| OctreeLoad.SomeoneCanStep | apps/barnes/src/load.c:330-377 | there is no deadlock: while a thread is unfinished, some thread can step |
| OctreeLoad.StepLowersRank | apps/barnes/src/load.c:371-376 | a thread's own step lowers its rank, with the level bit as the outer measure |
| OctreeLoad.RunsEnd | apps/barnes/src/load.c:330-377 | the total rank bounds the length of every run |
| OctreeLoad.LoadCompletes | apps/barnes/src/load.c:323-380 | when nobody can step every body is in exactly one leaf, and the leaf's box contains it |
| HackCofm.StepKeepsInv | apps/barnes/src/load.c:441-527 | every step of any processor keeps: a flag is set exactly from the node's completion to its parent's reading, and completed nodes have their sums |
| HackCofm.Accumulated | apps/barnes/src/load.c:493-505 | adding a flagged child extends the sums over the children by that child, cost, mass and moment |
| HackCofm.OtherKid | apps/barnes/src/load.c:496-503 | a flag that a processor has seen is not taken away by another before it is used |
| HackCofm.CompletedSums | apps/barnes/src/load.c:456-526 | when all are through, every node has the cost, the mass and the centre of mass of the bodies below it, and only the root is still flagged |
| HackCofm.CentresBalance | apps/barnes/src/load.c:456-526 | when all are through, every node's cost and mass are the plain sums over the bodies below it, and its position is the point about which they balance: the sum of mass times distance from it is 0 |
| HackCofm.LastOneCanStep | apps/barnes/src/load.c:487-498 | the last made unfinished cell finds all its children done |
| HackCofm.SomeoneCanStep | apps/barnes/src/load.c:452-526 | the spinning cannot deadlock, for every tree and distribution of cells in which children are made after parents |
| HackCofm.RunsEnd | apps/barnes/src/load.c:456-526 | the number of non-spinning steps is bounded by the work at the start |
| Costzones.EveryRowIsGood | apps/barnes/src/code.c:153-188 | every row of Child_Sequence is a permutation of the eight children |
| Costzones.WalkMeetsAll | apps/barnes/src/code.c:1248-1259 | in every direction the walk meets exactly the bodies below the node, each once, and its total is the node's cost |
| Costzones.Processor.FindMyBodies | apps/barnes/src/code.c:1226-1260 | despite skipping and early ends a processor collects exactly the bodies whose place in the running cost lies between its cuts, in order |
| Costzones.Processor.FindInCell | apps/barnes/src/code.c:1248-1259 | the loop over children with both guards collects the zone of the cell |
| Costzones.ZoneBefore | apps/barnes/src/code.c:1252 | a subtree that ends before the lower cut holds nothing of the zone |
| Costzones.CutsJoin | apps/barnes/src/code.c:934-937 | the zones start at 0, join without gap or overlap and end behind the total cost |
| Costzones.OneOwner | apps/barnes/src/code.c:934-937 | every place in the running cost belongs to exactly one processor |
| Costzones.InZone | apps/barnes/src/code.c:1234-1246 | a body of the walk is in a zone exactly when its place is between the cuts |
| Costzones.ZonesCover | apps/barnes/src/code.c:1226-1260 | the zones of all processors, one after the other, are the walk |
| Costzones.Partition | apps/barnes/src/code.c:934-954 | for every tree with correct costs and every number of processors, every body is given to exactly one processor |
| Costzones.ZonesAreEven | apps/barnes/src/code.c:934-937 | the cost of every processor's bodies differs from the average by less than the greatest cost of a body and a unit of rounding |
| SpaceCurve.CornersGiveIndex | apps/barnes/src/load.c:413-433 | child i lies in the halves of the cell whose bits subindex numbers i |
| SpaceCurve.FaceNeighboursIs | apps/barnes/src/load.c:413-433 | two children share a face exactly when their coordinate bits differ along one axis |
| SpaceCurve.EveryRowIsConnected | apps/barnes/src/code.c:153-188 | children next to each other in a row of Child_Sequence share a face |
| SpaceCurve.UnitApartIs | apps/barnes/src/code.c:190-257 | two of the sixty-four boxes two levels down share a face exactly when they are one unit apart along one axis |
| SpaceCurve.LinkedExactly | apps/barnes/src/code.c:190-257 | one level further down the last box of a child and the first of the next share a face too, except at sixteen places in four rows of Direction_Sequence |
| ParsecBarrier.StepKeepsInv | apps/fluidanimate/src/parsec_barrier.cpp:127-208 | every critical section keeps the barrier's invariant, spurious wake-ups and the spinning variant included |
| ParsecBarrier.RunKeepsInv | apps/fluidanimate/src/parsec_barrier.cpp:127-208 | in every run, with any number of threads and rounds: nobody leaves before max have arrived, every finished round let exactly max threads pass and gave one the serial value, and nobody sleeps on a condition that already holds |
| ParsecBarrier.NoOvertaking | apps/fluidanimate/src/parsec_barrier.cpp:133-168 | an arrival is counted only while the open round has let nobody go |
| ParsecBarrier.StuckOnlyForWantOfCallers | apps/fluidanimate/src/parsec_barrier.cpp:137-198 | if nobody can go on, the arrival phase is open and all that is missing are callers |
| ParsecBarrier.EqualCallersFinishTogether | apps/fluidanimate/src/parsec_barrier.cpp:127-208 | max threads with equally many calls take part in every round and can only stop when all calls have returned |
| ParsecBarrier.ActLowersEffort | apps/fluidanimate/src/parsec_barrier.cpp:127-208 | every step that a thread makes by itself lowers the remaining effort, going back to sleep included |
| ParsecBarrier.ActionsAreBounded | apps/fluidanimate/src/parsec_barrier.cpp:127-208 | in every run the threads' own steps number at most 3 * (n + 1) times the calls, plus the wake-ups out of turn: without endless spurious wake-ups or polling every run stops |
| CycleBarrier.StepKeepsInv | apps/barnes/src/load.c:85-116 | with at most NPROC threads every critical section keeps: the flag a waiter remembers equals the present one exactly while its round is open |
| CycleBarrier.RunKeepsInv | apps/barnes/src/load.c:85-116 | hence in every run of at most NPROC threads nobody leaves more often than anybody has come, and nobody sleeps through the end of its round |
| CycleBarrier.EqualCallersFinish | apps/barnes/src/load.c:85-116 | NPROC threads with equally many calls can only stop when all have returned |
| CycleBarrier.SafeExactly | apps/barnes/src/load.c:85-116 | for every NPROC, number of threads and number of calls of at least one: the barrier property holds in every state of every run if and only if there are at most NPROC threads |
| CycleBarrier.TooManyOvertake | apps/barnes/src/load.c:85-116 | for every number of threads above NPROC some run lets a thread leave before another has come |
| CycleBarrier.TooManyLose | apps/barnes/src/load.c:92-102 | for every number of threads above NPROC >= 2 with two calls or more, the flag can flip twice before a waiter looks, which then sleeps after its round is over |
| CycleBarrier.TooFewWait | apps/barnes/src/load.c:85-116 | for every number of threads below NPROC some run stops with every thread waiting |
| CycleBarrier.FinishesExactly | apps/barnes/src/load.c:85-116 | among at most NPROC threads, every run that stops has served all calls if and only if there are exactly NPROC |
| AtomicSwap.StepKeepsInv | apps/canneal/src/AtomicPtr.h:123-158 | every checked-out slot has exactly one holder, and calls are in lawful states |
| AtomicSwap.StepRefines | apps/canneal/src/AtomicPtr.h:226-276 | every step either changes no meaning of any slot or exchanges the two slots of one call, at the write to the higher slot |
| AtomicSwap.RunIsSequential | apps/canneal/src/AtomicPtr.h:226-276 | a run has the meanings that its effects give one after the other |
| AtomicSwap.RunPermutes | apps/canneal/src/AtomicPtr.h:226-276 | slots and values in hand together are always a permutation of the start |
| AtomicSwap.QuietRunIsSequential | apps/canneal/src/AtomicPtr.h:226-276 | when nobody is in mid-swap the slots are what the completed swaps make of the start |
| AtomicSwap.EachCallOnce | apps/canneal/src/AtomicPtr.h:226-276 | a step that takes effect is credited once to the call that made it, and other steps to nobody |
| AtomicSwap.CreditsAddUp | apps/canneal/src/AtomicPtr.h:226-276 | over every run the number of swaps that took effect is the sum over all threads of the calls that report success or are about to |
| AtomicSwap.HolderCanStep | apps/canneal/src/AtomicPtr.h:123-158 | waiting goes to higher addresses only, so whoever holds a slot leads to a thread that can step |
| AtomicSwap.SomeoneCanStep | apps/canneal/src/AtomicPtr.h:226-276 | hence no deadlock |
| AtomicSwap.HeadwayIsBounded | apps/canneal/src/AtomicPtr.h:123-158 | failed compare-and-sets included, the steps other than looking at a slot in use are bounded by the work at the start, in every run: no two threads make each other fail for ever |
| AtomicSwap.AllCallsReturn | apps/canneal/src/AtomicPtr.h:226-276 | when no thread can make headway every call has returned |
| AtomicSwap.CallsInOrder | apps/canneal/src/AtomicPtr.h:226-276 | in every state of every run a thread has worked off its list of calls in order, one result each, and every call that is not a try has reported true |
| AtomicSwap.EffectsAreReported | apps/canneal/src/AtomicPtr.h:226-276 | in every run a thread's own effects are, in order, exactly the calls of its list that report true |
| AtomicSwap.AllCallsServed | apps/canneal/src/AtomicPtr.h:226-276 | when all calls have returned, the effects of the run as a multiset are the calls that report true, every Swap among them, and the slots are the start with these swaps performed one after the other |
| AtomicSwap.UndisturbedSucceeds | apps/canneal/src/AtomicPtr.h:226-276 | a call, TrySwap included, that finds both slots free while nobody else writes them reports true, and the two pointers have changed places |
| Ebml.ReadBack | apps/x264/src/matroska.c:225-235 | reading k big-endian bytes gives the number modulo 256^k, negative numbers included |
| Ebml.SignedReadBack | apps/x264/src/matroska.c:237-251 | reading two's complement bytes gives back the number |
| Ebml.UIntLenIsLeast | apps/x264/src/matroska.c:230-231 | the unsigned length is the shortest that holds the number |
| Ebml.SIntLenIsLeast | apps/x264/src/matroska.c:242-247 | so is the signed length |
| Ebml.IdReadBack | apps/x264/src/matroska.c:108-118 | an element ID is read back, whatever follows |
| Ebml.SizeReadBack | apps/x264/src/matroska.c:120-140 | a data size below 2^32 is read back, never as an unknown size |
| Ebml.ElementReadBack | apps/x264/src/matroska.c:209-223 | an element is read back and leaves what follows |
| Ebml.AllReadBack | apps/x264/src/matroska.c:209-251 | so is a sequence of elements |
| MatroskaWriter.SIntSize | apps/x264/src/matroska.c:288-300 | the loop computes the least length, so bgsize can rely on it |
| MatroskaWriter.Context.WriteID | apps/x264/src/matroska.c:108-118 | appends the encoding of the ID |
| MatroskaWriter.Context.WriteSize | apps/x264/src/matroska.c:120-140 | appends the encoding of the size |
| MatroskaWriter.Context.WriteUInt | apps/x264/src/matroska.c:225-235 | the skipping loop appends the shortest unsigned element |
| MatroskaWriter.Context.WriteSInt | apps/x264/src/matroska.c:237-251 | the skipping loop appends the shortest signed element |
| MatroskaWriter.Writer.CreateContext | apps/x264/src/matroska.c:57-82 | a context from the free list is empty and shared with nobody |
| MatroskaWriter.Writer.CloseContext | apps/x264/src/matroska.c:171-189 | the parent gets ID, size and data of the context, which goes back to the free list empty; the offset is that of the data |
| MatroskaWriter.GroupSizeIsRight | apps/x264/src/matroska.c:433-438 | bgsize, computed ahead, is the length of the block group's children |
| MatroskaWriter.Writer.WriteBlock | apps/x264/src/matroska.c:433-455 | the bytes written are one well-formed block group element |
| MatroskaWriter.Writer.NearCluster | apps/x264/src/matroska.c:418-431 | the delta fits 16 bits and cluster time plus delta is the scaled frame time, in the old cluster or a new one |
| MatroskaWriter.Writer.FlushFrame | apps/x264/src/matroska.c:410-464 | the frames of the document grow by exactly the pending frame |
| MatroskaWriter.Writer.WriteHeader | apps/x264/src/matroska.c:327-399 | a first call appends the header to the file at any time, also behind clusters; a second call changes nothing and fails; that the header can be read and fits the blocks is MatroskaFormat.EbmlIsReadable and TrackIsVideo |
| MatroskaWriter.Writer.StartFrame | apps/x264/src/matroska.c:466-474 | acts on the recording as the specification does |
| MatroskaWriter.Writer.SetFrameFlags | apps/x264/src/matroska.c:476-487 | likewise, with the latest time kept; refused outside a frame |
| MatroskaWriter.Writer.AddFrameData | apps/x264/src/matroska.c:489-498 | likewise; refused outside a frame |
| MatroskaWriter.Writer.Close | apps/x264/src/matroska.c:500-514 | a reader that checks versions, ID and size limits, the track's type and that every block belongs to it decodes header, duration and exactly the recorded frames from the file if and only if no cluster was in it before the header |
| MatroskaWriter.Record | apps/x264/src/matroska.c:302-514 | for every header and every sequence of calls with nonnegative times, what such a reader decodes from the file is the header and the frames that were recorded |
| Recording.FrameOfCalls | apps/x264/src/matroska.c:466-498 | what was recorded, from the calls alone: between two calls of mk_startFrame a frame gets all the data in order and the last flags, and no key flag without flags |
| Recording.LatestIsGreatest | apps/x264/src/matroska.c:476-487 | the time that the duration is computed from is the greatest that was set for a frame |
| Recording.ScaledIs | apps/x264/src/matroska.c:418-423 | a scaled time is the number of whole units of the time scale in the time |
| MatroskaWriter.AlwaysChained | apps/x264/src/matroska.c:435-438 | every ReferenceBlock points to the time of the frame before |
| MatroskaFormat.BlockReadBack | apps/x264/src/matroska.c:440-455 | a block group is decoded to its delta, reference and data |
| MatroskaFormat.ClusterReadBack | apps/x264/src/matroska.c:422-461 | a cluster is decoded to its time and blocks |
| MatroskaFormat.MovieReadBack | apps/x264/src/matroska.c:327-464 | a whole document is decoded from its bytes, through the segment of unknown size, by a reader that takes the track number from the track entry and rejects other blocks, tracks that are not video, and versions or limits it cannot read |
| MatroskaFormat.EbmlIsReadable | apps/x264/src/matroska.c:344-352 | the EBML header asks for a reader of version 1 with IDs of 4 and sizes of 8 bytes, and its document type is matroska |
| MatroskaFormat.TrackIsVideo | apps/x264/src/matroska.c:372-375 | the track entry declares an unlaced video track under the number that the blocks carry |
| MatroskaFormat.MuxerIs | apps/x264/src/matroska.c:361 | the muxer's name is the one in the source |
| MatroskaFormat.DurationIsThere | apps/x264/src/matroska.c:365-366 | duration_ptr addresses exactly the four duration bytes, and overwriting them changes nothing else |
| MatroskaWriter.LateHeaderIsLost | apps/x264/src/matroska.c:365-366 | with clusters in front of the header, a file whose bytes at duration_ptr are overwritten does not decode |
| MatroskaWriter.RecordLate | apps/x264/src/matroska.c:302-514 | that happens from public calls alone: two frames more than 16 bits apart, a header and a close give a file from which nothing is decoded |
| Rabin.MulXLinear | apps/dedup/src/rabin.c:24-35 | reduction is linear over exclusive or |
| Rabin.Fpreduce | apps/dedup/src/rabin.c:24-35 | the loop multiplies by X^32 modulo X^32 + irr |
| Rabin.TableStep | apps/dedup/src/rabin.c:81-86 | one table lookup replaces eight steps of the division |
| Rabin.Fpwinreduce | apps/dedup/src/rabin.c:45-54 | the loop moves a byte on by winlen - 1 bytes, and not at all for a winlen of 1 or less |
| Rabin.Fpmkwinredtab | apps/dedup/src/rabin.c:56-62 | fills the window table with those values |
| Rabin.Slide | apps/dedup/src/rabin.c:89-95 | taking the oldest byte out and a new one in gives the fingerprint of the moved window |
| Rabin.RolledIsWindow | apps/dedup/src/rabin.c:81-98 | with a window table made for the window, h is at every step the fingerprint of the last 32 bytes and of nothing else |
| Rabin.RollingIsRightIff | apps/dedup/src/rabin.c:45-98 | that holds for all inputs if and only if the window table multiplies by X^248 |
| RabinCuts.CutsAreRightIff | apps/dedup/src/rabin.c:45-100 | for an odd polynomial the cuts of all inputs are those of the window fingerprints if and only if the window table multiplies by X^248 |
| RabinCuts.DifferenceMoves | apps/dedup/src/rabin.c:89-95 | the distance between rolling value and window fingerprint grows by what the table leaves of the byte that goes out, times X^8 |
| RabinCuts.ShortWindowsCutWrong | apps/dedup/src/turkey/encoder.cpp:643-644 | no window length below 32 makes the right cuts, and so not the 0 that the encoder passes to rabininit |
| RabinCuts.EncoderMissesCut | apps/dedup/src/turkey/encoder.cpp:643-644 | for the encoder's table and a 1 followed by 33 zeros the window cuts at 33 and rabinseg does not |
| Rabin.Rabinseg | apps/dedup/src/rabin.c:72-100 | returns the first position from 32 on whose rolling value has zero low bits, else the length; all of a short input |
| Rabin.CutsIs | apps/dedup/src/rabin.c:87 | the mask makes a cut where the fingerprint is a multiple of 4096 |
| Rabin.CutsAtWindows | apps/dedup/src/rabin.c:72-100 | with a window table made for the window the cuts are those of the window fingerprints |
| Rabin.FirstSegment | apps/dedup/src/rabin.c:64-100 | tables and search together: the least cut by the last 32 bytes |
| RabinPolynomial.FingerprintIsRest | apps/dedup/src/rabin.c:81-86 | the bytes, as a polynomial over GF(2), are a multiple of X^32 + irr plus the fingerprint |
| RabinPolynomial.OnlyOneRest | apps/dedup/src/rabin.c:24-35 | there is only one remainder of degree below 32 |
| RabinPolynomial.FingerprintIsTheRest | apps/dedup/src/rabin.c:24-98 | the fingerprint is the remainder, in both directions |
| HashTable.InPlaceIs | apps/dedup/src/hashtable.c:124-126 | every entry is in the chain whose number is its hash value modulo the length |
| HashTable.LoadLimitIs | apps/dedup/src/hashtable.c:178 | the load limit is the least integer not below 65 percent of the length |
| HashTable.Transfer | apps/dedup/src/hashtable.c:143-157 | plan A terminates, keeps the multiset of entries and puts each in bucket h mod newsize |
| HashTable.Rehash | apps/dedup/src/hashtable.c:158-176 | plan B, in place, does the same although it moves entries both ahead of and behind its walk |
| HashTable.Table.Expand | apps/dedup/src/hashtable.c:133-181 | keeps all entries by either plan; fails, changing nothing, when the table of primes or the memory is used up |
| HashTable.Table.Insert | apps/dedup/src/hashtable.c:193-223 | adds one entry, duplicates allowed |
| HashTable.Table.Search | apps/dedup/src/hashtable.c:227-242 | returns a value stored under the key, and nothing only if there is none |
| HashTable.Table.Remove | apps/dedup/src/hashtable.c:253-284 | takes exactly one entry with the key away and returns its value |
| HashTable.MapRemove | apps/dedup/src/hashtable.c:253-284 | with distinct keys removal is removal from a map |
| HashTable.Perform | apps/dedup/src/hashtable.c:69-284 | any sequence of operations with distinct keys answers like a map, through any number of expansions by either plan or none |
| RoutingCost.Netlist.constructor | apps/canneal/src/netlist.cpp:163-211 | the fanin and fanout lists are those of the same edges, and all elements are on different places |
| RoutingCost.Netlist.TotalRoutingCost | apps/canneal/src/netlist.cpp:46-59 | is the wire length with every edge once; the division by 2 is exact |
| RoutingCost.ShortestWalk | apps/canneal/src/netlist_elem.cpp:51-70 | the cost of an edge is the least number of unit grid steps between its ends |
| RoutingCost.GridAt | apps/canneal/src/netlist.cpp:163-211 | every place of the chip is taken exactly once, column by column |
| RoutingCost.EveryEdgeTwice | apps/canneal/src/netlist.cpp:46-59 | over all elements every edge is counted from both ends, self-loops included |
| RoutingCost.Netlist.SwapCost | apps/canneal/src/netlist_elem.cpp:75-99 | is the difference of the costs at the two places |
| RoutingCost.Netlist.DeltaRoutingCost | apps/canneal/src/annealer_thread.cpp:118-127 | falls short of the real change by 2 * distance * (edges between a and b - self-loops on both) |
| RoutingCost.DeltaIsOff | apps/canneal/src/annealer_thread.cpp:118-127 | the same for every list of edges |
| RoutingCost.DeltaIsExactIff | apps/canneal/src/annealer_thread.cpp:118-127 | the computed change is exact if and only if a and b have as many edges between them as self-loops |
| RoutingCost.ConnectedIsRatedTooLow | apps/canneal/src/annealer_thread.cpp:118-127 | a move of a connected pair without self-loops is always rated too low |
| RoutingCost.Netlist.Moves | apps/canneal/src/annealer_thread.cpp:68-87 | performs the loop at one temperature: a try is made exactly when its computed change, at the places before it, is a gain or chance accepts it, and then the two elements change places; good counts the gains, bad the others; wire length changes by the sum of the computed changes plus what they miss |
| RoutingCost.MovesAddUp | apps/canneal/src/annealer_thread.cpp:68-87 | over any number of moves the computed changes with that correction add up to the change of cost, and the places are permuted |
| MersenneTwister.TwistRecurs | apps/canneal/src/MersenneTwister.h:129-132 | twist is the MT19937 recurrence step |
| MersenneTwister.RecurBits | apps/canneal/src/MersenneTwister.h:126-132 | bit by bit: the joined word moves down one place and the matrix's row is added for its lowest bit |
| MersenneTwister.TemperBits | apps/canneal/src/MersenneTwister.h:186-192 | every output bit is the exclusive or of input bits that the four tempering steps prescribe |
| MersenneTwister.NextSeedWraps | apps/canneal/src/MersenneTwister.h:283-299 | a seeding step in 64-bit storage is the multiply-and-add modulo 2^32 |
| MersenneTwister.SeedsOf5489 | apps/canneal/src/MersenneTwister.h:283-299 | the first words for the seed 5489 |
| MersenneTwister.NextWord | apps/canneal/src/MersenneTwister.h:301-314 | a word depends on the words 624, 623 and 227 places before it |
| MersenneTwister.MTRand.Reload | apps/canneal/src/MersenneTwister.h:301-314 | the in-place renewal computes the next 624 words of the recurrence |
| MersenneTwister.MTRand.RandInt | apps/canneal/src/MersenneTwister.h:179-193 | returns the tempered next word, below 2^32, and pNext stays at state + N - left |
| MersenneTwister.MTRand.RandIntUpTo | apps/canneal/src/MersenneTwister.h:195-212 | returns a number of at most n, the first masked word that is; every masked word drawn before was greater than n |
| MersenneTwister.SmearCovers | apps/canneal/src/MersenneTwister.h:197-204 | the mask has all bits of n and stays below 2^32 |
| MersenneTwister.SmearIsLow | apps/canneal/src/MersenneTwister.h:197-204 | the mask is of the form 2^k - 1 |
| MersenneTwister.SmearIsTight | apps/canneal/src/MersenneTwister.h:197-204 | and no smaller one covers n |
| MersenneTwister.WordIs32 | apps/canneal/src/MersenneTwister.h:301-314 | all words of the recurrence stay below 2^32 in 64-bit storage |
| MersenneTwister.GoesOn | apps/canneal/src/MersenneTwister.h:343-361 | any 624 words in a row determine the rest |
| MersenneTwister.Draw | apps/canneal/src/MersenneTwister.h:179-221 | for every seed the k-th output is the tempered word 624 + k of the recurrence, through all reloads |
| MersenneTwister.Copy | apps/canneal/src/MersenneTwister.h:343-361 | a generator that loads what another saved goes on with the same words |
| FluidGrid.Grid.GetCell | apps/fluidanimate/src/cellpool.cpp:95-115 | hands out a chunk that is in no chain, from a new block if the pool is empty |
| FluidGrid.GrownOk | apps/fluidanimate/src/cellpool.cpp:40-75 | a new block is a well-formed free list |
| FluidGrid.ReturnedOk | apps/fluidanimate/src/cellpool.cpp:118-123 | a returned chunk is free and nothing else |
| FluidGrid.Grid.PlaceParticle | apps/fluidanimate/src/serial.cpp:167-201 | walking to the last chunk and adding there appends the particle to its cell |
| FluidGrid.Grid.AddParticle | apps/fluidanimate/src/serial.cpp:377-399 | appends through last_cells, with a new chunk exactly when the last is full |
| FluidGrid.Grid.EmptyCell | apps/fluidanimate/src/serial.cpp:333-416 | moves every particle of one old cell and gives back all its chunks but the head, each once |
| FluidGrid.Grid.RebuildGrid | apps/fluidanimate/src/serial.cpp:315-417 | every cell then holds exactly the particles whose clamped index it is, in order, in chunks of 16, with last_cells at the last chunks; no particle is lost, and every pooled chunk is free or in one chain |
| FluidGrid.TurnedOk | apps/fluidanimate/src/serial.cpp:318-330 | exchanging the arrays and clearing the new heads keeps chains and pool apart |
| FluidGrid.DestUnique | apps/fluidanimate/src/serial.cpp:377-387 | no chunk is twice in the chains |
| FluidGrid.IndexInRange | apps/fluidanimate/src/serial.cpp:341-348 | the clamped index is inside the grid |
| FluidGrid.IndexIsBox | apps/fluidanimate/src/serial.cpp:341-348 | a particle inside the domain lies in the box of its cell, and one outside goes to the nearest cell at the border |
| FluidGrid.OneBox | apps/fluidanimate/src/serial.cpp:341-348 | a cell index belongs to one box |
| FluidGrid.NoneLost | apps/fluidanimate/src/serial.cpp:333-416 | distributing particles over the cells keeps each of them once |

## Left out

- Hot items: the hot-node table of FPArray_scan2_DB is modelled for `num_hot_item = 0`; database tiling, the first threaded
  scan and OpenMP scheduling are not modelled (only the order in which items are handed out).
- FPTree.FPTree.Insert: the root of a hot node and the table of right siblings are not modelled, and nodes are numbered instead of placed in the arena.
- FPArray.Transform: its cells are integers, under the bound `itemno <= mark + 1`; Narrowing.Store casts them to bytes at the first level. The
  per-thread offsets of first_transform_FPTree_into_FPArray are not modelled.
- Miner.FPMiner.FPGrowthFirst: one thread takes the items in the order in which the schedule hands them out.
- Miner.TallySubsets: the 32-bit overflow of `temp * i2` is not modelled; the numbers are unbounded.
- Arena.Memory.Newbuf: sizes are unbounded; when the buffers are used up it fails where the program exits.
- Stacks and output: FS, the item and node stacks and the report stream are sequences, not preallocated arrays; printing is not modelled.
- GaussJordan.Gaussj: works on reals with indices from 0; rounding is not modelled. Reporting a singular matrix ends the call.
- loadtree: the search from Current_Root is left out, since line 323 resets it; running out of cells or leaves is not modelled, and
  running out of levels is excluded by the assumption that at most ten bodies agree in all digits save the last.
- Memory models: loads, stores, compare-and-swap and critical sections are atomic and sequentially consistent in all protocols.
- HackCofm: one coordinate stands for three, quadrupole moments are left out, and a child's fields are read in one step after its
  flag has been seen, which no other processor can disturb.
- Costzones.Processor.FindMyBodies: costs are fixed while bodies are partitioned and the cuts are computed over the reals; the table limit maxmybody and
  find_my_initial_bodies are left out.
- Barriers: errors of the thread library and cancellation are left out.
- AtomicSwap: memory fences and the reference-counting side of the pointers are not modelled.
- MatroskaWriter.Writer.WriteHeader: allocation and output errors are left out, and so are sizes of 2^32 and more, which the size fields
  cannot hold; the strings of the header stay below 2^28 bytes.
- Context: a context's buffer is a sequence; doubling its capacity is not modelled. Times are nonnegative, as the format demands.
- MatroskaWriter.Writer.Close: the conversion of the duration to a float is a parameter.
- Table: a chain is the sequence of its entries, keys are compared with `==`, the load limit is 65/100 rounded up instead of a float
  product, and locks, hashtable_change and hashtable_destroy are left out.
- Netlist: grid coordinates and costs are integers; SwapLocations is sequential here, its concurrent form is AtomicSwap. The choice of random
  elements and the acceptance of moves are left out.
- MersenneTwister.MTRand.RandIntUpTo: an ending draw is assumed to exist, since the loop has no bound.
- MTRand: seeding from an array, from /dev/urandom and from the clock, and the conversions to double are left out.
- Grid: the steps between rebuilds (forces, collisions, moving) and the neighbour check are left out; memory is a numbering of cells.
