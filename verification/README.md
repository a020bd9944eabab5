# Kibble: verified models of its algorithms

Dafny models of the parts of the kibble C++ library whose correctness is a global property rather than a local one, with
proofs of what those parts promise. Each module follows one component of the library and takes its form: objects that
update fields in place are classes, buffers are arrays, loops are loops with invariants, and each method is proved
against a specification whose own laws are proved beside it.

Check everything with `dafny verify dfyconfig.toml`.

| files | component | main result |
|---|---|---|
| `SearchGraph`, `Nodes`, `NodePools`, `OpenHeap`, `NodeVectors`, `AstarInvariant`, `AstarTrail`, `Astar`, `AstarDetour` | A* search | optimal and complete for every merely admissible heuristic, always ends, owns and frees every node once |
| `DenseIndex`, `DenseTable`, `DenseTableRuns` | robin-hood hash table | refines a plain map over every run; every unguarded loop ends |
| `Bezier`, `BezierPolynomial` | Bézier curves | splitting preserves the curve; integer coefficients are exact and give de Casteljau's curve |
| `UndoTimeline`, `UndoMoves`, `UndoClean`, `UndoStacks` | undo engine | the document stays on a timeline; undo and redo take each other back; when the clean mark can be trusted; notifications are complete |
| `Bytes`, `ByteStreams`, `PackArchive`, `PackStream`, `PackFiles`, `PackLayout` | pack files | from files to a pack and back, through the buffered window stream; where every byte of a pack is |
| `RankOrder`, `EventDelivery`, `EventBuses` | event bus | conservation and order of events; dispatch ends when ranks fall (a multiset-order proof) |
| `Md5`, `Md5Bits`, `Md5Vectors`, `Base64`, `Base64Vectors` | digests and text encoding | streaming MD5 is RFC 1321, Base64 is section 4 of RFC 4648 and inverts; both give the standards' test values |
| `SecurePool` | guarded handle pool | a handle is valid exactly while it is handed out and its counter fits |
| `Basics` | shared definitions | |
| `Morton`, `MortonDecode`, `MortonBits` | Morton codes | both implementations interleave; exactly which coordinates survive decoding |

## How the source is represented

**A\* search.** Nodes are named by their pool addresses, and node memory is a map from addresses to nodes. Costs are natural numbers
and the heuristic an integer; float rounding is not modelled. The search asks of its state type: an admissible heuristic
that is zero at the goal, an injective hash (the closed set compares hashes only), successors that never hold the state
itself and omit at most the parent, and a pool with one slot per reachable state and one more. The cancel callback is an
arbitrary answer per step. Start equal to goal is included: path and cost are right for states that can still be read
once destroyed, since the one node walked has been (`WalkPath`), and the destructor frees it a second time (`Destroy`).
The closed set is its dense value vector with lookup by hash.

**Hash table.** The hash is an arbitrary 64-bit function and the capacity an arbitrary number below the bucket count.
Tables have at most 2^23 buckets, so the 24-bit distance cannot wrap.

**Bézier.** A point is a real coordinate; results for vectors follow coordinate by coordinate. The factorial table has
eleven entries, which bounds the number of control points for the coefficients but not for splitting.

**Undo.** Commands are values of any type with redo, undo, merge id, merge and obsolescence as functions; the only thing
asked of a pushed command is that undoing it where it was pushed restores the document, and that merging and
obsolescence mean what the header says. The listener is a record that stores callback values.

**Packs.** A file is a byte sequence and a key a 64-bit number. `size_t` is 64 bits and the machine little-endian. The
output stream has limited room, so that failing writes are part of the model. Header checks are assertions in the
source; reading reports them as `BadHeader`.

**Event bus.** An event is a payload with its type number. A handler is a function of the event and an arbitrary world
value to a new world, a consumed flag and a list of events to enqueue, so handlers may keep any state. The clock is an
arbitrary sequence of readings. The ordered map of queues is a sequence in ascending order of types.

**MD5.** The entries of the sine table are listed, not computed from the sine; the digest of the empty message, worked
through all of them, is the known one. The word order and shift tables are proved to follow the standard. The 64-bit
length counter wraps as in the source.

**Morton.** Words are 64-bit vectors and a 32-bit word is one below 2^32. The bit-deposit and bit-extract instructions
are defined bit by bit.

## Where the code and its documentation differ

- Documentation of `subscribe` promises that of two handlers with equal priority the later one runs first; the list is
  ordered by an unstable sort, so only the order of different priorities is modelled.
- `dispatch` is said to return false when events are left; it returns false whenever the clock has passed the deadline
  after a delivery, also when nothing is left after it (`EventBuses.NothingLeft`, `EventBuses.TimedOutWithNothingLeft`).
- `process` of the digest takes any length; with an empty buffer its loop never ends from 2^32 bytes on, and with bytes
  waiting from 2^32 plus what the buffer lacks (`Md5.LoopEnds`).
- A slot of the guarded pool whose counter has reached the number of guard values is dead: handles for it are still
  handed out, but none is valid and none can be released (`SecurePool.Pool.IsValid`).
- A second `export_pack` moves offsets that the first had already moved (`PackFiles.EntryRight`).
- The table-driven decoder shifts in signed 32-bit arithmetic, so 64-bit keys restore coordinates below 2^31 and not,
  as documented, all that use the first 32 bits (`MortonDecode.RoundTrip2Wide`); the bit-extract decoder restores those.
- `is_clean` can answer true over a changed document (`UndoClean.MergeLosesMark`, `UndoClean.LimitLosesMark`).
- The Base64 decode table is indexed by a `char`; where `char` is signed a character above 127 indexes outside the
  table, and the model gives decoding no result there (`Base64.Decode`).

## Model

| member | source | states |
|---|---|---|
| `AstarSearch.Astar.Search` | source/kibble/algorithm/astar.h:248-253 | ends on every problem with finitely many reachable states; success means the reported cost is the least of all start-to-goal paths and a path exists; a cancel request at the first poll ends it at once in failure, success means that no poll was answered with one, and failure without one means that there is no path |
| `AstarSearch.Astar.Step` | source/kibble/algorithm/astar.h:317-419 | a cancelled step ends in failure and counts no step, and so does one that finds no open node; every other counts one and does not fail; it keeps the search invariant, and a step that leaves the search running lowers (undiscovered states, sum of g-scores, open nodes) lexicographically |
| `AstarSearch.Astar.WalkPath` | source/kibble/algorithm/astar.h:274-280 | the visited states are a real path from start to goal whose cost is exactly the solution cost, and no path is cheaper; the nodes read are allocated exactly when the start is not the goal |
| `AstarSearch.Astar.constructor` | source/kibble/algorithm/astar.h:200-210 | the invariant holds at the start: one open start node, one separate goal node, both allocated |
| `AstarSearch.Astar.CreateNode` | source/kibble/algorithm/astar.h:450-460 | a pool with room yields a node address that was not allocated |
| `AstarSearch.Astar.Pop` | source/kibble/algorithm/astar.h:546-552 | takes off a node of least f-score; it becomes the one being expanded |
| `AstarSearch.Astar.ProcessSuccessor` | source/kibble/algorithm/astar.h:357-414 | after handling a successor its state is known at no more than the new cost, nothing known is lost and no g-score rises; any change is progress in the measure |
| `AstarSearch.Astar.UpdateOpen` | source/kibble/algorithm/astar.h:365-378 | a cheaper way to an open node re-parents it and rebuilds the heap, keeping the invariant |
| `AstarSearch.Astar.Reopen` | source/kibble/algorithm/astar.h:380-403 | a cheaper way to a closed node moves it back to the open set, keeping the invariant although its children keep stale g-scores |
| `AstarSearch.Astar.AddSuccessor` | source/kibble/algorithm/astar.h:404-413 | a new state gets exactly one node, and the pool always has room for it |
| `AstarSearch.Astar.Expand` | source/kibble/algorithm/astar.h:352-418 | relaxing all generated successors and closing the node keeps the invariant and lowers the measure |
| `AstarSearch.Astar.Close` | source/kibble/algorithm/astar.h:416-417 | insertion in the closed set always succeeds, because no closed node has the same hash |
| `AstarSearch.Astar.ReconstructPath` | source/kibble/algorithm/astar.h:426-441 | following parents from the goal ends at the start node and threads `next` pointers along exactly that trail |
| `AstarSearch.Astar.FreeUnusedNodes` | source/kibble/algorithm/astar.h:506-526 | afterwards exactly the nodes of the solution path are allocated and both sets are empty |
| `AstarSearch.Astar.FreeAllNodes` | source/kibble/algorithm/astar.h:481-499 | on failure and on cancellation every node is given back, each once, and both sets are empty |
| `AstarSearch.Astar.DestroyEach` | source/kibble/algorithm/astar.h:483-491 | destroys each listed node once, sparing those with a `next` pointer when asked to |
| `AstarSearch.Astar.Succeed` | source/kibble/algorithm/astar.h:340-350 | taking over the goal, reconstructing and freeing leaves a cheapest path threaded and nothing else allocated |
| `AstarSearch.Astar.DestructorStart` | source/kibble/algorithm/astar.h:212-224 | the destructor meets a live start node exactly when the start state is not the goal state; otherwise one node, the goal, is still counted |
| `AstarSearch.Astar.Destroy` | source/kibble/algorithm/astar.h:212-224 | after a finished search the leak count is zero; nothing is left allocated unless the start was the goal, when the start node is freed twice, the goal node never and the free list has no end |
| `AstarInvariant.InitialInv` | source/kibble/algorithm/astar.h:200-210 | the invariant holds of the start node alone |
| `AstarInvariant.PopKeeps` | source/kibble/algorithm/astar.h:336-337 | moving a node from open to being expanded keeps the invariant |
| `AstarInvariant.RelaxKeeps` | source/kibble/algorithm/astar.h:365-403 | re-parenting and (re-)opening a node keeps parent chains acyclic and every other part of the invariant |
| `AstarInvariant.DiscoverKeeps` | source/kibble/algorithm/astar.h:404-413 | adding a node for an unseen state keeps the invariant |
| `AstarInvariant.GeneratedFor` | source/kibble/algorithm/astar.h:352-357 | a node without a parent asks for every successor; any other names its parent's state, so a generator that leaves the named parent out never leads back to it |
| `AstarInvariant.FullyExpanded` | source/kibble/algorithm/astar.h:352-357 | a generator that omits the parent still leaves every outgoing edge relaxed, since the parent is no worse off |
| `AstarInvariant.CloseKeeps` | source/kibble/algorithm/astar.h:416-417 | closing an expanded node keeps the invariant |
| `AstarInvariant.OpenBound` | source/kibble/algorithm/astar.h:317-419 | along any path from a known node to the goal some open node has an f-score no higher than that node's g-score plus the path cost, whatever admissible heuristic is used |
| `AstarInvariant.GoalIsCheapest` | source/kibble/algorithm/astar.h:336-350 | a goal node popped with least f-score costs no more than any path |
| `AstarInvariant.EmptyOpenMeansNoPath` | source/kibble/algorithm/astar.h:325-332 | an empty open set means no path exists |
| `AstarInvariant.StepDescends` | source/kibble/algorithm/astar.h:248-253 | expanding a node lowers the termination measure whatever its successors did |
| `AstarInvariant.SweepDescends` | source/kibble/algorithm/astar.h:357-418 | relaxing a list of successors and closing the node lowers the measure |
| `AstarInvariant.RoomForUnseen` | source/kibble/algorithm/astar.h:408 | while a state has no node the pool has a free slot |
| `AstarInvariant.KnownWithin` | source/kibble/algorithm/astar.h:200 | there is at most one node per state, and one more for the goal |
| `AstarInvariant.NotClosedYet` | source/kibble/algorithm/astar.h:302-308 | with an injective hash the closed set holds no node of the same hash as the node being expanded |
| `AstarSearch.Astar.Scores` | source/kibble/algorithm/astar.h:200-414 | while the search runs every f-score is the g-score plus the heuristic of the node's state |
| `AstarTrail.TrailStep` | source/kibble/algorithm/astar.h:432-437 | one more step back along parents stays on a path covered by the goal's g-score, strictly lower in (g-score, depth) |
| `AstarTrail.TrailDistinct` | source/kibble/algorithm/astar.h:432-437 | the walk back never meets a node twice, even across zero-cost edges |
| `AstarTrail.TrailIsSolution` | source/kibble/algorithm/astar.h:426-441 | the complete trail is a start-to-goal path of cost exactly the goal's g-score, although improved parents left stale scores behind |
| `AstarTrail.ReconstructStep` | source/kibble/algorithm/astar.h:432-437 | one turn of the reconstruction loop extends the threaded list by the parent and changes nothing else |
| `AstarTrail.LinkedOrNot` | source/kibble/algorithm/astar.h:508-522 | a node has a `next` pointer exactly when the trail goes on from it |
| `AstarTrail.TrailRemains` | source/kibble/algorithm/astar.h:506-526 | what remains after destroying the popped node and all unlinked nodes is the trail |
| `AstarTrail.WalkSolves` | source/kibble/algorithm/astar.h:274-280 | the list walked from the start node is a cheapest path |
| `AstarDetour.DetourWellPosed` | source/kibble/algorithm/astar.h:352-357 | a problem with an inconsistent heuristic whose generator drops the named parent meets all that is asked of a problem |
| `AstarDetour.FindDetour` | source/kibble/algorithm/astar.h:380-403 | on it, where a state is closed at cost 3 before the way at cost 2 is seen, the search succeeds at cost 12 along the one cheapest path |
| `NodePools.NodePool.constructor` | source/kibble/algorithm/astar.h:41-56 | all slots are on the free list, in ascending order |
| `NodePools.NodePool.Allocate` | source/kibble/algorithm/astar.h:63-76 | hands out the first slot of the free list, never a live one, or null exactly when the list is empty |
| `NodePools.NodePool.Deallocate` | source/kibble/algorithm/astar.h:78-85 | a live address is no longer live and heads the free list; giving back any other closes the free list into a ring |
| `NodePools.DoubleFree` | source/kibble/algorithm/astar.h:78-85 | a slot given back twice leads to itself, so no list of slots describes the free list any more |
| `NodePools.NodePool.HasRoom` | source/kibble/algorithm/astar.h:63-69 | a pool with fewer live nodes than slots never returns null |
| `NodePools.NodePool.CountIsLive` | source/kibble/algorithm/astar.h:87-90 | the allocation count is the number of live nodes |
| `OpenHeap.PushHeap` | source/kibble/algorithm/astar.h:534-538 | the vector is a heap again, over the same nodes |
| `OpenHeap.PopHeap` | source/kibble/algorithm/astar.h:546-552 | the popped node has the least f-score and the rest is a heap of the other nodes |
| `OpenHeap.MakeHeap` | source/kibble/algorithm/astar.h:561-564 | any vector becomes a heap over the same nodes |
| `OpenHeap.FrontIsLeast` | source/kibble/algorithm/astar.h:284-290 | the front of a heap is its least key |
| `NodeVectors.FindState` | source/kibble/algorithm/astar.h:573-579 | finds an open node with the given state, or shows there is none |
| `NodeVectors.FindHash` | source/kibble/algorithm/astar.h:588-592 | finds a closed node with the given hash, or shows there is none |
| `DenseTableRuns.Run` | source/kibble/util/unordered_dense.h:1172-1344 | any run, however long, of find, try_emplace, emplace, insert_or_assign, erase by key or position, clear and rehash answers exactly as a plain map and keeps the pairs in the order of a simple list, as long as no new key is inserted into a table full at its largest size |
| `DenseTableRuns.Perform` | source/kibble/util/unordered_dense.h:1172-1344 | one operation changes the pairs and answers as the simple list does; only inserting a new key and rehashing ask for room |
| `DenseTableRuns.StepAgrees` | source/kibble/util/unordered_dense.h:1172-1344 | one step of the list is the same step of the map it stands for |
| `DenseTableRuns.RunAgrees` | source/kibble/util/unordered_dense.h:1172-1344 | every run of the list is the run of the map, positions read as the keys found there |
| `DenseTableRuns.SmallRunsFit` | source/kibble/util/unordered_dense.h:1102-1105 | a run by keys fits whenever the plain map it stands for stays below the capacity |
| `DenseTable.Table.TryEmplaceProbe` | source/kibble/util/unordered_dense.h:1270-1292 | the probe finds the key or ends ahead of a bucket without having passed the key |
| `DenseTable.Table.EmplaceProbe` | source/kibble/util/unordered_dense.h:1787-1801 | the same for the probe made after the pair was appended |
| `DenseTable.Table.EraseProbe` | source/kibble/util/unordered_dense.h:1217-1229 | the two phases of the probe find the bucket of the key or show it absent |
| `DenseTable.Table.Find` | source/kibble/util/unordered_dense.h:1296-1344 | the unrolled probe returns the position of the key, and the end exactly when no value has it |
| `DenseTable.Table.TryEmplace` | source/kibble/util/unordered_dense.h:1268-1293 | inserts exactly when the key is absent; the contents are the old map with the pair added |
| `DenseTable.Table.Emplace` | source/kibble/util/unordered_dense.h:1781-1816 | the same result although the pair is appended first and popped when the key turns out to be present |
| `DenseTable.Table.InsertOrAssign` | source/kibble/util/unordered_dense.h:1235-1244 | the key maps to the new value, all other keys as before |
| `DenseTable.Table.EraseKey` | source/kibble/util/unordered_dense.h:1210-1232 | removes exactly that key and counts it; the last pair takes its place |
| `DenseTable.Table.EraseAt` | source/kibble/util/unordered_dense.h:1866-1879 | removes the pair at a position, found by an unguarded scan for its number |
| `DenseTable.Table.DoErase` | source/kibble/util/unordered_dense.h:1172-1207 | backward shift and swap with the last value remove exactly the entry of that bucket |
| `DenseTable.Table.ScanFor` | source/kibble/util/unordered_dense.h:1197-1203 | the scan by value index ends, and at the right bucket |
| `DenseTable.Table.PlaceAndShiftUp` | source/kibble/util/unordered_dense.h:1055-1064 | ends at the first empty bucket; every bucket of the run has moved up by one |
| `DenseTable.Table.ShiftDownFrom` | source/kibble/util/unordered_dense.h:1176-1184 | ends behind the run; every displaced bucket has moved down by one |
| `DenseTable.Table.NextWhileLess` | source/kibble/util/unordered_dense.h:1041-1053 | stops where the probe is no longer behind, without having passed the key's bucket |
| `DenseTable.Table.FillBucketsFromValues` | source/kibble/util/unordered_dense.h:1143-1155 | every value has exactly one bucket and the ordering invariant holds |
| `DenseTable.Table.IncreaseSize` | source/kibble/util/unordered_dense.h:1157-1169 | growth doubles the number of buckets, loses and duplicates no value and keeps the table valid |
| `DenseTable.Table.Rehash` | source/kibble/util/unordered_dense.h:2120-2132 | the contents are unchanged and the number of buckets becomes the least power of two, of those the size steps through, with room for the values and the count asked for |
| `DenseTable.Table.CalcShiftsForSize` | source/kibble/util/unordered_dense.h:1071-1079 | the largest shift count whose buckets have room for the values |
| `DenseTable.Table.Clear` | source/kibble/util/unordered_dense.h:1593-1597 | the table is empty and valid |
| `DenseTable.Table.IndexLast` | source/kibble/util/unordered_dense.h:1246-1265 | the value just appended is indexed, by growth when the table is full |
| `DenseIndex.NotOvertaken` | source/kibble/util/unordered_dense.h:1041-1053 | between a key's home and its bucket no probe for it is ahead of a bucket, so no empty bucket lies there |
| `DenseTable.Overtaken` | source/kibble/util/unordered_dense.h:1284-1287 | a probe that is ahead of the bucket it looks at proves the key absent |
| `DenseTable.StepOver` | source/kibble/util/unordered_dense.h:1288-1292 | a bucket that does not hold the key can be stepped over |
| `DenseTable.NeverBehind` | source/kibble/util/unordered_dense.h:1219-1224 | after the less-than phase the probe never falls behind again, so the equality loop decides |
| `DenseIndex.EmptyBucket` | source/kibble/util/unordered_dense.h:1102-1105 | with fewer values than buckets some bucket is empty |
| `DenseIndex.NotFullTurn` | source/kibble/util/unordered_dense.h:1055-1064 | no entry is a whole turn from its home, so distances stay below the number of buckets |
| `DenseIndex.InsertKeeps` | source/kibble/util/unordered_dense.h:1055-1064 | displacement on insert keeps the bucket-ordering invariant and indexes the new entry |
| `DenseIndex.RemoveKeeps` | source/kibble/util/unordered_dense.h:1176-1184 | backward shift keeps the bucket-ordering invariant of all other entries |
| `DenseIndex.MoveLast` | source/kibble/util/unordered_dense.h:1188-1205 | renumbering the last entry fills the hole |
| `DenseIndex.DropLast` | source/kibble/util/unordered_dense.h:1206 | dropping the last value, once it has no bucket, keeps the index |
| `DenseTable.NextProbe` | source/kibble/util/unordered_dense.h:983-986 | below the size limit the 32-bit step of distance and fingerprint does not wrap |
| `DenseTable.BucketBytes` | source/kibble/util/unordered_dense.h:1018-1021 | a bucket's word holds the distance, counted from one, in its upper three bytes and the lowest byte of the hash in its lower one |
| `DenseTable.HomeInRange` | source/kibble/util/unordered_dense.h:1023-1026 | a 64-bit hash shifted right is a bucket number |
| `DenseTable.MapOfWithout` | source/kibble/util/unordered_dense.h:1188-1206 | swap with the last value removes one key and nothing else from the map |
| `Bezier.Split` | source/kibble/math/spline.h:203-239 | for every s the left half at s is the curve at t*s and the right half at s is the curve at t+(1-t)*s |
| `Bezier.SplitFrom` | source/kibble/math/spline.h:203-239 | fills the left edge of the triangle downward and the right edge in reverse, leaving the rest of both arrays alone |
| `Bezier.LeftPreserves` | source/kibble/math/spline.h:203-239 | the left control points trace the curve from its start to the split |
| `Bezier.RightPreserves` | source/kibble/math/spline.h:203-239 | the right control points trace the curve from the split to its end |
| `Bezier.RowsOfTriangle` | source/kibble/math/spline.h:175-187 | the recursive form at level r, index i is entry i of the r-th row of the triangle |
| `Bezier.CurveOfLevel` | source/kibble/math/spline.h:175-187 | evaluating the curve of one row of the triangle is evaluating the curve |
| `Bezier.LevelsSwap` | source/kibble/math/spline.h:175-187 | rows at two parameters can be taken in either order |
| `Bezier.CurveEnds` | source/kibble/math/spline.h:175-187 | a curve starts at its first control point and ends at its last |
| `BezierPolynomial.ExactDivision` | source/kibble/math/spline.h:150-157 | the product is the quotient times the two factorials, for every size: the integer division has no remainder |
| `BezierPolynomial.CombExact` | source/kibble/math/spline.h:156 | the truncating division gives the signed product of two binomial coefficients |
| `BezierPolynomial.ProductFits` | source/kibble/math/spline.h:147-151 | within the factorial table the running product stays within a 32-bit integer |
| `BezierPolynomial.BezierCoefficients` | source/kibble/math/spline.h:143-161 | coefficient j is n choose j times the j-th forward difference of the control points |
| `BezierPolynomial.BezierEvaluate` | source/kibble/math/spline.h:112-132 | the value of the derivative of the given order of the coefficient polynomial |
| `BezierPolynomial.DerivativesAre` | source/kibble/math/spline.h:119-128 | the factor (i+1)...(i+k) is what k differentiations put on a coefficient |
| `BezierPolynomial.RowExpands` | source/kibble/math/spline.h:175-187 | a de Casteljau row is its Newton expansion in powers of the parameter |
| `BezierPolynomial.DeltaIsAltSum` | source/kibble/math/spline.h:153-158 | a forward difference is the alternating binomial sum the inner loop adds up |
| `BezierPolynomial.PolynomialIsCurve` | source/kibble/math/spline.h:143-187 | the polynomial with those coefficients equals de Casteljau's recursion at every parameter |
| `BezierPolynomial.SplineValue` | source/kibble/math/spline.h:112-161 | coefficients followed by evaluation give the point of the curve |
| `UndoTimeline.RunOnTimeline` | source/kibble/undo/undo.cpp:46-206 | over any run there are states s_0..s_n with each command leading between neighbours and back, and the document is s_head |
| `UndoTimeline.StepOnTimeline` | source/kibble/undo/undo.cpp:46-206 | every operation keeps the document on the timeline |
| `UndoTimeline.PushOnTimeline` | source/kibble/undo/undo.cpp:46-108 | so does a push through truncation, merging, the limit and obsolescence |
| `UndoTimeline.MoveHeadFollows` | source/kibble/undo/undo.cpp:180-206 | undoing or redoing to an index gives the state at that index |
| `UndoMoves.UndoGoesBack` | source/kibble/undo/undo.cpp:144-169 | with a head above zero undoing makes the head one less and the document the state there, and history, limit, mark and states stay; otherwise it does nothing |
| `UndoMoves.RedoGoesOn` | source/kibble/undo/undo.cpp:150-178 | redoing does the same one up, and nothing at the end of the history |
| `UndoMoves.SetHeadReaches` | source/kibble/undo/undo.cpp:180-206 | the head goes to the index, or to the end of the history, and the document is the state there |
| `UndoMoves.RedoTakesBackUndo` | source/kibble/undo/undo.cpp:161-178 | an undo followed by a redo changes nothing at all |
| `UndoMoves.UndoTakesBackRedo` | source/kibble/undo/undo.cpp:161-178 | nor does a redo followed by an undo |
| `UndoMoves.PushLeaves` | source/kibble/undo/undo.cpp:46-108 | what a push leaves of the history, with the new or merged command on top unless it is obsolete, where the head is, and which clean marks survive |
| `UndoMoves.UndoTakesBackPush` | source/kibble/undo/undo.cpp:46-169 | pushing a command that is neither merged nor obsolete and undoing gives the old document, with that command ready to be redone |
| `UndoMoves.UndoTakesBackMerge` | source/kibble/undo/undo.cpp:64-169 | undoing after a merge goes back to before the command that absorbed the new one |
| `UndoMoves.MarkedIsClean` | source/kibble/undo/undo.cpp:208-213 | after `set_clean` the stack is clean and nothing but the mark has changed |
| `UndoMoves.CleanExactlyAtMark` | source/kibble/undo/undo.cpp:180-213 | moving about the history a marked stack is clean exactly at the index of the mark |
| `UndoMoves.StaysUnclean` | source/kibble/undo/undo.cpp:46-220 | without a mark no run that sets none makes the stack clean |
| `UndoMoves.MarkRemoved` | source/kibble/undo/undo.cpp:110-117 | clearing and resetting leave no mark, and clearing no history |
| `UndoMoves.LimitSet` | source/kibble/undo/undo.cpp:36-44 | the limit changes on an empty stack only, and nothing else does |
| `UndoMoves.LimitHolds` | source/kibble/undo/undo.cpp:84-106 | over any run a positive limit bounds the history |
| `UndoClean.PushKeepsMark` | source/kibble/undo/undo.cpp:53-106 | a push keeps the clean mark on its document exactly when it neither absorbs into the command below a clean head nor drops the oldest command, or when the command so counted in changes nothing |
| `UndoClean.StepKeepsMark` | source/kibble/undo/undo.cpp:161-220 | no other operation can move the mark off its document |
| `UndoClean.UsuallySafe` | source/kibble/undo/undo.cpp:53-104 | without a limit and without such a merge every push is safe |
| `UndoClean.CleanMeansClean` | source/kibble/undo/undo.h:403-406 | over any run of safe operations `is_clean()` implies the document equals the one at the last `set_clean` |
| `UndoClean.PlainRunsAreSafe` | source/kibble/undo/undo.cpp:53-104 | a run with no undo limit and no merge into the command below a clean head, which a caller can see, consists of safe operations |
| `UndoClean.CleanWithoutLimit` | source/kibble/undo/undo.h:403-406 | on every such run `is_clean()` implies the document equals the one at the last `set_clean` |
| `UndoClean.MergeLosesMark` | source/kibble/undo/undo.cpp:64-82 | a run in which a merge leaves the stack clean over a changed document |
| `UndoClean.LimitLosesMark` | source/kibble/undo/undo.cpp:86-90 | a run in which the limit leaves the stack clean over a changed document |
| `UndoClean.AdderLawful` | source/kibble/undo/undo.cpp:31-34 | the commands of those two runs obey every law asked of commands |
| `UndoClean.MacroInverts` | source/kibble/undo/undo.cpp:16-29 | undoing a macro-command of reversible leaves restores the document, however deep the tree |
| `UndoClean.AllInvert` | source/kibble/undo/undo.cpp:16-29 | undoing a list of commands in reverse order restores the document |
| `UndoStacks.UndoStack.constructor` | source/kibble/undo/undo.h:403-406 | a new stack is the fresh session and the listener agrees with it |
| `UndoStacks.UndoStack.Push` | source/kibble/undo/undo.cpp:46-108 | the stack object takes the push step and the listener agrees with the observers |
| `UndoStacks.UndoStack.Undo` | source/kibble/undo/undo.cpp:161-169 | calls back the command below the head and moves the head down by one, touching no other field; nothing happens at the beginning; the listener agrees |
| `UndoStacks.UndoStack.Redo` | source/kibble/undo/undo.cpp:170-178 | the same upwards with the command at the head; nothing happens at the end; the listener agrees |
| `UndoStacks.UndoStack.SetHead` | source/kibble/undo/undo.cpp:180-206 | the head is at the index, or at the end of the history if that is beyond it, and the commands between were taken in turn; the listener agrees after one round of callbacks |
| `UndoStacks.UndoStack.SetClean` | source/kibble/undo/undo.cpp:208-213 | the stack is clean at its present head; the listener agrees |
| `UndoStacks.UndoStack.ResetClean` | source/kibble/undo/undo.cpp:215-220 | the clean index is -1 and nothing else changes; the listener agrees |
| `UndoStacks.UndoStack.Clear` | source/kibble/undo/undo.cpp:110-117 | history, head and mark are gone, document and limit stay; the listener agrees |
| `UndoStacks.UndoStack.SetUndoLimit` | source/kibble/undo/undo.cpp:36-44 | changes the limit exactly when the stack is empty |
| `UndoStacks.UndoStack.CheckStateTransitions` | source/kibble/undo/undo.cpp:124-142 | a listener hears exactly the values that have changed since the snapshot, so one that agreed with the snapshot comes into agreement with the stack |
| `UndoStacks.PerformAll` | source/kibble/undo/undo.cpp:46-220 | any run on the stack object is the run of the history model and leaves the listener in agreement |
| `UndoStacks.UndoGroup.AddStack` | source/kibble/undo/undo.cpp:246-266 | adds a fresh stack under a new non-zero name; the group's listener agrees with the active stack |
| `UndoStacks.UndoGroup.RemoveStack` | source/kibble/undo/undo.cpp:268-280 | removing the active stack announces an empty one; the listener agrees |
| `UndoStacks.UndoGroup.SetActive` | source/kibble/undo/undo.cpp:282-295 | the listener agrees with the newly active stack |
| `UndoStacks.UndoGroup.RelabelStack` | source/kibble/undo/undo.cpp:297-313 | the listener still agrees after relabelling the active stack exactly when what it shows is unchanged, as it is for a fresh non-zero name; a taken name loses the relabelled stack; the announced name is left behind |
| `UndoStacks.UndoGroup.Forward` | source/kibble/undo/undo.h:564-569 | an operation goes to the active stack only, and its callbacks keep the group's listener in agreement |
| `UndoStacks.UndoGroup.ChangeActiveStack` | source/kibble/undo/undo.cpp:315-323 | the five callbacks leave the listener in agreement with every observable value of the new active stack, or with none |
| `UndoStacks.PerformInGroup` | source/kibble/undo/undo.cpp:246-323 | one operation on the group takes its step, and the listener agrees afterwards exactly when it was no relabelling of the active stack to something that shows otherwise |
| `UndoStacks.PerformAllInGroup` | source/kibble/undo/undo.cpp:246-323 | over any run of add, remove, activate, relabel and forwarded operations with quiet relabellings the listener agrees with the active stack |
| `UndoStacks.FreshIsQuiet` | source/kibble/undo/undo.cpp:297-313 | relabelling to a fresh non-zero name is quiet |
| `UndoStacks.FreshRunsAreQuiet` | source/kibble/undo/undo.cpp:297-313 | so is every run whose relabellings are to names fresh at that point |
| `PackFiles.PackAndServe` | source/kibble/filesystem/resource_pack.cpp:64-161 | files with distinct keys, packed, exported, read back and opened: any mix of reads, peeks and seeks on a key's stream answers as the file held in memory, and an unknown key has no stream |
| `PackFiles.Repack` | source/kibble/filesystem/resource_pack.cpp:123-152 | the index read back has the files' keys in order, each entry pointing at its file in the exported bytes |
| `PackFiles.PackFileBuilder.AddFile` | source/kibble/filesystem/resource_pack.cpp:64-97 | adds exactly readable files with new keys; the entry holds the 32-bit offset and size |
| `PackFiles.PackFileBuilder.ExportPack` | source/kibble/filesystem/resource_pack.cpp:123-138 | writes the index and the blob, or fails exactly when the sink has no room; every stored offset moves by the size of what precedes the data |
| `PackFiles.PackFileBuilder.ExportSizeBytes` | source/kibble/filesystem/resource_pack.cpp:140-145 | the reported size is exactly the number of bytes an export writes |
| `PackFiles.EntryRight` | source/kibble/filesystem/resource_pack.cpp:125-131 | below 4 GiB an exported entry is right exactly when earlier exports had not already moved it |
| `PackFiles.SecondExportMisplaces` | source/kibble/filesystem/resource_pack.cpp:125-131 | a file exported once is misplaced by the next export |
| `PackFiles.WindowHoldsFile` | source/kibble/filesystem/resource_pack.cpp:123-138 | the window a right entry describes holds the file's bytes |
| `PackFiles.BlobSlice` | source/kibble/filesystem/resource_pack.cpp:88-94 | a file's bytes lie at the sum of the sizes before it |
| `PackFiles.PackFile.constructor` | source/kibble/filesystem/resource_pack.cpp:147-152 | the index is the one the stream's start parses to |
| `PackFiles.PackFile.GetInputStream` | source/kibble/filesystem/resource_pack.cpp:154-161 | a stream over the entry's window exactly for the known keys |
| `PackArchive.WriteIndex` | source/kibble/filesystem/resource_pack.cpp:168-180 | sends header, count and items, or fails exactly when there is no room for all of them |
| `PackArchive.ReadIndex` | source/kibble/filesystem/resource_pack.cpp:182-200 | parses any bytes: the items, a bad header or a short stream |
| `PackArchive.IndexWritten` | source/kibble/filesystem/serialization/std_archiver.h:162-218 | whatever follows it, a written index is read back whole and in order |
| `PackArchive.ItemsWritten` | source/kibble/filesystem/serialization/std_archiver.h:205-214 | each key-value pair is read back at its place and no key is dropped as a duplicate |
| `PackArchive.WriteMap` | source/kibble/filesystem/serialization/std_archiver.h:165-184 | sends the count and every pair |
| `PackArchive.ReadItems` | source/kibble/filesystem/serialization/std_archiver.h:204-216 | reads the announced number of pairs, skipping keys seen before, or reports a short stream |
| `PackArchive.WriteBlob` | source/kibble/filesystem/serialization/std_archiver.h:73-92 | sends the size and every byte |
| `ByteStreams.OutStream.WriteUint` | source/kibble/filesystem/serialization/stream_serializer.h:46-50 | sends the little-endian bytes of the value, or goes bad for want of room |
| `ByteStreams.InStream.ReadUint` | source/kibble/filesystem/serialization/stream_serializer.h:105-109 | reads a value exactly when its bytes are all there |
| `PackStream.ServeAll` | source/kibble/filesystem/stream/packfile_stream.cpp:14-67 | any run of requests is answered as by a plain in-memory file |
| `PackStream.ByteAtPlace` | source/kibble/filesystem/stream/packfile_stream.cpp:31-61 | from any position, seeking from the beginning, from there or from the end to place k and reading gives byte k of the file, or nothing at the end |
| `PackStream.OneByOne` | source/kibble/filesystem/stream/packfile_stream.cpp:14-29 | reading n bytes at once is reading n single bytes |
| `PackStream.PackFileStream.constructor` | source/kibble/filesystem/stream/packfile_stream.cpp:6-12 | starts at position zero of the window |
| `PackStream.PackFileStream.Underflow` | source/kibble/filesystem/stream/packfile_stream.cpp:14-29 | the byte at the current position, or nothing exactly at the end of the window; the position stays |
| `PackStream.PackFileStream.Read` | source/kibble/filesystem/stream/packfile_stream.cpp:14-29 | the bytes from the current position on, across refills, never past the window |
| `PackStream.PackFileStream.SeekOff` | source/kibble/filesystem/stream/packfile_stream.cpp:31-61 | moves to any target within the window or at its end; every other target is refused and changes nothing |
| `PackStream.PackFileStream.SeekPos` | source/kibble/filesystem/stream/packfile_stream.cpp:63-67 | seeks from the beginning |
| `Bytes.ValueOfBytes` | source/kibble/filesystem/serialization/stream_serializer.h:46-50 | reading back a value's little-endian bytes gives the value |
| `Bytes.ByteAt` | source/kibble/filesystem/serialization/stream_serializer.h:46-50 | byte i of a written value is its digit of weight 256^i: low order first |
| `PackLayout.HeaderIs` | source/kibble/filesystem/resource_pack.cpp:13-22 | a pack begins with the bytes of "KPAK" and of version 0.2 |
| `PackLayout.PackParts` | source/kibble/filesystem/resource_pack.cpp:123-145 | header, number of entries, entries, number of data bytes and data follow one another at these places |
| `PackLayout.EntryParts` | source/kibble/filesystem/serialization/std_archiver.h:165-184 | an entry is the eight bytes of its key, four of its offset and four of its size |
| `EventBuses.EventBus.Dispatch` | source/kibble/event/event_bus.cpp:10-28 | when handlers only enqueue events of lower rank it ends; without a timeout all queues are empty and every accepted event, those enqueued on the way included, was delivered in order; with one it gives up exactly when the reading after a delivery exceeds the first reading plus the timeout, every earlier reading having been within it, and then nothing is left exactly when that delivery was of the only event waiting and enqueued none; a clock that never passes that time drains every queue |
| `EventBuses.EventBus.Process` | source/kibble/event/event_bus.h:242-264 | drains one queue or stops after the delivery that passed the deadline, descending in the order of ranks with each delivery; after a stop the queue is empty exactly when that event was its only one and none of its type was enqueued |
| `EventBuses.EventBus.Sweep` | source/kibble/event/event_bus.cpp:18-24 | one pass over the queues makes progress when some queue was not empty |
| `EventBuses.EventBus.DeliverFront` | source/kibble/event/event_bus.h:244-254 | delivers the oldest event to its handlers, enqueues what they post, and takes that event off |
| `EventBuses.EventBus.HandOut` | source/kibble/event/event_bus.h:246-252 | calls handlers from the highest priority down until one consumes the event; posts are enqueued in order |
| `EventBuses.EventBus.Fire` | source/kibble/event/event_bus.h:220-230 | fires at once and leaves the queues alone but for the handlers' posts |
| `EventBuses.EventBus.Enqueue` | source/kibble/event/event_bus.h:196-199 | appends the event to the queue of its type and to no other; without one nothing happens and nothing counts as accepted |
| `EventBuses.EventBus.Subscribe` | source/kibble/event/event_bus.h:105-116 | registers a handler once and keeps the list sorted by priority, each handler in it once; other types and all waiting events are untouched |
| `EventBuses.EventBus.Unsubscribe` | source/kibble/event/event_bus.h:150-162 | tells whether the handler was registered; it is in the list no more, and the others are there in their old order |
| `EventBuses.EventBus.Drop` | source/kibble/event/event_bus.h:271-275 | the queue of the type is empty, the others unchanged, and the history stays balanced |
| `EventBuses.EventBus.Empty` | source/kibble/event/event_bus.cpp:38-49 | true exactly when no event waits |
| `EventBuses.EventBus.UnprocessedCount` | source/kibble/event/event_bus.cpp:51-56 | the number of waiting events |
| `EventBuses.Insert` | source/kibble/event/event_bus.h:306-310 | the subscriptions are the same with the new one added, in ascending priority |
| `EventBuses.HighestFirst` | source/kibble/event/event_bus.h:246-252 | handlers are reached in descending priority, none before the last reached consumed the event, and some are left out only when that one did |
| `EventBuses.EchoNeverDrains` | source/kibble/event/event_bus.cpp:16-25 | a handler that enqueues the event it handles: no number of deliveries changes the state of the bus, so ranks must fall strictly |
| `EventBuses.EchoRepeats` | source/kibble/event/event_bus.cpp:16-25 | one such delivery leaves queues and world as they were |
| `EventBuses.NothingLeft` | source/kibble/event/event_bus.cpp:20-23 | nothing is left after a delivery exactly when it was of the only event waiting and its handlers enqueued none |
| `EventBuses.TimedOutWithNothingLeft` | source/kibble/event/event_bus.cpp:10-28 | a run with one event and a late clock: dispatch answers false and no event is left |
| `EventBuses.DrainedInTime` | source/kibble/event/event_bus.cpp:10-28 | a run with two events and a clock that advances but stays within the timeout: both are delivered and dispatch answers true |
| `EventDelivery.LeftAfter` | source/kibble/event/event_bus.h:244-254 | a delivery takes one event away and adds what its handlers enqueue |
| `EventDelivery.QueueLeft` | source/kibble/event/event_bus.h:244-254 | a queue is empty after the delivery of its only event when none of its type was enqueued, and only then |
| `EventDelivery.LeadsJoin` | source/kibble/event/event_bus.cpp:16-25 | runs of deliveries follow one another |
| `EventDelivery.ReachesFirstConsumer` | source/kibble/event/event_bus.h:246-252 | delivery stops exactly at the first handler that consumes the event in the world it meets, and the posts are those of the handlers reached, in order |
| `EventDelivery.DeliveryDescends` | source/kibble/event/event_bus.cpp:14-25 | replacing a delivered event by lower-ranked ones goes down in a well-founded order |
| `EventDelivery.SubmitAllBalances` | source/kibble/event/event_bus.h:196-199 | enqueuing keeps "left the queue, then waiting" equal to "accepted" for every type |
| `EventDelivery.PopBalances` | source/kibble/event/event_bus.h:254 | so does taking off a delivered event |
| `EventDelivery.DropBalances` | source/kibble/event/event_bus.h:271-275 | so does dropping a queue |
| `RankOrder.AlwaysEnds` | source/kibble/event/event_bus.cpp:14-25 | the multiset order on ranks has no infinite descent, for count vectors of every length |
| `RankOrder.ReplaceByLower` | source/kibble/event/event_bus.cpp:14-25 | removing one element and adding any number of smaller ones goes down in that order |
| `Md5.HashChunks` | source/kibble/filesystem/md5.cpp:84-165 | for every cut of a message into chunks that `process` comes to an end with, every chunk below 2^32 bytes among them, the digest is that of the whole message by sections 3.1 to 3.4 of RFC 1321 |
| `Md5.Hasher.Process` | source/kibble/filesystem/md5.cpp:84-117 | with the count of processed bytes kept in 32 bits, afterwards the state stands for everything fed so far |
| `Md5.LoopEnds` | source/kibble/filesystem/md5.cpp:96-109 | the loop comes to its end exactly for inputs below 2^32 bytes, or 2^32 plus what the buffer lacks when bytes wait in it; from there on its condition always holds |
| `Md5.Hasher.Finish` | source/kibble/filesystem/md5.cpp:119-165 | the state is the digest of everything fed, with the standard's padding and length |
| `Md5.Hasher.Pad` | source/kibble/filesystem/md5.cpp:123-157 | the buffered bytes become the end of the padded message, in one block or two |
| `Md5.Hasher.ProcessBlock` | source/kibble/filesystem/md5.cpp:193-219 | the state goes through step 4 of the standard on that block |
| `Md5.Hasher.Rounds` | source/kibble/filesystem/md5.cpp:200-211 | 64 operations with rotating indices are the sixteen lines of the standard's listing, whose functions, rotations, words, shift amounts and constants `Md5Bits` and `Md5Vectors` pin down |
| `Md5.Hasher.FillBlock` | source/kibble/filesystem/md5.cpp:96-109 | completing the buffered block compresses it and keeps the correspondence |
| `Md5.Hasher.Stash` | source/kibble/filesystem/md5.cpp:88-94 | bytes short of a block are kept for later |
| `Md5.RotatedIsLines` | source/kibble/filesystem/md5.cpp:167-192 | rotating the registers instead of renaming them gives the same after every four operations |
| `Md5.RotateStep` | source/kibble/filesystem/md5.cpp:63-76 | one operation on the permuted state is one turn of the registers |
| `Md5.PermTurns` | source/kibble/filesystem/md5.cpp:72-76 | the index permutation advances as the registers turn |
| `Md5.WordTableFollows` | source/kibble/filesystem/md5.cpp:49-54 | the word table is the standard's order, a stride of its own in each round |
| `Md5.ShiftTableFollows` | source/kibble/filesystem/md5.cpp:42-47 | the shift table repeats the four amounts of each round |
| `Md5.AbsorbMore` | source/kibble/filesystem/md5.cpp:96-109 | compressing one more block extends the chain over the whole message |
| `Md5.PaddedFits` | source/kibble/filesystem/md5.cpp:135-154 | the padded message is a whole number of blocks and the padding the shortest that leaves room for the length |
| `Md5.TailIs` | source/kibble/filesystem/md5.cpp:135-148 | the code's padding count gives the standard's tail |
| `Md5.BitLength` | source/kibble/filesystem/md5.cpp:150-153 | the length field is eight times the byte count modulo 2^64, however the 64-bit counter wrapped |
| `Md5Bits.OnePlace` | source/kibble/filesystem/md5.cpp:23-39 | under the mask of one place a word is one or zero, so the masks of the next four rows read as single bits |
| `Md5Bits.Mix0Bits` | source/kibble/filesystem/md5.cpp:27-28 | the first round function has y's bits where x is one and z's where x is zero |
| `Md5Bits.Mix1Bits` | source/kibble/filesystem/md5.cpp:29-30 | the second has x's bits where z is one and y's where z is zero |
| `Md5Bits.Mix2Bits` | source/kibble/filesystem/md5.cpp:31-32 | the third is the parity of the three bits |
| `Md5Bits.Mix3Bits` | source/kibble/filesystem/md5.cpp:33-34 | the fourth has the opposite of y's bits where z is zero and the exclusive or of x and y where z is one |
| `Md5Bits.RotateBit` | source/kibble/filesystem/md5.cpp:58-61 | bit p of a word rotated by s is bit (p - s) modulo 32 of the word |
| `Md5Bits.WordsAreValues` | source/kibble/filesystem/md5.cpp:198 | word j of a block is the little-endian value of its bytes 4j to 4j+3 |
| `Md5Bits.AmountsAre` | source/kibble/filesystem/md5.cpp:43-48 | the sixteen shift amounts |
| `Md5Bits.FirstRoundWords` | source/kibble/filesystem/md5.cpp:50 | the words read by the operations of the first round |
| `Md5Bits.SecondRoundWords` | source/kibble/filesystem/md5.cpp:51 | the words read by the operations of the second round |
| `Md5Bits.ThirdRoundWords` | source/kibble/filesystem/md5.cpp:52 | the words read by the operations of the third round |
| `Md5Bits.FourthRoundWords` | source/kibble/filesystem/md5.cpp:53 | the words read by the operations of the fourth round |
| `Md5Vectors.SineRow0` | source/kibble/filesystem/md5.cpp:13-14 | entries 0 to 15 of the sine table |
| `Md5Vectors.SineRow1` | source/kibble/filesystem/md5.cpp:15-16 | entries 16 to 31 |
| `Md5Vectors.SineRow2` | source/kibble/filesystem/md5.cpp:17-18 | entries 32 to 47 |
| `Md5Vectors.SineRow3` | source/kibble/filesystem/md5.cpp:19-20 | entries 48 to 63 |
| `Md5Vectors.EmptyMessage` | source/kibble/filesystem/md5.cpp:119-165 | through all 64 operations the empty message has the digest d41d8cd98f00b204e9800998ecf8427e of section A.5 of RFC 1321 |
| `Base64.Encode` | source/kibble/string/string.cpp:109-135 | the output is the grouping and padding of section 4 of RFC 4648, in the alphabet of its table 1 (`Base64.SymbolIsListed`), although the 32-bit accumulator wraps |
| `Base64.Decode` | source/kibble/string/string.cpp:137-158 | a text is read up to the first character outside the alphabet (`Base64.ValueIsPlace`), four values to three bytes; this is defined exactly when that character has an entry in the table of 256, which from 128 on it lacks where characters are signed |
| `Base64.RoundTrip` | source/kibble/string/string.cpp:109-158 | decoding the encoding of any byte string gives it back |
| `Base64.EncodeAndDecode` | source/kibble/string/string.cpp:109-158 | the two functions one after the other give back every byte string, characters signed or not |
| `Base64.StandardIsAscii` | source/kibble/string/string.cpp:109-135 | encoded text never leaves the decode table |
| `Base64.ByteStep` | source/kibble/string/string.cpp:118-124 | one byte: what was written and what it adds make up the group so far |
| `Base64.SextetStep` | source/kibble/string/string.cpp:149-155 | one character: the bytes written so far are those of the values so far |
| `Base64.Feed8Bits` | source/kibble/string/string.cpp:118 | what the wrap-around takes away lies above every bit still to be written |
| `Base64.Feed6Bits` | source/kibble/string/string.cpp:149 | the same for decoding |
| `Base64.Finish` | source/kibble/string/string.cpp:126-134 | the bits left over are written with zeros and padded to a multiple of four characters |
| `Base64.SymbolIsListed` | source/kibble/string/string.cpp:11-14 | the character for a value is the one at that place of the 64 listed ones |
| `Base64.ValueIsPlace` | source/kibble/string/string.cpp:16-25 | the decode table gives a character its place in the alphabet, and -1 exactly when it is not there |
| `Base64Vectors.EncodedText` | source/kibble/string/string.cpp:116-134 | the first four characters are the 24 bits of the first three bytes cut into sixes, filled up with zeros and padded when bytes are missing |
| `Base64Vectors.DecodedBytes` | source/kibble/string/string.cpp:144-156 | the first four values are the 24 bits of three bytes; of a short group only the bytes it covers are kept |
| `Base64Vectors.PrefixEnds` | source/kibble/string/string.cpp:146-148 | decoding reads the characters of the alphabet up to the first other one |
| `Base64Vectors.Foobar` | source/kibble/string/string.cpp:109-135 | the test vectors of section 10 of RFC 4648 up to "foobar" |
| `Base64Vectors.ManBack` | source/kibble/string/string.cpp:137-158 | "TWFu" decodes to the bytes of "Man" |
| `SecurePool.Pool.IsValid` | source/kibble/util/sparse_set.h:683-689 | true exactly for the handles acquired and not yet released whose integer has a counter that still fits the guard bits |
| `SecurePool.Pool.Acquire` | source/kibble/util/sparse_set.h:709-718 | a handle that is not handed out; it has been given back before exactly when the counter of its integer is used up |
| `SecurePool.Pool.Release` | source/kibble/util/sparse_set.h:727-739 | a valid handle is no longer handed out, and all others stay as they were |
| `SecurePool.Pool.constructor` | source/kibble/util/sparse_set.h:579-582 | whatever `sparse` holds, no handle is valid |
| `SecurePool.HandleParts` | source/kibble/util/sparse_set.h:590-604 | a handle gives back its base integer always, and its guard exactly while the counter fits the guard bits |
| `SecurePool.AcquireLinks` | source/kibble/util/sparse_set.h:713-715 | acquiring keeps dense a permutation that sparse points into |
| `SecurePool.ReleaseLinks` | source/kibble/util/sparse_set.h:732-737 | so does trading places with the last integer in use |
| `SecurePool.AcquireBooks` | source/kibble/util/sparse_set.h:709-718 | acquiring adds exactly the new handle; it is an old one exactly when its counter has outgrown the guard bits |
| `SecurePool.ReleaseBooks` | source/kibble/util/sparse_set.h:727-739 | releasing takes exactly that handle out and makes it stale |
| `SecurePool.GuardBelow` | source/kibble/util/sparse_set.h:601-604 | no value of the handle type carries a guard at or above the number of guard values, so a used-up slot has no valid handle |
| `Morton.Encode2` | source/kibble/math/impl/morton_lut.h:95-106 | for every input of both widths the byte-wise loop gives the whole-word code, the one whose bits `Morton.Code2Interleaves` describes |
| `Morton.Encode3` | source/kibble/math/impl/morton_lut.h:208-220 | for every input the byte-wise loop gives the whole-word code cut to the key width, the one `Morton.Code3Interleaves` describes |
| `Morton.Code2Interleaves` | source/kibble/math/impl/morton_lut.h:95-106 | bit 2p of the code is bit p of x and bit 2p+1 is bit p of y |
| `Morton.Code3Interleaves` | source/kibble/math/impl/morton_lut.h:208-220 | bit 3p is bit p of x, bit 3p+1 of y and bit 3p+2 of z, as far as the key goes |
| `Morton.BitsDecide` | source/kibble/math/impl/morton_lut.h:95-106 | words with the same bits are the same, so the bits describe a code completely |
| `Morton.GenDilate2` | source/kibble/math/impl/morton_lut.h:24-32 | the masked-shift loop moves bit p of a byte to bit 2p, shifted by the offset |
| `Morton.GenDilate3` | source/kibble/math/impl/morton_lut.h:135-143 | the masked-shift loop moves bit p of a byte to bit 3p, shifted by the offset |
| `Morton.GenContract2` | source/kibble/math/impl/morton_lut.h:34-44 | the loop gathers the bits at every second place |
| `Morton.GenContract3` | source/kibble/math/impl/morton_lut.h:145-155 | the loop gathers the bits at every third place |
| `Morton.MakeDilation2` | source/kibble/math/impl/morton_lut.h:46-56 | every table entry is the dilation of its index and fits 16 bits |
| `Morton.MakeDilation3` | source/kibble/math/impl/morton_lut.h:157-167 | every table entry is the dilation of its index |
| `Morton.MakeContraction2` | source/kibble/math/impl/morton_lut.h:58-68 | every table entry is the contraction of its index and fits a byte |
| `Morton.MakeContraction3` | source/kibble/math/impl/morton_lut.h:169-179 | every table entry is the contraction of its index and fits a byte |
| `MortonDecode.Decode2` | source/kibble/math/impl/morton_lut.h:109-114 | each coordinate is the gathered bits; with a 64-bit key they are taken as a signed 32-bit number |
| `MortonDecode.Decode3` | source/kibble/math/impl/morton_lut.h:223-229 | each coordinate is its gathered bits, 12 or 21 of them |
| `MortonDecode.Axis2` | source/kibble/math/impl/morton_lut.h:79-90 | the byte-wise loop, its signed shift included, is the whole-word gathering |
| `MortonDecode.Axis3` | source/kibble/math/impl/morton_lut.h:192-203 | the nine-bit loop is the whole-word gathering |
| `MortonDecode.RoundTrip2Narrow` | source/kibble/math/impl/morton_lut.h:95-114 | 32-bit keys: coordinates come back exactly when both are below 2^16 |
| `MortonDecode.RoundTrip2Wide` | source/kibble/math/impl/morton_lut.h:80-114 | 64-bit keys: coordinates come back exactly when both are values of signed 32-bit numbers |
| `MortonDecode.SignedRange` | source/kibble/math/impl/morton_lut.h:86 | those values are the ones below 2^31 and the top 2^31 words |
| `MortonDecode.RoundTrip3Narrow` | source/kibble/math/impl/morton_lut.h:193-229 | 32-bit keys: exactly when x and y are below 2^11 and z below 2^10 |
| `MortonDecode.RoundTrip3Wide` | source/kibble/math/impl/morton_lut.h:193-229 | 64-bit keys: exactly when all are below 2^21 |
| `MortonBits.SameCode2` | source/kibble/math/impl/morton_bmi.h:50-55 | the bit-deposit encoder gives the same code as the tables for all inputs |
| `MortonBits.SameCode3` | source/kibble/math/impl/morton_bmi.h:88-94 | the same in three dimensions |
| `MortonBits.BitsDecodes2` | source/kibble/math/impl/morton_bmi.h:57-62 | bit extraction is the whole-word gathering |
| `MortonBits.BitsDecodes3` | source/kibble/math/impl/morton_bmi.h:96-102 | the same in three dimensions |
| `MortonBits.BitsRoundTrip2` | source/kibble/math/impl/morton_bmi.h:50-62 | coordinates come back exactly when they fit half the key |
| `MortonBits.BitsRoundTrip3Narrow` | source/kibble/math/impl/morton_bmi.h:88-102 | 32-bit keys: exactly when x and y are below 2^11 and z below 2^10 |
| `MortonBits.BitsRoundTrip3Wide` | source/kibble/math/impl/morton_bmi.h:88-102 | 64-bit keys: exactly when x is below 2^22 and y and z below 2^21 |
| `MortonBits.DecodersAgree2` | source/kibble/math/impl/morton_bmi.h:57-62 | on 64-bit keys both decoders agree exactly on the keys whose top two bits are clear |
| `MortonBits.PdepComb2` | source/kibble/math/impl/morton_bmi.h:12-19 | depositing along a mask with every second bit set is dilation |
| `MortonBits.PextComb3` | source/kibble/math/impl/morton_bmi.h:20-27 | extracting along a mask with every third bit set is gathering |

## Left out

- Md5.Hasher.Process: takes the inputs for which its loop ends (`Md5.LoopEnds`); for longer ones there is no result to state.
- Md5.HashChunks: takes the chunks for which that loop ends, for the same reason.
- AstarSearch.Astar.Destroy: does not cover an object whose search is still running, whose leak check fails in the source.
- AstarSearch.Astar.Search: does not model a pool that runs out of nodes, which asserts in the source, nor float costs.
- DenseTable.Table.TryEmplace: a new key in a table full at 2^23 buckets is left out, because the 24-bit distance could wrap beyond that size.
- DenseTable.Table.Emplace: the same limit.
- DenseTable.Table.InsertOrAssign: the same limit.
- DenseTable.Table.Rehash: the same limit.
- DenseTableRuns.Perform: the same limit.
- DenseTableRuns.Run: the same limit.
- PackFiles.PackAndServe: asks for a pack below 2^32 bytes, since offsets are stored in 32 bits.
- PackFiles.PackFile.GetInputStream: asks that the entries lie inside the stream, as they do after an export; truncated packs are not modelled.
- EventBuses.EventBus.Dispatch: asks for a rank that handlers lower, without which it need not end (`EventBuses.EchoNeverDrains`).
- Handlers that subscribe, unsubscribe or dispatch while an event is delivered, and the order among equal priorities.
- Several pack streams reading from one base stream in turns, and directory walking, ignore files and file access while building a pack file.
- The other archivers (tuples, arrays, sets, strings): the same scheme as vectors and maps.
- Iterators, allocators, segmented storage, load-factor tuning and the hash function of the hash table.
- Arc-length tables and other floating-point parts of the spline code, and float rounding throughout.
- `SecureSparsePool::clear`, which resets the guards, and the sparse sets and pools without guards.
- Display text of undo commands and the hexadecimal form of digests.
- Allocators, job system, logger, formatters, sockets, clocks, colours, noise, easings, UUIDs and delegates.
