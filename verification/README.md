# bagwiz: verified models of its concurrent and incremental passes

bagwiz processes ROS bags from the command line. Several of its commands have a fast form, which is
parallel, partitioned, look-ahead or resumed, and a simple one, and promise that nobody can tell which
of the two ran. This project models both forms of each and proves that they agree. `dafny verify
dfyconfig.toml` checks everything.

## What is modelled

**Rewriting point clouds** (`TransformPass`, `ParallelPass`, `ParallelPassResults`,
`ParallelPassThreads`, `TransformLaw`, `TransformSync`, `TransformPlan`). A reader, some workers and a
collector share one monitor. `ParallelPass` gives its critical sections as steps of a transition
system and the invariant they keep; `ParallelPassResults` proves the refinement to the one-thread
pass, freedom from deadlock and termination; `ParallelPassThreads` runs the same steps on objects, in
any order, and arrives at the one-thread pass's result; `TransformPlan` proves that the plans accepted
up front keep the writer's declarations consistent; `TransformLaw` says what both passes must leave in
the output bag in terms of the messages and the transform alone. Condition variables become guards:
every change that can let a waiter go on is followed by a notification of all of them. A writer that
throws is an event that may strike any drain; the equality is claimed for runs without it, termination
for all.

**Building the calibration map** (`VoxelMap`, `MapPartitions`, `MapChunks`, `MapThreads`, `MapDrain`,
`Sorting`, `RangeScatter`, `RangeNumbers`, `ParallelSort`, `MapLaw`, `MapPass`, `RejectBox`).
Floating-point numbers are bit patterns and adding them is an unknown function, so the proofs are
about the order in which a voxel receives its points. Pool loops run one action at a time, any worker
next. `MapDrain` empties the partitions into one vector, `ParallelSort` sorts it on the pool,
`RangeScatter` is the theory of the slots it scatters to, and `RangeNumbers` finds when its 16-bit
range numbers suffice. `MapLaw` says what the finished map is in terms of the raw points alone.
`RejectBox` works over the reals: testing a view's bounding box first never changes which points are
kept. A quotient by a depth of zero satisfies no window, as for infinite and undefined floats.

**Composing videos** (`EncodeLoop`, `EncodeParallel`, `GridCanvas`, `CameraCalibration`, `PanelPaste`,
`FrameLaw`, `CameraFrames`, `NearestMessage`, `DirectEncode`). A panel is a deterministic state
machine, decoding an unknown function, and the encoder's verdict an unknown function of the frames
handed to it, so a failing encoder is covered too. `GridCanvas` and `PanelPaste` show when the cells
the panels draw into concurrently are apart, and `CameraFrames` that the sizes the panels settle on
keep every picture inside its own.

**Picking samples and laying plates** (`SamplePicks`, `PoseGate`, `FrameBlocks`, `PoseTiles`). The
product that spaces picks evenly is any real close enough to the exact one, which includes the case
where a whole product is floored one too low.

Counts are unbounded naturals and timestamps unbounded integers, except where 32-bit arithmetic
matters, for frame widths, grid numbers and centering offsets, and 16-bit arithmetic for range
numbers.

## Findings

- The grid cells tile the canvas only while columns times cell width fits 32 bits (or there is a single
  pixel row): the stride is computed from a 32-bit width (bagwiz/src/commands/movify_layout.cpp:66-86),
  the buffer size is not (`GridCanvas.CellsTileTheBuffer`, `GridCanvas.LastByteIsLost`). Cells then share
  bytes unless there is one grid row and the stride is zero (`GridCanvas.CellsAreApartIff`);
  `GridCanvas.WidthThatWraps` is such a grid.
- A follower panel uses -1 for "nothing decoded yet", so when nothing was decoded before, a message
  recorded at -1 is taken for already decoded (bagwiz/src/commands/movify_camera_panel.cpp:428,
  `NearestMessage.Follower.Select`, an if-and-only-if). The panel then counts as selected, and rendering
  dereferences the null picture (bagwiz/src/commands/movify_camera_panel.cpp:480-502,
  `NearestMessage.FollowerOfMinusOne`).
- When a read fails, the parallel encode loop has not encoded up to three ticks that the plain loop
  would have (bagwiz/src/commands/movify_pipeline.cpp:216-229). `EncodeParallel.BrokenStreamLosesTheWindow`
  says exactly when frames are lost, `EncodeParallel.LoseTheWindow` is a stream that loses them all.
- The pool sort keeps range numbers in 16 bits
  (bagwiz_base/include/bagwiz/core/base/parallel_sort.hpp:67-79). For 65536 items or more on fewer than
  4194304 workers it can be relied upon exactly up to 65536 workers (`RangeNumbers.SufficeIffReliable`,
  `RangeNumbers.OneNumberPerWorker`), and beyond that a list of unique keys always comes out of order
  (`RangeNumbers.DistinctInOrderIff`), as does the map (`MapPass.Finish`). `RangeNumbers.AscendIff` has the
  condition for every number of workers. The threads option admits 256
  (bagwiz/src/commands/calib.cpp:170-175).
- A repeated pick would silently lose itself and every later pick in the one-pass reader
  (`SamplePicks.AllMetIffIncreasing`); neither picker produces one.
- The box-first view test needs no ordered bounds, only rigid poses (`RejectBox.BoxFirstIsPlain`).

## Model

| member | source | states |
|---|---|---|
| TransformPass.OutputDrainer.Drain | bagwiz/src/commands/pcd_compress_common.cpp:95-131 | Draining an item makes the writes, the lazy declaration and the tallies the item calls for, or refuses a fatal item and changes nothing. |
| TransformPass.DeclareAll | bagwiz/src/commands/pcd_compress_common.cpp:391-399 | Before the first message exactly the topics not suppressed and the planned outputs are declared, in that order. |
| TransformSync.RunSyncTransformPass | bagwiz/src/commands/pcd_compress_common.cpp:384-447 | The one-thread pass leaves the writer, the tallies and the exit status that folding the bag message by message gives, on a clean end, a read error, a fatal item and a failing close; and what the law below asks. |
| TransformLaw.SyncPassMeets | bagwiz/src/commands/pcd_compress_common.cpp:95-170 | Up to the first message the transform fails on: one write per message kept, in bag order, with its stamp, the new payload under the output's name and type where the transform made one, else the message as it came; per topic the counts and the byte sums of just those messages; exactly the topics that stay, the outputs and the topics passed through are declared; one warning per topic, of the first reason given. |
| TransformPass.SyncAbortIsFinal | bagwiz/src/commands/pcd_compress_common.cpp:437-440 | After a fatal item no later message changes anything. |
| ParallelPass.StepKeepsInv | bagwiz/src/commands/pcd_compress_common.cpp:209-346 | Every step of reader, worker, collector or shutdown keeps: in-flight equals submitted minus drained and stays within three per worker; every ticket not yet drained has exactly one holder; what is held is the item of its bag position. |
| ParallelPass.RunKeepsInv | bagwiz/src/commands/pcd_compress_common.cpp:209-376 | So does every run, of any length and interleaving. |
| ParallelPass.DrainAbortIsFinal | bagwiz/src/commands/pcd_compress_common.cpp:260-273 | A fatal item ends the collector: what is drained later cannot matter. |
| ParallelPassResults.DrainingIsSync | bagwiz/src/commands/pcd_compress_common.cpp:330-346 | Draining the submitted items in ticket order writes what the one-thread loop writes, for transformed, passed-through, copied and dropped messages. |
| ParallelPassResults.ParallelPassIsSyncPass | bagwiz/src/commands/pcd_compress_common.cpp:178-379 | Any finished run in which the writer did not throw has the same writes, in the same order, the same declarations and exit status as the one-thread pass, and the same tallies but for copied messages, which only the parallel pass counts. |
| ParallelPassResults.FatalItemStopsTheSyncPass | bagwiz/src/commands/pcd_compress_common.cpp:437-440 | When the first fatal item is at position k, the writes are those of the items before it and the status is 1. |
| ParallelPassResults.WindowIsPartitioned | bagwiz/src/commands/pcd_compress_common.cpp:71-76 | In every reachable state the tickets from the next to drain up to the last submitted are split between the queue, the workers' hands and the completion map, each in exactly one, and number at most three per worker. |
| ParallelPassResults.NeverStuck | bagwiz/src/commands/pcd_compress_common.cpp:213-248 | Every reachable state that is not final has an enabled step: no deadlock, with stop and reader-done raised in any of the ways they can be. |
| ParallelPassResults.StepLowersWork | bagwiz/src/commands/pcd_compress_common.cpp:209-376 | Every step lowers a measure. |
| ParallelPassResults.RunsAreBounded | bagwiz/src/commands/pcd_compress_common.cpp:209-376 | A run is never longer than the work there was at the start. |
| ParallelPassResults.EveryRunEnds | bagwiz/src/commands/pcd_compress_common.cpp:364-378 | A run that can take no further step has all threads exited and joined. |
| ParallelPassThreads.ParallelContext.SubmitJob | bagwiz/src/commands/pcd_compress_common.cpp:320-329 | The reader's critical section for a selected message: refused once stopped, otherwise a ticket, a queue entry and one more in flight. |
| ParallelPassThreads.ParallelContext.TakeCompleted | bagwiz/src/commands/pcd_compress_common.cpp:240-257 | The collector's critical section: the item of the next ticket and no other, or the end once the reader is done and all is drained. |
| ParallelPassThreads.ParallelContext.TakeJob | bagwiz/src/commands/pcd_compress_common.cpp:211-220 | The worker's critical section: the oldest job, or exit only when stopped with nothing queued. |
| ParallelPassThreads.RunParallelTransformPass | bagwiz/src/commands/pcd_compress_common.cpp:178-379 | The threads run as objects, any of them next: it terminates, and unless the writer threw, log, status and tallies are those of the one-thread pass, and meet its law for every topic with a name. |
| ParallelPassResults.ParallelPassMeets | bagwiz/src/commands/pcd_compress_common.cpp:178-379 | A result that agrees with the one-thread pass writes, declares, warns and tallies what the law asks of the messages and the transform. |
| TransformPlan.PlanPcdTransform | bagwiz/src/commands/pcd_compress_common.cpp:451-575 | A plan is made exactly when the selection, the names and the collision rules allow it, and it is the plan asked for; every output is declared under its name and type, CDR-serialized, with the schema of the output type and the QoS of its input; a refusal names a selector that does not select, or a rule broken by the names of what the selectors do select. |
| TransformPlan.OneSelection | bagwiz/src/commands/pcd_compress_common.cpp:459-489 | If any selection that meets a request has output names without a collision, every selection that meets it has: what is selected does not depend on the order of the selectors. |
| TransformPlan.AcceptedPlanFits | bagwiz/src/commands/pcd_compress_common.cpp:512-573 | An accepted plan over uniquely named topics keeps outputs apart from everything else that will be declared. |
| TransformPlan.SyncAfterFits | bagwiz/src/commands/pcd_compress_common.cpp:384-441 | Along the pass every write goes to a declared topic, no topic is declared twice, and no name carries two types. |
| TransformPlan.AcceptedPassIsConsistent | bagwiz/src/commands/pcd_compress_common.cpp:512-573 | So for any accepted plan the one-thread pass and every finished run of the parallel one leave such a log, with and without force. |
| VoxelMap.SerialAddsTheKept | bagwiz/src/commands/calib_cam_lidar_common.cpp:818-856 | One thread over a cloud adds exactly the surviving points, in point order, and counts every point once. |
| VoxelMap.CloudIsAccountedFor | bagwiz/src/commands/calib_cam_lidar_common.cpp:706-894 | An accepted cloud in span raises added + non-finite + culled by its point count and the points held by the map by those added; any other cloud leaves the map alone. |
| VoxelMap.AddedPointsAreInTheMap | bagwiz/src/commands/calib_cam_lidar_common.cpp:498-523 | The total of the voxel counts grows by the points added. |
| VoxelMap.SortedListIsUnique | bagwiz/src/commands/calib_cam_lidar_common.cpp:543-555 | Two lists of the same voxels in key order are the same list, so the order of hash maps and partitions cannot show. |
| VoxelMap.FinishedIsUnique | bagwiz/src/commands/calib_cam_lidar_common.cpp:537-610 | There is one finished map for a given content. |
| MapChunks.StretchesAreTheCloud | bagwiz/src/commands/calib_cam_lidar_common.cpp:791-815 | The chunks' ranges, joined in order, are the whole point range. |
| MapChunks.ChunkCount | bagwiz/src/commands/calib_cam_lidar_common.cpp:791-795 | At most one chunk per worker, and with several none smaller than 4096 points on average. |
| MapChunks.PlacedBuckets | bagwiz/src/commands/calib_cam_lidar_common.cpp:803-857 | A chunk's bucket for a partition holds that partition's survivors of its stretch in point order, and its counts are the stretch's. |
| MapChunks.ChunksMakeTheCloud | bagwiz/src/commands/calib_cam_lidar_common.cpp:864-885 | Walking the chunks in order, a partition is fed its points of the whole cloud in cloud order, and the counts add up. |
| MapPartitions.AddAtHome | bagwiz/src/commands/calib_cam_lidar_common.cpp:498-523 | Adding a point in the partition its voxel hashes to is adding it to the whole map. |
| MapPartitions.FeedingPartitionsIsSerial | bagwiz/src/commands/calib_cam_lidar_common.cpp:868-892 | Every voxel receives its points in the order a single loop would feed it, so feeding the partitions separately splits the map the single loop builds, with addition unknown. |
| MapChunks.ChunkedCloudIsSerial | bagwiz/src/commands/calib_cam_lidar_common.cpp:785-892 | Chunks plus partitions give the serial map and the serial counts, for every cloud, chunk count and partition count. |
| MapDrain.WriteKeepsOtherParts | bagwiz/src/commands/calib_cam_lidar_common.cpp:566-581 | The partitions' parts of the one vector do not overlap: an entry written by one worker changes no other part. |
| MapDrain.DrainedIsTheMap | bagwiz/src/commands/calib_cam_lidar_common.cpp:566-581 | The vector, part after part, lists every voxel of the whole map once. |
| MapThreads.MapAccumulator.Add | bagwiz/src/commands/calib_cam_lidar_common.cpp:503-523 | One point adds each of its coordinates to the sum of that coordinate in its voxel and one to the count, and changes nothing else, or is refused exactly when no voxel index holds it. |
| MapThreads.MapAccumulationContext.PlaceChunks | bagwiz/src/commands/calib_cam_lidar_common.cpp:800-863 | With workers interleaved point by point, each chunk ends up with the survivors of its own stretch, whatever its buffers held before. |
| MapThreads.MapAccumulationContext.InsertPartitions | bagwiz/src/commands/calib_cam_lidar_common.cpp:868-892 | With partitions interleaved entry by entry, each ends up with its entries of all chunks added in order. |
| MapPass.AccumulateCloud | bagwiz/src/commands/calib_cam_lidar_common.cpp:706-894 | Error, tallies and map are those of the serial pass, and after an error the map is untouched. |
| MapDrain.DrainPartitions | bagwiz/src/commands/calib_cam_lidar_common.cpp:566-581 | With the workers interleaved entry by entry, every partition is emptied into its own part of the one vector, whatever the order of its entries. |
| MapPass.EmitAll | bagwiz/src/commands/calib_cam_lidar_common.cpp:592-609 | Every entry is emitted at its own place, in any order of the emit chunks. |
| MapPass.Finish | bagwiz/src/commands/calib_cam_lidar_common.cpp:537-610 | The finished cloud lists the mean of every voxel once (or the raw points as they came), and nothing stays behind; the voxels are in key order if and only if the range numbers suffice for the voxels and the workers. |
| MapPass.BuildMap | bagwiz/src/commands/calib_cam_lidar_common.cpp:706-894 | A whole pass has the serial pass's error, tallies and voxels for every pool size and partition count, and is in the serial pass's order if and only if the range numbers suffice for the map and the pool; and error, tallies and cloud are what the law below asks. |
| MapLaw.SerialCloudsMeet | bagwiz/src/commands/calib_cam_lidar_common.cpp:498-523 | There is a voxel where, and only where, a finite point in view lands; its x, y, z and intensity are each the left fold of addition over those of the placed, narrowed points that land in it, cloud after cloud and in point order, and its count is their number; every point is tallied once, as added, culled or unusable; the error is the first fault of the first cloud with one. |
| MapLaw.FinishedMeets | bagwiz/src/commands/calib_cam_lidar_common.cpp:592-609 | The finished cloud has for each such voxel the means of those sums, or, with the grid off, the points in view as they came. |
| MapPass.BuildTwice | bagwiz/src/commands/calib_cam_lidar_common.cpp:543-548 | Two passes over the same clouds whose pools both have range numbers enough, with whatever partition counts, return the same points, intensities and order. |
| MapPass.FailureEndsThePass | bagwiz/src/commands/calib_cam_lidar_common.cpp:725-740 | After a cloud has failed nothing else happens. |
| RangeScatter.SlotsAreDistinct | bagwiz_base/include/bagwiz/core/base/parallel_sort.hpp:98-107 | No two items are scattered to one slot, so the workers' writes never overlap, equal keys or not. |
| RangeScatter.BasesCover | bagwiz_base/include/bagwiz/core/base/parallel_sort.hpp:80-88 | The ranges together have exactly one slot per item. |
| RangeScatter.RangesAscend | bagwiz_base/include/bagwiz/core/base/parallel_sort.hpp:52-65 | Every key of a lower range comes before every key of a higher one. |
| ParallelSort.PickBounds | bagwiz_base/include/bagwiz/core/base/parallel_sort.hpp:52-65 | The bounds are the quantiles of the strided sample, one fewer than the workers, and ascend. |
| ParallelSort.Classify | bagwiz_base/include/bagwiz/core/base/parallel_sort.hpp:67-79 | Every item gets the number of its range, kept in 16 bits, and every chunk its counts, with the chunks interleaved item by item. |
| ParallelSort.Cursors | bagwiz_base/include/bagwiz/core/base/parallel_sort.hpp:80-96 | Every chunk's cursors start after the shares of the chunks before it. |
| ParallelSort.Scatter | bagwiz_base/include/bagwiz/core/base/parallel_sort.hpp:98-107 | Every item lands in its slot, with the chunks interleaved item by item. |
| RangeScatter.ResultHoldsTheItems | bagwiz_base/include/bagwiz/core/base/parallel_sort.hpp:98-117 | Scattering into ranges and sorting each loses and doubles nothing, whatever range numbers the items were given. |
| RangeScatter.ResultIsSortedIff | bagwiz_base/include/bagwiz/core/base/parallel_sort.hpp:98-117 | The result is in order if and only if the ranges follow the keys. |
| Sorting.OneSort | bagwiz_base/include/bagwiz/core/base/parallel_sort.hpp:28-39 | There is one list in order with given entries if their keys are unique. |
| ParallelSort.SortEntries | bagwiz_base/include/bagwiz/core/base/parallel_sort.hpp:28-117 | The result holds the items for every pool size; it is in order if and only if the range numbers follow the keys; and for unique keys it is the list a single sort gives if and only if the range numbers suffice for the counts of items and workers. |
| RangeNumbers.RangeOfKey | bagwiz_base/include/bagwiz/core/base/parallel_sort.hpp:52-77 | The range of a key depends only on how many of the sample are not above it and on the counts of sample and workers. |
| RangeNumbers.AscendIff | bagwiz_base/include/bagwiz/core/base/parallel_sort.hpp:72-77 | Along the sample the 16-bit numbers never fall if and only if the workers, modulo 65536 times the sample's size, are at most 65536. |
| RangeNumbers.DistinctInOrderIff | bagwiz_base/include/bagwiz/core/base/parallel_sort.hpp:52-77 | For unique keys, whatever they are, the numbers follow the keys if and only if they suffice: fewer than 65536 items, or workers such as that. |
| RangeNumbers.SufficeIffReliable | bagwiz_base/include/bagwiz/core/base/parallel_sort.hpp:28-77 | They suffice if and only if every list of that many items, with equal keys or not, is sorted on that many workers. |
| RangeNumbers.OneNumberPerWorker | bagwiz_base/include/bagwiz/core/base/parallel_sort.hpp:52-77 | On fewer than 4194304 workers that is to say: at most 65536 workers. |
| RangeNumbers.OneWorkerTooMany | bagwiz_base/include/bagwiz/core/base/parallel_sort.hpp:52-79 | They do not suffice for 65536 ascending keys on 65537 workers. |
| RejectBox.InverseUndoes | bagwiz_pointcloud/src/core/calib/se3.cpp:61-76 | A rigid transform is undone by its rigid inverse. |
| RejectBox.CornerBox | bagwiz/src/commands/calib_cam_lidar_common.cpp:641-656 | The box of a frustum is the padded hull of its eight transformed corners. |
| RejectBox.ViewRejectBoxes | bagwiz/src/commands/calib_cam_lidar_common.cpp:628-659 | One box per view; a view whose near depth is not positive gets an unbounded one. |
| RejectBox.HullCovers | bagwiz/src/commands/calib_cam_lidar_common.cpp:650-653 | The box holds every corner with the pad to spare. |
| RejectBox.HullIsTight | bagwiz/src/commands/calib_cam_lidar_common.cpp:650-653 | Each face of the box is exactly the pad away from some corner. |
| RejectBox.LowCorner | bagwiz/src/commands/calib_cam_lidar_common.cpp:641-656 | A coordinate is linear in image x, image y and depth, so some corner lies at most as high as any point of the frustum. |
| RejectBox.SeenPointInBox | bagwiz/src/commands/calib_cam_lidar_common.cpp:628-659 | A point a view accepts lies in the view's box, for every rigid pose. |
| RejectBox.BoxFirstIsPlain | bagwiz/src/commands/calib_cam_lidar_common.cpp:612-688 | The box-first test and the plain one agree on every point, every list of views with rigid poses, and whatever the bounds. |
| RejectBox.InAnyViewMeans | bagwiz/src/commands/calib_cam_lidar_common.cpp:612-626 | The scan accepts a point exactly when some view does. |
| RejectBox.InViewIff | bagwiz/src/commands/calib_cam_lidar_common.cpp:612-626 | A view accepts a point if and only if its camera's coordinates of it are (x, y, 1) times a depth that is not zero, with x, y and the depth within the view's three windows. |
| RejectBox.BoxFirstMeans | bagwiz/src/commands/calib_cam_lidar_common.cpp:612-688 | So with the boxes first a point is kept if and only if some view's camera shows it within its windows. |
| EncodeLoop.RunEncodeLoopSync | bagwiz/src/commands/movify_pipeline.cpp:78-121 | The plain loop hands the encoder the frames, and returns the status, that composing tick after tick gives, on streams that end and on streams whose end cannot be read; and the frames are what the law below asks. |
| EncodeLoop.RunMeets | bagwiz/src/commands/movify_pipeline.cpp:78-121 | Frame k exists as far as every tick composes and the encoder takes every frame before it, and its cell i holds what panel i renders of what it selects at tick k: from its own state, which only its own earlier selecting and rendering made, from tick k's own message, decoded for a camera clock, and at the size the clock named at tick 0. |
| EncodeLoop.ComposeTick | bagwiz/src/commands/movify_pipeline.cpp:86-115 | A tick is composed exactly when the clock panel selects, a cell size is known, and every panel selects and renders; then each cell shows what its own panel rendered. |
| EncodeLoop.FramesBeforeAFailure | bagwiz/src/commands/movify_pipeline.cpp:89-115 | When selecting or rendering first fails at tick k, frames 0 to k-1 have been handed over and nothing follows. |
| EncodeLoop.StoppedRunStays | bagwiz/src/commands/movify_pipeline.cpp:116-118 | A run that has stopped hands over nothing more. |
| EncodeParallel.RunEncodeLoopParallel | bagwiz/src/commands/movify_pipeline.cpp:123-278 | For every stream, every kind of clock panel and every interleaving of jobs, decoders and encoder the frames and the status are those of the plain loop, failures of panels and encoder included, and every cell shows what its panel renders, by the same law; an empty stream gives status 1; no prefetch is refused, and a camera clock decodes no tick after the first inline; when the end of the stream cannot be read the frames are those of all but its last three ticks. |
| EncodeParallel.BrokenStreamLosesTheWindow | bagwiz/src/commands/movify_pipeline.cpp:216-229 | In that case they are exactly the plain loop's frames before the window, at most three fewer in all, and fewer if and only if the run is still going at the first tick of the window and that tick composes. |
| EncodeParallel.FramesAfter | bagwiz/src/commands/movify_pipeline.cpp:78-121 | After k ticks there are exactly the first k frames of the whole run, or all of them if it made fewer. |
| EncodeParallel.LoseTheWindow | bagwiz/src/commands/movify_pipeline.cpp:78-278 | Of three messages followed by a failing read the plain loop encodes all, the parallel loop none. |
| EncodeParallel.RunJobs | bagwiz/src/commands/movify_pipeline.cpp:246-271 | While a tick's jobs run in any order the canvas the encoder reads does not change, what it reads is the finished frame, and the jobs' own canvas ends up composed; it terminates. |
| EncodeParallel.ReadAhead | bagwiz/src/commands/movify_pipeline.cpp:216-229 | For a camera clock the queue and the busy decoders grow together: they hold the same ticks before and after, and every tick read finds a decoder free; for any other clock no decoder is touched. |
| EncodeParallel.PrefetchFindsASlot | bagwiz/src/commands/movify_camera_panel.cpp:310-344 | With fewer than three ticks in work there is a free slot, and using it keeps one slot per tick. |
| EncodeParallel.TakeFindsTheTick | bagwiz/src/commands/movify_camera_panel.cpp:346-367 | The slot of a tick read ahead is found, its picture is the decode of that tick's own payload, and taking it frees that slot only. |
| EncodeParallel.BusySlotsNeedTicks | bagwiz/src/commands/movify_camera_panel.cpp:310-332 | All slots busy means at least three ticks in work. |
| EncodeParallel.AheadTable.Prefetch | bagwiz/src/commands/movify_camera_panel.cpp:310-344 | The first free slot gets the tick; none free, none touched. |
| EncodeParallel.AheadTable.TakeOrDecode | bagwiz/src/commands/movify_camera_panel.cpp:369-383 | The camera clock selects from the picture decoded ahead, or decodes the tick itself when no slot holds it. |
| EncodeParallel.OneJobMoved | bagwiz/src/commands/movify_pipeline.cpp:135-149 | A job's action touches its own panel and its own cell of the tick's canvas. |
| EncodeParallel.ComposeFirst | bagwiz/src/commands/movify_pipeline.cpp:161-188 | On the first tick the clock panel selects alone and pins the cell size of both canvases; it fails exactly when it cannot select or names no size. |
| EncodeParallel.ComposeNext | bagwiz/src/commands/movify_pipeline.cpp:241-261 | A later tick is composed from the stage before it while the encoder reads the other canvas unchanged. |
| EncodeParallel.FinishedJobsComposeTheTick | bagwiz/src/commands/movify_pipeline.cpp:190-209 | All jobs succeed exactly when the plain loop's tick would, and then panels and cells are the plain loop's. |
| GridCanvas.AutoGridSpec | bagwiz/src/commands/movify_layout.cpp:18-26 | The counting loop finds the default grid. |
| GridCanvas.AutoGridIsNearSquare | bagwiz/src/commands/movify_layout.cpp:18-26 | It has the fewest columns whose square holds the panels, a cell for every panel, and no empty row. |
| GridCanvas.AcceptedTexts | bagwiz/src/commands/movify_layout.cpp:28-64 | A grid text is accepted exactly when it spells two positive 32-bit numbers with an x between and a product no less than the panels; a number too large counts as zero. |
| GridCanvas.WrittenGridIsAccepted | bagwiz/src/commands/movify_layout.cpp:28-64 | Writing a large enough grid out and parsing it gives the grid back. |
| GridCanvas.AcceptedGridHasCells | bagwiz/src/commands/movify_layout.cpp:28-64 | Whatever is accepted has a cell for every panel. |
| GridCanvas.CellsAreDisjoint | bagwiz/src/commands/movify_layout.cpp:79-86 | Where the frame's width fits 32 bits no byte belongs to two cells or to two places of one. |
| GridCanvas.CellsAreApartIff | bagwiz/src/commands/movify_layout.cpp:66-86 | The cells are apart, as panels that draw concurrently need, if and only if columns times cell width is below 2^32, or there is one pixel row, or there is one grid row and the stride has wrapped to zero. |
| GridCanvas.SharedByte | bagwiz/src/commands/movify_layout.cpp:79-86 | Otherwise two cells share a byte: which, and where in each. |
| GridCanvas.WidthThatWraps | bagwiz/src/commands/movify_layout.cpp:28-86 | At 4194304 columns of 1024 pixels, a grid that is accepted, the stride is zero: all pixel rows of a cell are one, the last byte is in no cell, and with two grid rows cells share bytes. |
| GridCanvas.CellsLieInBuffer | bagwiz/src/commands/movify_layout.cpp:66-86 | Every byte of every cell lies in the buffer, even when the width wraps. |
| GridCanvas.CellsTileTheBuffer | bagwiz/src/commands/movify_layout.cpp:66-86 | The cells cover the buffer exactly if and only if columns times cell width is below 2^32 or there is one pixel row. |
| GridCanvas.LastByteIsLost | bagwiz/src/commands/movify_layout.cpp:79-86 | When the width wraps, the last byte of the buffer belongs to no cell. |
| GridCanvas.CenteredFits | bagwiz/src/commands/movify_camera_panel.cpp:273-274 | The centering offset of a picture no larger than its cell does not underflow and splits the rest evenly. |
| GridCanvas.RowIsShown | bagwiz/src/commands/movify_camera_panel.cpp:272-283 | Copying the next row of a picture shows that row, and changes no other byte of any cell. |
| FrameLaw.ShowingMeets | bagwiz/src/commands/movify_camera_panel.cpp:272-283 | A frame whose cells show their pictures is, byte for byte and row by row: in the cell of picture i, at pixel row y and byte b counted from the centering offsets, byte y * 3 * width + b of picture i; everywhere else zero. |
| PanelPaste.FitStaysInCell | bagwiz/src/commands/movify_camera_panel.cpp:199-204 | A picture scaled to fit rounds to no more than the cell in both directions, even with an error of half a pixel, and fills it in one. |
| PanelPaste.ViewRenderer.Prepare | bagwiz/src/commands/movify_camera_panel.cpp:171-216 | The size is the pinned one, or each side to the nearest pixel by one scale: the fixed one, or the largest that keeps the picture inside its cell; a renderer of pinned scale or size refuses a picture of another size than its first and settles on one size whatever the cell; a calibration made at the picture's size is scaled exactly as the picture is. |
| PanelPaste.ViewRenderer.InfoFits | bagwiz/src/commands/movify_camera_panel.cpp:196-213 | The calibration a picture is drawn with has the size the picture is drawn at, unless it has no size or was scaled to none. |
| CameraCalibration.ScaledProjection | bagwiz_image/src/core/image/camera_info.cpp:110-155 | A scaled calibration projects every point to where the scaled picture shows it. |
| CameraCalibration.SecondRowScalesIff | bagwiz_image/src/core/image/camera_info.cpp:135-155 | The intrinsic matrix's second row shows every ray where the scaled picture does if and only if its first entry, which is not scaled, is zero, or the height stays. |
| CameraCalibration.ResizedInfoFits | bagwiz_image/src/core/image/camera_info.cpp:157-165 | Matching a scaled calibration to the picture's size changes nothing when it was made at that picture's size, and gives that size otherwise. |
| PanelPaste.PasteRow | bagwiz/src/commands/movify_camera_panel.cpp:272-283 | The bytes of one row, and no others, go centered into their own cell, and nowhere else. |
| PanelPaste.PasteAll | bagwiz/src/commands/movify_camera_panel.cpp:272-283 | Panels pasting at the same time, rows in any order, leave a frame that holds, where the width fits, exactly the bytes of the pictures, each centered in its cell, upright, on black. |
| CameraFrames.ClockCamera.Select | bagwiz/src/commands/movify_camera_panel.cpp:369-409 | The first picture of the clock camera fixes the render size, from the output width where one is given; every later picture is brought to the same size, or refused if it is not like the first. |
| CameraFrames.CameraGrid.PrepareAll | bagwiz/src/commands/movify_camera_panel.cpp:384-447 | Once the cell size is the clock's, its picture fills its cell exactly and every other panel's is as large as its cell allows and no larger. |
| CameraFrames.CameraGrid.Compose | bagwiz/src/commands/movify_pipeline.cpp:86-115 | Tick after tick, sizes as the panels themselves settle them: every picture lies inside its own cell, and where the frame's width fits the frame holds exactly the pictures' bytes, each centered in its cell, on black. |
| CameraFrames.ClockCamera.WidthSizeIsNear | bagwiz/src/commands/movify_camera_panel.cpp:384-396 | With an output width given, the clock's size is even, within two pixels of a column's share of the width, and within two of the height that keeps the frame's shape. |
| NearestMessage.NearestMessageSource.Fetch | bagwiz/src/commands/movify_camera_panel.cpp:121-162 | For targets that never go back a fetch returns a message no other is nearer than, the earlier of two as near, and none only for an empty topic; it fails exactly when the end of the topic would be read and cannot be; no message is read twice. |
| NearestMessage.SidesAreNearest | bagwiz/src/commands/movify_camera_panel.cpp:150-161 | The nearer side of a boundary at the target is nearest of the whole sorted stream. |
| NearestMessage.Follower.Select | bagwiz/src/commands/movify_camera_panel.cpp:411-447 | What a follower shows is a message at the nearest record time although it skips decoding when the time has not changed; it fails exactly when the topic cannot be read or that message not decoded; it is selected without a picture if and only if it had none and what is nearest was recorded at -1. |
| NearestMessage.FollowerOfMinusOne | bagwiz/src/commands/movify_camera_panel.cpp:411-502 | On a topic whose one message is recorded at -1 the panel selects and then draws from a null pointer. |
| NearestMessage.NearestMapFix | bagwiz/src/commands/movify_map_track.cpp:130-147 | Binary search attains the least distance, and the record time the streaming reader would. |
| DirectEncode.RunDirectEncodePass | bagwiz/src/commands/movify_direct.cpp:106-156 | The ring pass hands over the frames, and returns the status, of dealing with the messages one by one, for any slot count, failing decodes, a failing encoder and a failing read; it terminates; and the frames are what the law below asks. |
| DirectEncode.SerialMeets | bagwiz/src/commands/movify_direct.cpp:136-157 | Frame i is the decode of message i, up to the first message that does not decode or frame the encoder does not take. |
| DirectEncode.SerialEncodesAll | bagwiz/src/commands/movify_direct.cpp:136-157 | When nothing fails every message is encoded once, in bag order. |
| DirectEncode.Launch | bagwiz/src/commands/movify_direct.cpp:112-124 | A message goes into a slot whose frame has been encoded; every other message in the window keeps its slot. |
| DirectEncode.SlotsDiffer | bagwiz/src/commands/movify_direct.cpp:112-124 | Two ticks less than a ring apart never share a slot. |
| SamplePicks.EligibleSampleIndices | bagwiz/src/commands/calib_cam_lidar_common.cpp:291-304 | Exactly the images inside the trimmed span, in order. |
| SamplePicks.FlooredProduct | bagwiz/src/commands/calib_cam_lidar_common.cpp:317-321 | Flooring a product off by less than one part in n-1 gives the exact quotient, or one less when it is whole. |
| SamplePicks.FlooredIncreases | bagwiz/src/commands/calib_cam_lidar_common.cpp:317-321 | With more candidates than picks such floors never repeat. |
| SamplePicks.PickSampleIndices | bagwiz/src/commands/calib_cam_lidar_common.cpp:306-323 | The picks increase strictly, are eligible, and run from the first eligible to the last; they are all the eligible ones, or, with more eligible than asked, pick k is the eligible image at the k-th of samples - 1 equal steps, floored, or the one before where the step is whole. |
| SamplePicks.EvenlySpaced | bagwiz/src/commands/calib_cam_lidar.cpp:555-582 | As many indices as asked or all of them, strictly increasing, from the first to the last, index k at the k-th of n - 1 equal steps, floored, or one less where the step is whole. |
| SamplePicks.ReadPicks | bagwiz/src/commands/calib_cam_lidar.cpp:677-690 | One pass meets exactly the picks up to the first that is not larger than the one before it or lies past the stream. |
| SamplePicks.AllMetIffIncreasing | bagwiz/src/commands/calib_cam_lidar.cpp:677-690 | So it meets all of them if and only if they increase and lie in the stream. |
| SamplePicks.PickAndRead | bagwiz/src/commands/calib_cam_lidar.cpp:677-690 | Picking and then reading in one pass yields the message of every pick, once and in order. |
| PoseGate.PoseGateIntervals | bagwiz/src/commands/calib_cam_lidar_common.cpp:325-350 | The intervals tile the poses, none empty; no member has crossed a threshold from its anchor, every next anchor has; with both thresholds off there is one interval. |
| PoseGate.GateCutsMeet | bagwiz/src/commands/calib_cam_lidar_common.cpp:325-350 | Said of the frames themselves: from its interval's first frame no frame's pose has moved or turned by the thresholds that are on, the next interval's first frame has. |
| PoseGate.GatedIntervalsAreUnique | bagwiz/src/commands/calib_cam_lidar_common.cpp:332-349 | Only one list of intervals does that. |
| PoseGate.KeyframeGatedPicks | bagwiz/src/commands/calib_cam_lidar.cpp:599-636 | From the stamps of a recording: no result exactly when the eligible frames with a pose make fewer than three intervals; otherwise the picks are such frames, increase strictly, each lies in the interval of its group, the groups are the intervals at equal floored steps, in order, and the frames of each are those at equal floored steps through its interval, its first among them. |
| PoseGate.GatedFrames | bagwiz/src/commands/calib_cam_lidar.cpp:603-618 | What is gated is exactly the eligible frames with a pose, with their own poses. |
| PoseGate.Nominate | bagwiz/src/commands/calib_cam_lidar.cpp:629-634 | One more interval gives between one and eight frames after all earlier ones. |
| PoseGate.SharpestPerGroup | bagwiz/src/commands/calib_cam_lidar.cpp:736-758 | One frame per group that has any, by group: the sharpest, and the first of those as sharp. |
| FrameBlocks.BlocksAreApart | bagwiz/src/commands/calib_cam_lidar_offset.cpp:74-82 | With more than 1200 eligible the twelve blocks of 100 are disjoint and in range, the first at the first eligible frame and the last ending at the last. |
| FrameBlocks.EveryBlockIsMarked | bagwiz/src/commands/calib_cam_lidar_offset.cpp:74-82 | Every frame of every block carries that block's mark. |
| FrameBlocks.SelectFrames | bagwiz/src/commands/calib_cam_lidar_offset.cpp:58-83 | Up to 1200 eligible frames are all marked block 0; with more, exactly the hundred frames from the b-th of eleven equal floored steps on are marked b; frames not eligible never are. |
| FrameBlocks.BlocksAreEven | bagwiz/src/commands/calib_cam_lidar_offset.cpp:74-82 | A frame is marked b if and only if its rank is within a hundred of the start s with 11 s <= b (count - 100) < 11 (s + 1). |
| PoseTiles.ResumedSearchAgrees | bagwiz/src/commands/movify_pose_overlay.cpp:317-324 | A segment search resumed for a larger arc length finds what one from the start finds. |
| PoseTiles.SampleIsAtItsArcLength | bagwiz/src/commands/movify_pose_overlay.cpp:320-329 | A sample lies at exactly the arc length asked for. |
| PoseTiles.PlateFits | bagwiz/src/commands/movify_pose_overlay.cpp:352-353 | Plate k is laid exactly when it fits, so there are floor((total - 1.2) / 2) + 1 of them once one fits. |
| PoseTiles.PlatesAreApart | bagwiz/src/commands/movify_pose_overlay.cpp:352-353 | Plates cover stretches that do not meet. |
| PoseTiles.FadeFalls | bagwiz/src/commands/movify_pose_overlay.cpp:365 | The fade falls from one at the start of a path to zero at its end. |
| PoseTiles.LayTiles | bagwiz/src/commands/movify_pose_overlay.cpp:301-377 | The walk lays every plate that fits, in order, each with the ends, axes, corners and fade that two searches from the start would give, and as the law below asks. |
| PoseTiles.LaidMeet | bagwiz/src/commands/movify_pose_overlay.cpp:301-377 | Plate k exists if and only if 2 k + 1.2 is on the path; its ends are the points at arc lengths 2 k and 2 k + 1.2, in the first segment that reaches them; its axes are the level unit vectors to the left of those segments, or the axis before where a segment goes straight up; its corners are, in order, left of the begin, left of the end, right of the end, right of the begin, each half a width away; its fade is the part of the path ahead. |
| PoseTiles.HeadingHasLeft | bagwiz/src/commands/movify_pose_overlay.cpp:333-350 | The left axis of a segment with a ground component is level, of unit length, at right angles to it and on its left. |

## Left out

- ParallelPassResults.ParallelPassIsSyncPass: says nothing of runs in which the writer throws, because what had been written by then depends on the writer; those runs are still shown to end.
- ParallelPassResults.ParallelPassIsSyncPass: tallies agree on every topic name but the empty one, under which only the parallel pass counts copied messages.
- MapChunks.ChunkCount: the floor on the points per chunk is on the average; the last chunk may be smaller, and is in the code.
- ParallelSort.SortEntries: the order among equal keys, which the code leaves open, is left open; for a list with equal keys on a pool without range numbers enough, the exact condition is stated on its sample (`RangeNumbers.SortsInOrder`).
- RejectBox.BoxFirstIsPlain: over the reals; that the pad of a millimetre covers the roundoff of doubles is not proved.
- EncodeParallel.RunEncodeLoopParallel: which message is logged when several panels fail is not modelled, and an exception in a job is a failure like any other.
- GridCanvas.AutoGridSpec: up to (2^32 - 1)^2 panels, beyond which the 32-bit column counter wraps and the loop does not end.
- GridCanvas.CellsTileTheBuffer: buffers of 2^64 bytes and more, whose size would itself wrap, are not modelled.
- PanelPaste.ViewRenderer.Prepare: over the reals, so that roundoff of the scale is not modelled; lens distortion and rectification, which scaling leaves alone, are not either.
- CameraFrames.CameraGrid.Compose: every panel is a camera with a frame to show at every tick, and the resizing itself is an unknown function that returns a picture of the size asked for.
- SamplePicks.PickSampleIndices: that doubles are as close as assumed is not proved; the assumption is stated for the counts at hand only, and three samples or more are what the command line admits.
- PoseTiles.LayTiles: over the reals, with any length function whose square is the sum of squares; the transform to the picture's frame is an unknown function.
- The placement of a point (its fields, its transform, the view cull, the narrowing to float) enters the map proofs as unknown functions of the raw point, and deskewing as an outcome that keeps the point count.
- Memory trimming, hash quality, 32-bit overflow of voxel counts and 64-bit overflow of counters and stamps.
- Reopening the bag, log texts, the schema lookup, and the decoding half of the sample reader: failures of foreign code with no effect on what is proved.
- The command line, completion, reports, bag and video formats, and the optimisers: long tables or foreign code.
