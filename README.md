# cvgo core, modelled in Dafny

cvgo lets a player aim in a game by moving a hand in front of a webcam. It has two parts, and this project models the core of each.

- **vaaac**, the tracker. It reads camera frames and keeps the largest centred square of each frame. It binarises that square by skin tone. When the central *reticle* square sees skin, it runs a breadth-first search over 2-by-2 pixel blocks. The search finds the aim point (the block taken in last) and the object's bounding box. An aim point inside the central *no-aim area* snaps back to the centre. A small state machine over the aim point's row watches for a "trigger" gesture: the hand rises, then drops back near where it started. `cvgo/src/vaaac.hpp` is a header-only copy of `cvgo/src/vaaac/vaaac.cpp`, and both hold the same code:
  - the constructor is at cpp 10-57 and hpp lines 239-286;
  - `update` is at cpp 123-244 and hpp lines 351-472.

  The rows below cite the `.cpp` lines.
- **memory**, the signature scanner. It finds an address in another process. It walks a module's pages region by region with `VirtualQueryEx`/`VirtualProtectEx` and scans each region for a byte pattern with `?` wildcards. It then follows a chain of pointer offsets and returns the result, either whole or cut to its low 16 bits.

## How the model is built

- **Modules.** `Memory` and `MemoryProperties` cover the scanner. `Geometry`, `Tracker`, `TrackerProperties`, `Trigger` and `Vaaac` cover the tracker. `Machine` holds the 32-bit integer types and `Wrappers` an `Option` type.
- **No real system calls.** The operating system is a `Process` value of three oracles: the query, the protection change, and the memory. Every call the resolver makes is recorded as an `OsCall`, so the order of the calls can be stated and proved.
- **Code that changes state stays imperative:**
  - `PatternScan` keeps its nested loops over a heap buffer.
  - The region walk and the offset chain are loops.
  - The flood fill keeps its queue and its `(res + 1)` by `(res + 1)` `visited` table (an `array2`).
  - The tracker is a class whose fields `Update` changes.
- **Each imperative member has a specification function:** `ScanValue`, `ModuleWalk`, `Chain`, `Resolve`, `Seeds`, `Search`/`Run`/`Step`, `Trigger.Step` and `Vaaac.Track`. The member is proved equal to that function, and the lemmas state what the function promises.
- **Integer widths.** `unsigned long` arithmetic wraps modulo 2^32 (`Machine.Add`/`Sub`). C++ integer `/` truncates toward zero (`Geometry.TruncDiv`). The thresholds `p * res / 100.0` are `double` divisions converted to `int` when stored, which truncates. `Trigger.PixelsOf` models them as the truncated integer quotient. That is exact because the percentages are whole numbers.

Behaviour of the code worth knowing:
- `getOffset` with an empty offset list still returns the match plus `extra` (`MemoryProperties.EmptyOffsetsKeepMatch`).
- `patternScan` never tests the offset where the pattern would end flush with the buffer (`Memory.FlushMatchMissed`).
- The seeds reach 2 pixels beyond the reticle (`TrackerProperties.SeedsNearReticle`).
- The box grows to a block's top-left corner only (`TrackerProperties.SpanTight`).
- The offset `(0, 0)` makes every block taken in push itself again; the `visited` table then skips it.

## Model

| member | source | states |
|---|---|---|
| Machine.Add | cvgo/src/memory.cpp:80 | `unsigned long` addition: the result is congruent to the sum modulo 2^32, and equals it when there is no wrap |
| Machine.Sub | cvgo/src/memory.cpp:82 | `unsigned long` subtraction: adding `b` back gives `a`, and it is exact when `b <= a` |
| Machine.LoadWord | cvgo/src/memory.h:40-45 | `read<unsigned long>`: the little-endian word whose bytes 0, 1, 2 and 3 are the bytes at the address and the three above it |
| Memory.FirstMatchFrom | cvgo/src/memory.cpp:43-49 | the offset found is a match that the loop tests (it ends strictly before the buffer does), and no offset tested before it matches |
| Memory.PatternScan | cvgo/src/memory.cpp:38-52 | the nested loops return `begin + i` for the first matching offset `i`, or 0 (`ScanValue`) |
| Memory.WildcardBytesIgnored | cvgo/src/memory.cpp:46 | pattern bytes under a `?` never change what the scan finds |
| Memory.FlushMatchMissed | cvgo/src/memory.cpp:43 | a match that ends exactly at the end of the region, with no earlier match, is reported as no match |
| Memory.VisitRegion | cvgo/src/memory.cpp:70-76 | one pass of the region loop always advances the cursor, including for a skipped region. A failed query keeps the previous `RegionSize` (0x1000 at first) as the step and finds nothing. A successful query steps by the reported size. A failed protection change finds nothing. The step stays a valid region size |
| Memory.WalkModule | cvgo/src/memory.cpp:68-77 | the region loop returns the first non-zero scan result and the calls in order (`ModuleWalk`) |
| Memory.FollowChain | cvgo/src/memory.cpp:79-83 | the offset loop yields the value and reads of `Chain` |
| Memory.MemoryAccess.constructor | cvgo/src/memory.cpp:54-55 | a new object has an empty module table |
| Memory.MemoryAccess.SetModuleInfo | cvgo/src/memory.cpp:21-36 | finds the first entry named `name` from the second snapshot entry on; records its base and size exactly when one exists; otherwise leaves the table unchanged |
| Memory.MemoryAccess.GetOffset | cvgo/src/memory.cpp:67-87 | inserts an empty record for an unknown module name, then returns the walk, the chain and the final mode, with every OS call in order (`Resolve`) |
| MemoryProperties.VisitWellOrdered | cvgo/src/memory.cpp:72-75 | a single pass makes its calls in the order the source makes them |
| MemoryProperties.WalkStopsAtFirstHit | cvgo/src/memory.cpp:75-76 | every recorded scan is `patternScan` on its region; each scan before the last found nothing, and the walk's result is the last scan's |
| MemoryProperties.WalkWellOrdered | cvgo/src/memory.cpp:71-77 | protection changes only touch the region just queried; every granted change is undone before the scan; a query follows every failed or finished region |
| MemoryProperties.WalkQueriesAscend | cvgo/src/memory.cpp:71 | every queried address lies in the module's range, and the addresses strictly increase |
| MemoryProperties.WalkMakesNoReads | cvgo/src/memory.cpp:68-77 | the region walk makes no word reads |
| MemoryProperties.EmptyModuleFindsNothing | cvgo/src/memory.cpp:71 | a module of size 0, such as the record `operator[]` inserts, is not walked, and the match is 0 |
| MemoryProperties.ChainReadsOncePerOffset | cvgo/src/memory.cpp:79-83 | the chain makes exactly one read per offset, and each read records the word stored there |
| MemoryProperties.ChainSplit | cvgo/src/memory.cpp:79-83 | following `o1 + o2` is following `o1`, then `o2` from where `o1` ended |
| MemoryProperties.ChainLastStep | cvgo/src/memory.cpp:80-82 | the last offset adds, reads one word and subtracts the module base |
| MemoryProperties.ResolveReadsAfterWalk | cvgo/src/memory.cpp:67-87 | the calls of `getOffset` are the walk's (none of them reads) followed by one read per offset |
| MemoryProperties.EmptyOffsetsKeepMatch | cvgo/src/memory.cpp:79-84 | with no offsets, relative mode returns the matched address plus `extra` |
| Memory.Finish | cvgo/src/memory.cpp:84-87 | relative mode returns `addr + extra` modulo 2^32; truncated mode returns the low 16 bits of the exact sum `addr + extra` |
| MemoryProperties.TruncatedIsLowHalfOfRelative | cvgo/src/memory.cpp:84-87 | the truncated result is the low 16 bits of the relative one, so at most 0xFFFF |
| Geometry.TruncDiv | cvgo/src/vaaac/vaaac.cpp:36-39 | C++ integer division, as in `RETICLE_SIZE / 2` and `NO_AIM_AREA_SIZE / 2`: the quotient truncates toward zero |
| Geometry.Min | cvgo/src/vaaac/vaaac.cpp:23 | `std::min`: no larger than either argument, and equal to one of them |
| Geometry.Max | cvgo/src/vaaac/vaaac.cpp:189-190 | `std::max`: no smaller than either argument, and equal to one of them |
| Tracker.AnyLit | cvgo/src/vaaac/vaaac.cpp:156 | the reticle test holds exactly when some pixel of the rectangle is set |
| Tracker.Centred | cvgo/src/vaaac/vaaac.cpp:36-40 | the reticle and no-aim squares have the given side and lie centred on `(halfRes, halfRes)` to within one pixel |
| Tracker.NeighbourOffsetsRowMajor | cvgo/src/vaaac/vaaac.cpp:42-47 | `bfsOffsets` has nine entries; entry `3(i+1) + (j+1)` is `(2i, 2j)`, for `i`, then `j`, over `-1, 0, 1` |
| Tracker.NodeSeeds | cvgo/src/vaaac/vaaac.cpp:162-168 | the innermost seeding loop queues node plus offset, for each offset with no negative component, in order |
| Tracker.ColumnQueue | cvgo/src/vaaac/vaaac.cpp:161-169 | the middle seeding loop queues the seeds of the column's nodes, in order |
| Tracker.SeedQueue | cvgo/src/vaaac/vaaac.cpp:160-170 | the three seeding loops leave the queue `Seeds` |
| Tracker.Step | cvgo/src/vaaac/vaaac.cpp:172-194 | one pass marks a new block or shortens the queue, which is how the search ends |
| Tracker.BlockLitPixels | cvgo/src/vaaac/vaaac.cpp:177 | the block test holds exactly when one of the block's four pixels is set |
| Tracker.Grow | cvgo/src/vaaac/vaaac.cpp:187-190 | the grown box contains the old box and the block's top-left corner; each edge is the old edge or the block's coordinate |
| Tracker.PushNeighbours | cvgo/src/vaaac/vaaac.cpp:192-194 | pushes the block plus each offset, in order |
| Tracker.VisitFront | cvgo/src/vaaac/vaaac.cpp:172-194 | one pass on the real queue and `visited` table is `Step`; the table marks exactly the visited blocks |
| Tracker.Flood | cvgo/src/vaaac/vaaac.cpp:158-195 | the search loop returns the aim point and box of `Search` |
| Tracker.Snap | cvgo/src/vaaac/vaaac.cpp:202-205 | an aim point inside the no-aim area becomes the centre, and any other point is kept; so the result is the centre or lies outside the area |
| TrackerProperties.SpanEncloses | cvgo/src/vaaac/vaaac.cpp:187-190 | the box contains the reticle box and every block taken in |
| TrackerProperties.SpanTight | cvgo/src/vaaac/vaaac.cpp:187-190 | each edge of the box is the reticle's edge or a taken block's coordinate |
| TrackerProperties.StepKeepsMarked | cvgo/src/vaaac/vaaac.cpp:175-177 | after a pass, taken blocks are marked and every marked block lies in the image; a marked block is taken exactly when it is lit; no block is taken twice |
| TrackerProperties.StepKeepsClosed | cvgo/src/vaaac/vaaac.cpp:171-194 | no seed and no neighbour of a taken block is lost from the queue without being visited |
| TrackerProperties.StepKeepsReached | cvgo/src/vaaac/vaaac.cpp:171-194 | every queued node and taken block is a seed or a neighbour of a block taken before it |
| TrackerProperties.StepKeepsTraced | cvgo/src/vaaac/vaaac.cpp:184-190 | the aim point stays the last block taken in, and the box their span |
| TrackerProperties.RunKeeps | cvgo/src/vaaac/vaaac.cpp:171-195 | the whole loop keeps the invariant and ends with an empty queue |
| TrackerProperties.SearchKeeps | cvgo/src/vaaac/vaaac.cpp:148-195 | the search as `update` starts it (seeds queued, nothing visited, aim at the centre, the reticle's box) ends in a state that satisfies the invariant, with an empty queue |
| TrackerProperties.SearchTakesLitBlocks | cvgo/src/vaaac/vaaac.cpp:175-185 | every block taken in lies in the image and is lit, and none is taken twice |
| TrackerProperties.SearchIsClosed | cvgo/src/vaaac/vaaac.cpp:160-195 | every lit in-image seed, and every lit in-image neighbour of a block taken in, is taken in |
| TrackerProperties.SearchIsReachable | cvgo/src/vaaac/vaaac.cpp:160-195 | each block taken in is a seed or a neighbour of a block taken in before it |
| TrackerProperties.SearchAimAndBox | cvgo/src/vaaac/vaaac.cpp:152-153 | the aim point is the last block taken in, or the centre when none was; the box spans the reticle and all blocks taken in, and each of its edges is the reticle's or a block's |
| TrackerProperties.NodeSeedsOfNeighbours | cvgo/src/vaaac/vaaac.cpp:162-168 | with the constructor's offsets, each node seeds itself and the nodes 2 right, 2 below, and both |
| TrackerProperties.SeedsCoverReticle | cvgo/src/vaaac/vaaac.cpp:160-161 | every node of the 21-by-21 grid over the reticle, 2 pixels apart, is queued |
| TrackerProperties.SeedsNearReticle | cvgo/src/vaaac/vaaac.cpp:160-168 | no seed lies above or left of the reticle, or more than 2 pixels right of or below it |
| TrackerProperties.NeighboursAround | cvgo/src/vaaac/vaaac.cpp:43-47 | with the constructor's offsets, the neighbours of a block are exactly itself and the 8 blocks 2 pixels around it |
| TrackerProperties.NeighbourSymmetric | cvgo/src/vaaac/vaaac.cpp:43-47 | being a neighbour is symmetric |
| Trigger.PixelsOf | cvgo/src/vaaac/vaaac.cpp:49-52 | for a non-negative percentage and `res`, `percent * res / 100` truncated: the largest count of pixels not above that share of `res` |
| Trigger.ThresholdsFor | cvgo/src/vaaac/vaaac.cpp:49-52 | the thresholds are exactly 3 %, 15 %, 3 % and 2 % of `res`, each rounded down; so the minimum travel is at most the maximum, and the x deviation is at most the y deviation, which equals the minimum travel |
| Trigger.StepAsWritten | cvgo/src/vaaac/vaaac.cpp:210-244 | the state machine as written; the aim changes only on a trigger |
| Trigger.Step | cvgo/src/vaaac/vaaac.cpp:210-244 | the corrected state machine keeps `yxDeltaSize` equal to the number of kept points; a trigger needs the downward phase and returns to the first kept point with a fresh window |
| Trigger.StepKeepsShape | cvgo/src/vaaac/vaaac.cpp:210-244 | between frames, a rising window is non-increasing, and a falling one is a valley whose rise was within the thresholds |
| Trigger.TriggerNeedsGesture | cvgo/src/vaaac/vaaac.cpp:226-240 | a trigger fires only after a rise within the thresholds, on a drop, when the last point is within the allowed deviation of the first; the aim becomes the first point |
| Trigger.TriggerExactly | cvgo/src/vaaac/vaaac.cpp:230-243 | on a drop after the rise, the trigger fires exactly when both deviation tests pass; either way the window restarts |
| Trigger.PeakKeepsWindow | cvgo/src/vaaac/vaaac.cpp:217-220 | the first lower point after a rise within the thresholds only clears `increment`; the kept points and their count stay, and the lower point is not added |
| Trigger.WrongTravelResets | cvgo/src/vaaac/vaaac.cpp:217-224 | a rise outside the thresholds throws the gesture away |
| Trigger.StepsAgreeBeforeClose | cvgo/src/vaaac/vaaac.cpp:210-229 | the written and corrected machines agree until an attempt ends |
| Trigger.CloseDiffersOnlyInSize | cvgo/src/vaaac/vaaac.cpp:230-243 | on a frame that ends an attempt, the written and corrected machines trigger and aim alike; their windows differ only in `yxDeltaSize`, which the written one keeps |
| Trigger.StaleSizeAfterTrigger | cvgo/src/vaaac/vaaac.cpp:241-242 | a concrete 480-pixel gesture fires and leaves `yxDeltaSize == 3` with no points, so the next frame indexes out of range |
| Vaaac.Track | cvgo/src/vaaac/vaaac.cpp:129-244 | a frame is detected exactly when some reticle pixel is set; an undetected frame leaves the window alone, does not trigger, and aims at the centre with the reticle box. A detected frame steps the window with the corrected `Trigger.Step`, which resets `yxDeltaSize` when an attempt ends; lines 241-242 do not (see Findings) |
| Vaaac.TrackKeepsShape | cvgo/src/vaaac/vaaac.cpp:156-244 | `update` keeps the window's shape from frame to frame |
| Vaaac.TriggerNeedsGesture | cvgo/src/vaaac/vaaac.cpp:156-244 | a frame triggers only when detected, at the end of a full gesture; the aim then returns to the gesture's start and the window restarts |
| Vaaac.AimAvoidsNoAimArea | cvgo/src/vaaac/vaaac.cpp:184-205 | without a trigger, the aim is the centre, or a lit block that the search took in and that lies outside the no-aim area |
| Vaaac.ReticleInside | cvgo/src/vaaac/vaaac.cpp:36-37 | for a frame side of at least 40, the centred reticle lies in the frame |
| Vaaac.Vaaac.constructor | cvgo/src/vaaac/vaaac.cpp:20-56 | `res = min(width, height)`, the largest centred square (off-centre by at most one pixel), the reticle and no-aim squares, the nine offsets, the four thresholds, and an empty gesture; together these are the class invariant |
| Vaaac.Vaaac.Update | cvgo/src/vaaac/vaaac.cpp:129-244 | `detected`, `triggered`, the aim point, the box and the new window are those of `Track`, so the trigger step is the corrected one that resets `yxDeltaSize` when an attempt ends (see Findings); the configuration and the window's shape are kept |
| Vaaac.OffsetAt | cvgo/src/vaaac/vaaac.cpp:43-45 | the offset the constructor's loops push `k`-th is entry `k` of `NeighbourOffsets` |
| Vaaac.Vaaac.Locate | cvgo/src/vaaac/vaaac.cpp:171-205 | the search followed by the no-aim snap |
| Vaaac.Vaaac.Advance | cvgo/src/vaaac/vaaac.cpp:210-244 | the fields follow the corrected `Trigger.Step` and keep the window's shape |

## Left out

- The camera, `calibrateSkinTone` and the OpenCV steps before the search are not modelled: HSV conversion, `inRange`, the morphological opening and the dilation. `Update` takes the binarised mask as input.
- The constructor takes the frame's width and height as parameters instead of reading them from `videoCapture.get`. The path where the camera fails to open (`ok == false`) is not modelled.
- The angles and their smoothing (cpp 246-249) are not modelled, because they are floating point. `AIM_SMOOTHNESS` is used only there.
- Rendering and the mask cut-out in `update` (cpp 254-301) are not modelled, because they are drawing calls. In that code, line 256 uses `height` where `res` is meant.
- Vaaac.Vaaac.Update: requires `res >= 40`, because below that the reticle rectangle leaves the image and OpenCV throws.
- Vaaac.Vaaac.constructor: requires a non-negative width and height, as a camera frame size is.
- Tracker.AnyLit: the test `cv::mean(...) > 0` is modelled as "some pixel is set". The mask holds only 0 and 255, so the two agree.
- Trigger.ThresholdsFor: the `double` products `p * res / 100.0`, stored into `int`s, are modelled as truncated integer quotients. With whole percentages they agree.
- Tracker.Flood: pixel coordinates are unbounded integers, so the model does not capture overflow of `int` coordinates. For a camera frame they stay far below 2^31.
- `setProcessHandle` is not modelled: it only finds the game process and opens a handle to it. The destructor `~memory` is not modelled either: it only closes that handle. `memory::write` is not used by the core.
- `init` (memory.cpp 61-65) is not modelled as a member. It calls `setModuleInfo` once for each module name and ignores each result. So a module whose lookup failed is simply absent from the table. `getOffset` then inserts `(0, 0)` for it (`Memory.MemoryAccess.GetOffset`), and the walk finds nothing (`MemoryProperties.EmptyModuleFindsNothing`).
- Memory.MemoryAccess.SetModuleInfo: the Toolhelp snapshot is a parameter, and module names are compared by content. The source keys its table by the address of the name.
- Memory.MemoryAccess.SetModuleInfo: requires every snapshot entry to end at or below 0x80000000, the end of 32-bit user space. This is assumed: a large-address-aware image on 64-bit Windows can load modules above it.
- Memory.MemoryAccess.GetOffset: requires `RegionsWellFormed`, so every region `VirtualQueryEx` reports is between 0x1000 and 0x7FFFF000 bytes. This is assumed of the operating system. It is what makes the region walk end without the cursor wrapping around; the model says nothing about queries that report a size of 0 or a larger one.
- Memory.MemoryAccess.GetOffset: requires `ScannablePattern`: the mask is no longer than the pattern and at most 0x1000 characters. In the source, a longer mask makes `size - length` wrap around, and the scan then reads past its buffer.
- Memory.WalkModule: the same `RegionsWellFormed` and `ScannablePattern` assumptions as `GetOffset`.
- `Process.mem` is one fixed, total byte function. So the model cannot express a failed `ReadProcessMemory`; the source ignores its result and then scans, in `patternScan` (memory.cpp 40-42), or returns (`read`, memory.h 42-43), uninitialised memory. It also cannot express the target's memory changing between the region scan and the offset reads.
- Memory.PatternScan: requires `strlen(mask) <= size` and a loop bound within `int`. A page-sized region and a one-page pattern always meet both.
- `main.cpp` is not modelled: the game loop, the configuration and the calls that write into the game are not part of this model.
- Concurrency is not modelled: the source has none in this core.

## Findings

| source | as written | input that shows it | evidently intended | confidence | as-written member | corrected member |
|---|---|---|---|---|---|---|
| cvgo/src/vaaac/vaaac.cpp:241-242 | when a trigger attempt ends, `yxDelta.clear()` runs but `yxDeltaSize` keeps its value, so the next detected frame reads `yxDelta[yxDeltaSize - 1]` of an empty vector (lines 214 and 227; hpp 442/455 and 469-470) | frame side 480; aim rows 100, 80, 90, 95, 90 at column 10: the fifth frame triggers and leaves `yxDeltaSize == 3` with no points | reset `yxDeltaSize` to 0 with the clear, as lines 222-223 do | high (not executed) | Trigger.StaleSizeAfterTrigger | Trigger.StepKeepsShape |
