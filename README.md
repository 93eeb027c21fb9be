# libfreesteel area clearing core, in Dafny

This project models the core of libfreesteel's 2D area generation and
proves properties of the model.

A machining area is sampled by a weave (`S2weave`): two families of
parallel probe lines, u-fibres and v-fibres. Each fibre is an `S1`, a
sorted list of endpoints (`B1`) that alternate lower, upper, lower,
upper, and so cut the line into covered intervals.

The pipeline has these stages:

- **Surface build.** The model surface is built from triangles into a
  `SurfX`: points, edges and triangles, each edge linked to the triangles
  on both of its sides (SurfXBuildComponents.cpp).
- **Boxing.** The surface is boxed into a grid of buckets (`SurfXboxed`,
  indexed by two `Partition1` partitions), so that a fibre only meets the
  primitives whose buckets it crosses.
- **Slicing.** `SliceFibreBox`, `SliceUFibre` and `SliceVFibre` offer
  those primitives to a ray generator, which merges what it cuts out into
  the fibre.
- **Area generation.** `Area2_gen` drives the weave.
  - `SetSurfaceTop` stores the tool radius and the boxed surface, and
    sets the slice height to the top of the surface's z-range. It slices
    nothing.
  - `HackDowntoZ(lz)` lowers the height to lz. It then ball-slices every
    u-fibre, and after them every v-fibre, at lz against the boxed
    surface, merging each cut into its fibre.
  - `FindInterior` slices the line along each fibre at height z with a
    plane slicer (`SLi_gen`) against every triangle of the surface, and
    merges the spans that the slicer's `Convert` makes of the crossings.
- **Contour tracing.** `MakeContours` opens a new epoch and scans the
  endpoints of the u-fibres in order. From each endpoint still unvisited
  it calls `TrackContour`, which follows the turns that `Advance` picks,
  numbers each endpoint it leaves with the contour, and returns the
  points. Each contour is appended to the output with one break.
- **Cell boundaries.** A weave cell (`S2weaveCell`) lists the boundary
  crossings on its four sides and pairs them into pieces of contour.
- **Output.** Results go into a `PathXSeries`, a point list cut by break
  indices.

Each source file becomes a module, one `.dfy` file each:

| file | module | models |
|---|---|---|
| geom.dfy | Maybe, Geom | Option and Result; the intervals and points of I1.h, P2.h and P3.h, which are not part of this model (their semantics are taken from their use) |
| endpoints.dfy | Endpoints | B1 and each S1 operation as a function of the endpoint list, with what it covers |
| fibre.dfy | Fibres | the class S1: the in-place operations, proved against Endpoints |
| partition.dfy | Partitions | Partition1 |
| pathseries.dfy | PathSeries | the class PathXSeries |
| weave.dfy | Weave | the class S2weave: fibres, Invert, SetAllCutCodes, Advance, TrackContour |
| area.dfy | Area | the class Area2_gen: SetSurfaceTop, HackDowntoZ, FindInterior, MakeContours |
| weavecell.dfy | WeaveCell | the class S2weaveCell: corners, the boundary list and its pairs |
| sorting.dfy | Sorting | the ordering std::sort establishes |
| slicers.dfy | Slicers | the ray generator interface (Ray_gen2, SLi_gen): the slice of one primitive merged into the held fibre |
| surfx.dfy | Surfaces | SurfX as a value once built, and its slices over all primitives (SurfX.cpp) |
| surfbuild.dfy | SurfBuild | the SurfX builder of SurfXBuildComponents.cpp |
| crossings.dfy | Crossings | the crossing arithmetic of SurfXboxed.cpp (TcrossX, TcrossY, triangle corners and strips) |
| footprint.dfy | Footprints | which buckets a point, an edge or a triangle reaches |
| buckets.dfy | Buckets | the bucket grid and the insertions of SurfXboxed |
| boxindex.dfy | BoxIndex | the per-bucket lists and the duplicate stamps |
| window.dfy | Windows | the cell window a boxed slice scans |
| boxed.dfy | Boxes | the class SurfXboxed: BuildBoxes, SortBuckets and the boxed slices |

Reals stand for the source's doubles, with no rounding. Source
`std::vector`s held by value become `seq` fields that the methods
reassign. Each class method that changes state is proved against a
function on values, and the properties the source promises are proved
as lemmas about those functions.

## Model

| member | source | states |
|---|---|---|
| Endpoints.NewB1Unvisited | freesteel/src/bolts/S1.h:40-42 | a new endpoint carries contour number -1, below any epoch start that is not negative, and is not on an internal cell boundary unless asked |
| Endpoints.B1LessIgnoresFlags | freesteel/src/bolts/S1.h:44 | endpoints are ordered by position only: flags, contour number and cut code never change the order |
| Endpoints.AdjacentSorted | freesteel/src/bolts/S1.cpp:29-30 | the neighbour-by-neighbour order Check asserts makes every pair of endpoints ordered |
| Endpoints.EndsFlags | freesteel/src/bolts/S1.cpp:31-32 | a non-empty list that passes Check starts with a lower endpoint and ends with an upper one |
| Endpoints.CoversChar | freesteel/src/bolts/S1.cpp:170-176 | a well-formed fibre covers exactly its endpoints and the positions with an odd number of endpoints below them |
| Endpoints.CoversParity | freesteel/src/bolts/S1.cpp:170-176 | a position that is no endpoint is covered exactly when the number of endpoints below it is odd |
| Endpoints.EndpointCovered | freesteel/src/bolts/S1.cpp:170-176 | every endpoint of a well-formed fibre is covered |
| Endpoints.FirstAtLeast | freesteel/src/bolts/S1.cpp:53-55 | the first scan stops at the first endpoint at or above lo, or at the end of the list, and every endpoint it passes lies below lo |
| Endpoints.LastAtMost | freesteel/src/bolts/S1.cpp:57-64 | the second scan goes down no further than the first index and stops at the last endpoint at or below hi; every endpoint it passes lies above hi |
| Endpoints.LohiFacts | freesteel/src/bolts/S1.cpp:50-81 | on a sorted list, the debug assertions of Loclohi hold: il <= ir + 1, the endpoints between them lie in [lo, hi] and their neighbours outside it |
| Endpoints.MergedAtLohi | freesteel/src/bolts/S1.cpp:86-91 | Merge works on the indices Loclohi returns, with a new lower endpoint at lo and a new upper one at hi |
| Endpoints.MinusedAtLohi | freesteel/src/bolts/S1.cpp:131-135 | Minus works on the indices Loclohi returns; the new lower endpoint at hi takes the high flag when inserted and the low flag when it overwrites, as line 159 has it |
| Endpoints.Minused | freesteel/src/bolts/S1.cpp:131-166 | Minus as a function of the list, with no contract of its own: Loclohi's indices, a new upper endpoint at lo and a new lower endpoint at hi put in place of the enclosed endpoints; MinusDifference, MinusSplits and MinusedAtLohi state what it covers |
| Endpoints.MergeUnion | freesteel/src/bolts/S1.cpp:86-128 | Merge keeps the list well formed (the closing ASSERT(Check())) and the new list covers the old set united with [lo, hi] |
| Endpoints.MergedCovers | freesteel/src/bolts/S1.cpp:113-127 | overwriting the endpoints at il and ir and erasing those left between them keeps the list well formed and adds [lo, hi] to what it covers |
| Endpoints.MergePastEnd | freesteel/src/bolts/S1.cpp:92-99 | a range beyond every endpoint is appended as one new pair |
| Endpoints.MergeInsideKeeps | freesteel/src/bolts/S1.cpp:101-111 | a range strictly inside one covered interval leaves the list unchanged |
| Endpoints.MinusDifference | freesteel/src/bolts/S1.cpp:131-166 | Minus keeps the list well formed, covers nothing the old list did not, agrees with it outside [lo, hi] and covers nothing strictly inside [lo, hi] |
| Endpoints.MinusedCovers | freesteel/src/bolts/S1.cpp:151-165 | overwriting and erasing the endpoints inside the range keeps the list well formed and removes the inside of [lo, hi] |
| Endpoints.MinusSplits | freesteel/src/bolts/S1.cpp:140-148 | a range strictly inside one covered interval splits it with an upper endpoint at lo and a lower one at hi |
| Endpoints.MergeOffEnd | freesteel/src/bolts/S1.cpp:92-99 | the two push_backs give the list Merge describes when the range lies past the end |
| Endpoints.MergeBetween | freesteel/src/bolts/S1.cpp:101-111 | the insert of two copies and the overwrite give the list Merge describes when no endpoint lies inside the range |
| Endpoints.MinusOffEnd | freesteel/src/bolts/S1.cpp:137-138 | Minus past the last endpoint changes nothing |
| Endpoints.MinusBetween | freesteel/src/bolts/S1.cpp:140-148 | the two inserts give the list Minus describes when no endpoint lies inside the range |
| Endpoints.StepsReplaced | freesteel/src/bolts/S1.cpp:113-126 | overwriting the endpoints at il and ir and then erasing il..ir gives the old list with the inside of the range replaced by the new endpoints |
| Endpoints.Flip | freesteel/src/bolts/S1.cpp:200-202 | every endpoint keeps its position, contour number and cut code, and its lower flag is negated |
| Endpoints.InvertSteps | freesteel/src/bolts/S1.cpp:200-220 | flipping every flag, then dropping or adding an endpoint at wrg.lo and at wrg.hi, gives the list Invert describes |
| Endpoints.InvertedWellFormed | freesteel/src/bolts/S1.cpp:190-223 | on a well-formed fibre, Invert's closing ASSERT(Check()) holds exactly when wrg is not empty and contains every endpoint |
| Endpoints.InvertedValid | freesteel/src/bolts/S1.cpp:190-223 | inverting a well-formed fibre inside its extent gives a well-formed fibre inside the extent |
| Endpoints.InvertedComplement | freesteel/src/bolts/S1.cpp:190-223 | the inverted fibre covers nothing outside wrg, and inside wrg every position that was not an endpoint is covered exactly when it was not before |
| Endpoints.InvertedWithin | freesteel/src/bolts/S1.cpp:222 | a well-formed inversion implies that the extent contains every old endpoint |
| Endpoints.InvertedAgain | freesteel/src/bolts/S1.cpp:204-220 | a second inversion drops the endpoints the first added at the ends of wrg and adds back, as new endpoints, those it dropped |
| Endpoints.InvertTwice | freesteel/src/bolts/S1.cpp:190-223 | inverting twice restores every position and lower flag, when no zero-length pair sits at an end of the extent |
| Endpoints.WithCutCodes | freesteel/src/bolts/S1.cpp:226-230 | every endpoint gets the cut code and keeps everything else |
| Endpoints.CutCodesKeep | freesteel/src/bolts/S1.cpp:226-230 | setting cut codes changes neither the invariant, nor the positions and flags, nor the covered set |
| Endpoints.FirstPairFromChar | freesteel/src/bolts/S1.cpp:181-183 | the scan from a pair skips exactly the pairs that do not enclose x, and reports none only when no later pair does |
| Endpoints.PairRG | freesteel/src/bolts/S1.cpp:179-187 | when the fibre covers x the result is the first pair enclosing x, and it contains x; otherwise the unit interval |
| Fibres.S1.constructor | freesteel/src/bolts/S1.h:86-88 | an empty fibre at 0 on the unit extent, with no family |
| Fibres.S1.Make | freesteel/src/bolts/S1.h:89-91 | an empty fibre at lwp over lwrg in family lftype |
| Fibres.S1.SetNew | freesteel/src/bolts/S1.h:78-84 | the fibre is emptied and takes the new position, extent and family |
| Fibres.S1.Check | freesteel/src/bolts/S1.cpp:25-34 | true exactly when the list has even length, is sorted and holds (lower, upper) pairs |
| Fibres.S1.Loclohi | freesteel/src/bolts/S1.cpp:50-81 | the two scans' indices, those of Lohi |
| Fibres.S1.Merge | freesteel/src/bolts/S1.cpp:86-128 | the new list is the one Merged describes, is well formed and covers the old set united with [lo, hi]; the other fields are unchanged |
| Fibres.S1.MergeRG | freesteel/src/bolts/S1.cpp:38-41 | Merge of rg with both new endpoints off internal cell boundaries |
| Fibres.S1.Minus | freesteel/src/bolts/S1.cpp:131-166 | the new list is the one Minused describes, is well formed and is the old set with the inside of [lo, hi] removed |
| Fibres.S1.MinusRG | freesteel/src/bolts/S1.cpp:44-47 | Minus of rg with both new endpoints off internal cell boundaries |
| Fibres.S1.Contains | freesteel/src/bolts/S1.cpp:170-176 | true exactly when some pair encloses lw |
| Fibres.S1.ContainsRG | freesteel/src/bolts/S1.cpp:179-187 | the first pair enclosing lw, or the unit interval after the failed ASSERT(0) |
| Fibres.S1.Invert | freesteel/src/bolts/S1.cpp:190-223 | the new list is Inverted of the old; it passes Check exactly when wrg is not empty and holds every old endpoint, and then it is the complement within wrg |
| Fibres.S1.SetAllCutCodes | freesteel/src/bolts/S1.cpp:226-230 | every endpoint gets the cut code; the fibre stays well formed and covers the same set |
| Fibres.EndpointsLoclohi | freesteel/src/bolts/S1.cpp:50-81 | the two loops of Loclohi compute Lohi |
| Fibres.MergeEndpoints | freesteel/src/bolts/S1.cpp:86-128 | the in-place steps of Merge compute Merged, a well-formed union |
| Fibres.EndpointsContain | freesteel/src/bolts/S1.cpp:170-176 | the loop of Contains returns whether the fibre covers lw |
| Fibres.EndpointsContainRG | freesteel/src/bolts/S1.cpp:179-187 | the loop of ContainsRG returns PairRG |
| Fibres.InvertEndpoints | freesteel/src/bolts/S1.cpp:190-223 | the flag loop and the end fix-ups of Invert compute Inverted |
| Fibres.SetEndpointCutCodes | freesteel/src/bolts/S1.cpp:226-230 | the loop of SetAllCutCodes computes WithCutCodes |
| Partitions.PartCount | freesteel/src/bolts/Partition1.cpp:27 | the number of parts n is at least 1 and satisfies w * (n - 1) <= Leng < w * n |
| Partitions.Evenly | freesteel/src/bolts/Partition1.cpp:29-30 | n + 1 boundaries, boundary i at lrg.Along(i / n) |
| Partitions.Make | freesteel/src/bolts/Partition1.cpp:24-32 | a valid regular partition of n = PartCount parts over exactly lrg, every part Leng / n long and at most w (the closing ASSERT) |
| Partitions.Partition1.NumParts | freesteel/src/bolts/Partition1.h:34 | one less than the number of boundaries, wrapping to the largest size_t on an empty list |
| Partitions.Partition1.GetPart | freesteel/src/bolts/Partition1.h:35 | part i runs from boundary i to boundary i + 1, and is not reversed on a valid partition |
| Partitions.Partition1.Getrg | freesteel/src/bolts/Partition1.h:45 | the range from the first to the last boundary, containing every boundary of a valid partition |
| Partitions.DefaultPartition | freesteel/src/bolts/Partition1.h:40-42 | the default partition is valid, not regular and empty |
| Partitions.Partition1.FindPart | freesteel/src/bolts/Partition1.cpp:35-56 | the part settled on holds x: b[i] <= x, and x < b[i + 1] unless i is the last part (the closing ASSERT) |
| Partitions.Partition1.FindPartRG | freesteel/src/bolts/Partition1.cpp:60-63 | the parts of both ends of xrg, in order when xrg is |
| Partitions.GuessFacts | freesteel/src/bolts/Partition1.cpp:40-48 | each branch of the clamp and the one-step correction lands on the part of x, and the upward step is never needed |
| Partitions.Partition1.Guess | freesteel/src/bolts/Partition1.cpp:40 | the first guess, InvAlong(x) * (NumParts + 1) truncated, is never below -1; the NaN of a zero-length range stands as -1 |
| Partitions.GuessOneAbove | freesteel/src/bolts/Partition1.cpp:40-48 | below the top clamp the guess is the answer or the part above it |
| Partitions.PartUnique | freesteel/src/bolts/Partition1.cpp:49 | at most one part holds x in the sense of the closing ASSERT |
| Partitions.PartMonotone | freesteel/src/bolts/Partition1.cpp:60-63 | a point below another never lies in a higher part |
| Partitions.RegularUnique | freesteel/src/bolts/Partition1.cpp:24-32 | two regular partitions over the same range with the same number of parts are equal |
| Partitions.EvenlyEnds | freesteel/src/bolts/Partition1.cpp:29-30 | the first boundary is lo and the last is hi |
| Partitions.EvenlyStep | freesteel/src/bolts/Partition1.cpp:29-30 | consecutive boundaries lie Leng / n apart |
| Partitions.PartShort | freesteel/src/bolts/Partition1.cpp:31 | with n = floor(Leng / w) + 1, Leng / n <= w |
| PathSeries.PathXSeries.constructor | freesteel/src/cages/PathXSeries.h:42 | no points, no breaks, no link paths |
| PathSeries.PathXSeries.AtZ | freesteel/src/cages/PathXSeries.h:43-45 | an empty series at height lz |
| PathSeries.PathXSeries.Add | freesteel/src/cages/PathXSeries.h:47-50 | one point appended; breaks, link paths and z unchanged |
| PathSeries.PathXSeries.Break | freesteel/src/cages/PathXSeries.h:58-62 | a break at the end of the points and an empty link path appended |
| PathSeries.PathXSeries.Append | freesteel/src/cages/PathXSeries.h:52-56 | the points appended, then one break after them and one empty link path |
| PathSeries.PathXSeries.Pop_back | freesteel/src/cages/PathXSeries.h:64-68 | the last point removed unless a break sits at the end of the points |
| PathSeries.PathXSeries.GetNbrks | freesteel/src/cages/PathXSeries.h:71-74 | the number of breaks |
| PathSeries.PathXSeries.GetBrkIndex | freesteel/src/cages/PathXSeries.h:76-79 | break i is a point index, no greater than the next break |
| PathSeries.PathXSeries.GetNlnks | freesteel/src/cages/PathXSeries.h:81-84 | the length of link path j |
| PathSeries.PathXSeries.GetLinkX | freesteel/src/cages/PathXSeries.h:86-89 | the x of point i of link path j (a reads-only accessor, no contract of its own) |
| PathSeries.PathXSeries.GetLinkY | freesteel/src/cages/PathXSeries.h:91-94 | the y of point i of link path j (no contract of its own) |
| PathSeries.PathXSeries.GetLinkZ | freesteel/src/cages/PathXSeries.h:96-99 | the z of point i of link path j (no contract of its own) |
| PathSeries.PathXSeries.GetNpts | freesteel/src/cages/PathXSeries.h:101-104 | the number of points |
| PathSeries.PathXSeries.GetX | freesteel/src/cages/PathXSeries.h:106-109 | the u of point i (no contract of its own) |
| PathSeries.PathXSeries.GetY | freesteel/src/cages/PathXSeries.h:110-113 | the v of point i (no contract of its own) |
| PathSeries.BreaksBelowLast | freesteel/src/cages/PathXSeries.h:36 | ordered breaks all lie at or below the last one |
| PathSeries.ExtendOpenPath | freesteel/src/cages/PathXSeries.h:47-50 | points added after the last break extend the open path and change no closed path |
| PathSeries.BreakAtEnd | freesteel/src/cages/PathXSeries.h:58-62 | a break at the end of the points closes the open path and opens an empty one |
| PathSeries.AppendClosesPath | freesteel/src/cages/PathXSeries.h:52-56 | Append closes the open path extended by the new points and opens an empty one |
| PathSeries.OpenPathEmpty | freesteel/src/cages/PathXSeries.h:64-68 | the open path is empty exactly when a break sits at the end of the points, or there are no points and no breaks |
| PathSeries.PopOpenPath | freesteel/src/cages/PathXSeries.h:64-68 | removing the last point shortens the open path by one and changes no closed path |
| Weave.Turn | freesteel/src/cages/S2weave.cpp:101-107 | the cursor turns onto fibre ix of the other family at nwp, stands where its old fibre crosses the new one, and flips blower exactly when it enters a u-fibre |
| Weave.RestampedKeeps | freesteel/src/cages/S2weave.cpp:125 | stamping contour numbers keeps positions, flags, the invariant and the covered set |
| Weave.InwardsChar | freesteel/src/cages/S2weave.cpp:35-64 | FindInwards returns the first fibre, in scan order, that the scan reaches and that lies inward of lwp and covers lw; it returns nothing exactly when no reached fibre does |
| Weave.InwardsUpChar | freesteel/src/cages/S2weave.cpp:40-50 | the upward scan from index i finds the first reached hit at or above i |
| Weave.InwardsDownChar | freesteel/src/cages/S2weave.cpp:51-61 | the downward scan from index i finds the first reached hit at or below i, and stops after index 0 |
| Weave.InwardsDownAsWrittenAgrees | freesteel/src/cages/S2weave.cpp:53-60 | where the size_t scan as written stops, it agrees with the corrected scan; it reads past the end exactly when nothing from i down to 0 stops it or is a hit |
| Weave.InwardsDownAsWrittenOverruns | freesteel/src/cages/S2weave.cpp:53 | on one empty fibre, the corrected scan reports no fibre while the scan as written wraps to the largest size_t and reads past the end |
| Weave.FindInwards | freesteel/src/cages/S2weave.cpp:35-64 | the loops return the fibre Inwards describes |
| Weave.ContourIndexChar | freesteel/src/cages/S2weave.cpp:135-144 | ContourNumber's slot is the first endpoint of the cursor's parity (lower: even, upper: odd) at w; it finds none exactly when no endpoint of that parity sits at w |
| Weave.AdvanceUnfold | freesteel/src/cages/S2weave.cpp:91-110 | one round of Advance: with no crossing fibre the cursor goes to the end of its interval and reverses; otherwise it turns onto the crossing fibre and carries on with bedge false |
| Weave.AdvanceOnFamily | freesteel/src/cages/S2weave.cpp:87-115 | Advance ends on a fibre of the weave |
| Weave.AdvanceLands | freesteel/src/cages/S2weave.cpp:112-114 | a walk that starts at a covered position ends on an endpoint that ContourNumber finds |
| Weave.AdvanceSamePlaces | freesteel/src/cages/S2weave.cpp:87-115 | Advance reads only positions, so fibres that differ only in contour numbers walk the same way |
| Weave.StepSamePlaces | freesteel/src/cages/S2weave.cpp:93-95 | the end of the interval and the crossing fibre depend only on positions |
| Weave.NumberAtRestamped | freesteel/src/cages/S2weave.cpp:123-125 | stamping with n keeps every endpoint already numbered n, at the slot ContourNumber finds |
| Weave.TracedStep | freesteel/src/cages/S2weave.cpp:123-128 | each round of TrackContour's loop extends the traced path by the point of the next cursor of the walk, whose endpoint is then numbered with the contour |
| Weave.WalkAdvance | freesteel/src/cages/S2weave.cpp:127 | after stamps of this contour the weave advances as it did before them: one more step of the walk |
| Weave.NumberAtStamped | freesteel/src/cages/S2weave.cpp:125 | once the slot ContourNumber finds is stamped with n, the number found there is n |
| Weave.StampCount | freesteel/src/cages/S2weave.cpp:123-125 | stamping an unvisited endpoint with a number at or above firstcontournumber visits exactly it: one fewer unvisited endpoint |
| Weave.FibsBelowUpdate | freesteel/src/cages/S2weave.cpp:125 | replacing one fibre changes the family's count of unvisited endpoints by that fibre's change |
| Weave.FibreCount | freesteel/src/cages/S2weave.cpp:72-73 | nufib = Leng / res + 2 truncated: at least 2, with Leng < res * nufib |
| Weave.GridSpacing | freesteel/src/cages/S2weave.cpp:76-82 | neighbouring fibres sit Leng / nufib apart, less than the resolution; the first sits at lo and the last at hi |
| Weave.MakeFibres | freesteel/src/cages/S2weave.cpp:76-78 | nufib + 1 empty fibres, fibre i at rg.Along(i / nufib) |
| Weave.InvertFibres | freesteel/src/cages/S2weave.cpp:157-160 | every fibre is Inverted within wrg; each passes Check exactly when wrg is not empty and holds its endpoints, and then it is the complement |
| Weave.SetCutCodes | freesteel/src/cages/S2weave.cpp:149-152 | every endpoint of every fibre gets the cut code; covered sets and validity are unchanged |
| Weave.S2weave.constructor | freesteel/src/cages/S2weave.cpp:68-83 | nufib + 1 empty u-fibres evenly over urg and nvfib + 1 empty v-fibres evenly over vrg; firstcontournumber 0 and lastcontournumber -1 |
| Weave.S2weave.Invert | freesteel/src/cages/S2weave.cpp:155-161 | every u-fibre is inverted within vrg and every v-fibre within urg; the weave stays valid exactly when every fibre lies within its extent, and then each covers its complement |
| Weave.S2weave.SetAllCutCodes | freesteel/src/cages/S2weave.cpp:147-153 | every endpoint of every fibre gets the cut code; validity is unchanged |
| Weave.S2weave.Advance | freesteel/src/cages/S2weave.cpp:87-115 | with ok, the cursor AdvanceOf gives: the endpoint where the walk stops, reversed |
| Weave.AdvanceOf | freesteel/src/cages/S2weave.cpp:87-115 | the walk of Advance's `while (true)` with at most fuel turns, with no contract of its own; AdvanceOnFamily, AdvanceLands and AdvanceSamePlaces state that it ends on a fibre of the weave, at an endpoint ContourNumber finds, and reads only positions |
| Weave.S2weave.Look | freesteel/src/cages/S2weave.cpp:93-95 | the end of the covered interval ahead, and the first crossing fibre that FindInwards returns |
| Weave.S2weave.ContourNumber | freesteel/src/cages/S2weave.cpp:135-144 | the slot ContourIndex describes, or Nothing where the code fails ASSERT(0) |
| Weave.S2weave.StampSlot | freesteel/src/cages/S2weave.cpp:125 | only slot k of the cursor's fibre changes, to lastcontournumber; the weave stays valid and has one fewer unvisited endpoint |
| Weave.S2weave.TrackContour | freesteel/src/cages/S2weave.cpp:119-131 | opens contour lastcontournumber + 1 and stamps only with it; with ok, the path holds the points of the walk from al, one fewer unvisited endpoint per point before the last, and the last point is that of the endpoint the walk closes on, which is numbered in this epoch (at least firstcontournumber) |
| Weave.S2weave.Follow | freesteel/src/cages/S2weave.cpp:123-128 | the loop keeps the walk, the trace and the count of unvisited endpoints in step; it stops where ContourNumber finds no endpoint or one numbered at least firstcontournumber |
| Weave.S2weave.Round | freesteel/src/cages/S2weave.cpp:125-127 | one round: stamp, record the point, advance one step of the walk |
| Weave.S2weave.Visit | freesteel/src/cages/S2weave.cpp:125-126 | stamps the endpoint at the cursor, extends the trace by its point, and leaves the walk unchanged |
| Area.SlotFound | freesteel/src/cages/Area2_gen.cpp:103-106 | for the position and side of any endpoint of a well-formed fibre, ContourNumber finds an endpoint, and finds that endpoint itself when no two slots of one parity share a position |
| Area.SharedSlot | freesteel/src/cages/Area2_gen.cpp:103-106 | on a well-formed fibre with a zero-length interval touching the next one, ContourNumber for the lower endpoint in slot 2 refers to slot 0 |
| Area.StartNumbered | freesteel/src/cages/Area2_gen.cpp:106-109 | after a traced contour, the endpoint the trace started from is numbered at or above firstcontournumber |
| Area.TrackedScan | freesteel/src/cages/Area2_gen.cpp:101-112 | one step of the scan keeps the fibres in place and, when slots lie apart, extends the scanned prefix by one endpoint |
| Area.SlicedUnion | freesteel/src/cages/Area2_gen.cpp:76-87 | a sliced fibre keeps its place, stays well formed and covers what it covered together with what each cut of an offered primitive covers |
| Area.HackOffersFromSurface | freesteel/src/cages/Area2_gen.cpp:79-86 | the boxed surface offers a fibre only primitives of its surface |
| Area.HackFibre | freesteel/src/cages/Area2_gen.cpp:78-79 | the held fibre comes back sliced by exactly what the boxed surface offers it, and well formed |
| Area.HackFamily | freesteel/src/cages/Area2_gen.cpp:76-80 | every fibre of the family, in turn, comes back sliced by what the boxed surface offers it |
| Area.HackStep | freesteel/src/cages/Area2_gen.cpp:76-80 | one pass of the loop: fibre i comes back sliced by what the boxed surface offers it, the fibres before it stay sliced and those after it untouched |
| Area.MergeBackUnion | freesteel/src/cages/Area2_gen.cpp:37-41 | merging the spans popped off the back keeps the fibre well formed and adds exactly the spans to what it covers |
| Area.MergeSpansBack | freesteel/src/cages/Area2_gen.cpp:37-41 | the pop loop computes MergeBack |
| Area.InteriorFibre | freesteel/src/cages/Area2_gen.cpp:33-41 | the line through the fibre is sliced against every triangle, and the converted spans are merged into the fibre |
| Area.InteriorU | freesteel/src/cages/Area2_gen.cpp:31-42 | every u-fibre takes the spans of the line at u = wp across vrg at height z |
| Area.InteriorV | freesteel/src/cages/Area2_gen.cpp:44-55 | every v-fibre takes the spans of the line at v = wp across urg, converted with urg as both ranges as written |
| Area.Area2.constructor | freesteel/src/cages/Area2_gen.h:44-45 | an area over the weave at height lz with tool radius lr and no boxed surface yet |
| Area.Area2.SetSurfaceTop | freesteel/src/cages/Area2_gen.cpp:61-66 | stores the radius and the boxed surface and sets z to the top of the surface's z-range |
| Area.Area2.HackDowntoZ | freesteel/src/cages/Area2_gen.cpp:70-88 | requires lz <= z; sets z to lz and slices every u-fibre, then every v-fibre, by exactly what SliceUFibre or SliceVFibre offers it, with cuts trimmed to vrg on u-fibres and to urg on v-fibres; the weave stays valid |
| Area.Area2.FindInterior | freesteel/src/cages/Area2_gen.cpp:26-56 | every fibre takes exactly the spans of its line; the weave stays valid |
| Area.Area2.MakeContours | freesteel/src/cages/Area2_gen.cpp:92-115 | opens a new epoch and keeps the fibres in place; the contours it reports start at u-fibre endpoints in strictly increasing scan order, and each is the walk TrackContour follows from the scan cursor there; with ok, the points appended are those contours one after another, with one break closing each, one contour per number opened; ftpaths.z becomes z once a contour is traced; with slots apart, every endpoint of every u-fibre is left numbered in the epoch |
| Area.Area2.ScanFibre | freesteel/src/cages/Area2_gen.cpp:101-113 | the inner loop over the endpoints of u-fibre ix carries the scan's invariants (contours so far, the series holding them, the numbered prefix) from fibre ix to ix + 1 |
| Area.Area2.ScanStep | freesteel/src/cages/Area2_gen.cpp:103-112 | one pass of the inner loop: a contour traced from endpoint i is appended to the series and to the reported contours, which stay in scan order |
| Area.Area2.ScanEndpoint | freesteel/src/cages/Area2_gen.cpp:103-112 | one step of the scan carries its invariants from endpoint i to endpoint i + 1 |
| Area.Area2.TraceFrom | freesteel/src/cages/Area2_gen.cpp:108-109 | TrackContour from endpoint i of u-fibre ix opens one contour, leaves endpoint i numbered in the epoch and, with ok, returns a non-empty path that is the walk from that endpoint over the fibres as they were at the scan's start |
| WeaveCell.FindCellParal | freesteel/src/pits/S2weaveCell.cpp:25-33 | the least index from 1 whose fibre lies beyond lw: every fibre from 1 below it lies at or before lw, the one at it beyond |
| WeaveCell.AddBoundListMatches | freesteel/src/pits/S2weaveCell.cpp:209-247 | appends exactly the entries of Matches (Loclohi's range pulled back at the two ends, ascending or descending) and returns bLeftIn or bRightIn |
| WeaveCell.AppendAscending | freesteel/src/pits/S2weaveCell.cpp:229-236 | the upward loop appends the entries for slots il to ir |
| WeaveCell.AppendDescending | freesteel/src/pits/S2weaveCell.cpp:237-244 | the downward loop appends the entries for slots ir down to il |
| WeaveCell.MatchesChar | freesteel/src/pits/S2weaveCell.cpp:212-218 | every entered endpoint lies in rg; every endpoint in rg is entered except a lower one at rg.lo or an upper one at rg.hi, and those at the ends are not |
| WeaveCell.InsideFlags | freesteel/src/pits/S2weaveCell.cpp:223-224 | bLeftIn holds exactly when the fibre covers rg.lo, bRightIn exactly when it covers rg.hi |
| WeaveCell.MatchesValid | freesteel/src/pits/S2weaveCell.cpp:231-243 | every appended entry names an existing endpoint of its side |
| WeaveCell.CellListValid | freesteel/src/pits/S2weaveCell.cpp:256-259 | every entry of a cell's list names an existing endpoint of its side |
| WeaveCell.PairsHalf | freesteel/src/pits/S2weaveCell.cpp:266-278 | on an even-length cyclically alternating list of lower flags, the pairing loop yields half as many pairs as entries |
| WeaveCell.CellListAlternates | freesteel/src/pits/S2weaveCell.cpp:255-278 | on well-formed sides whose corners agree, the entries of the list alternate lower and upper cyclically, starting with a lower one exactly when the bottom-left corner is outside |
| WeaveCell.OddCellList | freesteel/src/pits/S2weaveCell.cpp:278 | well-formed sides alone do not give bolistpairs.size() * 2 == boundlist.size(): a one-entry list is exhibited |
| WeaveCell.BuildBoundList | freesteel/src/pits/S2weaveCell.cpp:255-259 | the four sides' entries in walking order, and the four corner flags each side's walk leaves |
| WeaveCell.CellBounds | freesteel/src/pits/S2weaveCell.cpp:250-281 | CreateBoundList on the four sides' values: the list, the corner flags and the pairs meet CellListed (behind its trigger gate) |
| WeaveCell.PairEntries | freesteel/src/pits/S2weaveCell.cpp:265-276 | pairs each entry that starts an inside stretch with the entry before it, cyclically |
| WeaveCell.S2weaveCell.GetCorner | freesteel/src/pits/S2weaveCell.cpp:72-78 | corners 0 to 3 are bottom-left, top-left, top-right, bottom-right |
| WeaveCell.S2weaveCell.GetSide | freesteel/src/pits/S2weaveCell.cpp:82-87 | side icn is left, top, right, bottom for icn mod 4 = 0 to 3 |
| WeaveCell.S2weaveCell.GetBoundLower | freesteel/src/pits/S2weaveCell.cpp:196-200 | an entry starts an inside stretch exactly when its endpoint's blower agrees with the side being walked forwards |
| WeaveCell.S2weaveCell.GetBoundPoint | freesteel/src/pits/S2weaveCell.cpp:186-192 | the entry's point has the endpoint's position along the side, and lies on that side when the sides sit on the cell's extents |
| WeaveCell.S2weaveCell.SideJoinsCorners | freesteel/src/pits/S2weaveCell.cpp:71-87 | side icn runs from corner icn to corner icn + 1, both on its line |
| WeaveCell.S2weaveCell.ConstructCellBounds | freesteel/src/pits/S2weaveCell.cpp:53-67 | takes the sides and extents of cell (iu, iv) and clears both lists |
| WeaveCell.S2weaveCell.CreateBoundList | freesteel/src/pits/S2weaveCell.cpp:250-281 | builds the list, corner flags and pairs the cell's sides give, and returns the pair count |
| WeaveCell.S2weaveCell.ListedFacts | freesteel/src/pits/S2weaveCell.cpp:250-281 | the list is CellList of the sides, its entries are valid and the pairs are those of its lower entries |
| WeaveCell.S2weaveCell.PairCount | freesteel/src/pits/S2weaveCell.cpp:278 | when the entries alternate round the cell, twice the pair count is the list's length |
| WeaveCell.S2weaveCell.CornerFlags | freesteel/src/pits/S2weaveCell.cpp:255-259 | each corner flag says whether the side whose walk reaches that corner covers it |
| WeaveCell.S2weaveCell.CornersPairUp | freesteel/src/pits/S2weaveCell.cpp:266-278 | on well-formed sides whose corners agree, the entries alternate, the list has even length and twice the pair count is its length |
| WeaveCell.S2weaveCell.FindCellIndex | freesteel/src/pits/S2weaveCell.cpp:36-48 | places the cell so that its extents contain lptc and rebuilds its sides and list |
| WeaveCell.S2weaveCell.AdvanceCrossSide | freesteel/src/pits/S2weaveCell.cpp:92-133 | steps iu or iv by one across side icn and rebuilds; cspt lies on the opposite side of the new cell |
| WeaveCell.S2weaveCell.GetBoundListPosition | freesteel/src/pits/S2weaveCell.cpp:140-182 | -1 exactly for an empty list; otherwise the scan's stop on side sic, stepped past a coincident entry that ends an inside stretch, wrapping to 0 |
| Sorting.SortByCorrect | freesteel/src/cages/SurfXBuildComponents.cpp:211-215 | the sort yields a list sorted by the comparator that holds every entry as often as the input did |
| Sorting.InsertSorted | freesteel/src/cages/SurfXBuildComponents.cpp:249 | placing one entry into a sorted list keeps it sorted |
| Sorting.InsertPerm | freesteel/src/cages/SurfXboxed.cpp:354-364 | placing one entry adds exactly that entry |
| Slicers.MergeCutsUnion | freesteel/src/pits/NormRay_gen.h:80-82 | merging each cut in turn keeps the fibre well formed and covers exactly what it covered together with every cut |
| Slicers.CutsOfAppend | freesteel/src/pits/SurfXSliceRay.cpp:31-38 | the cuts of two runs of primitives are the cuts of the joined run |
| Slicers.MergeCutsAppend | freesteel/src/pits/SurfXSliceRay.cpp:31-38 | merging one run of cuts and then another is merging the joined run |
| Slicers.RayGen.constructor | freesteel/src/pits/NormRay_gen.h:70-72 | a slicer with ball radius lradball whose cut is the geometry trimmed to zrg = lwrg, holding no fibre and offered nothing |
| Slicers.RayGen.HoldFibre | freesteel/src/pits/NormRay_gen.h:74 | takes the fibre, its family, its extent and the height, with nothing offered yet |
| Slicers.RayGen.BallSlice | freesteel/src/pits/NormRay_gen.h:80-82 | records the offer and merges exactly the primitive's cut into the held fibre, which stays well formed at the same position |
| Slicers.SLiGen.SetSlicePos | freesteel/src/pits/SLi_gen.h:102 | a new line from lp0 to lp1 with no crossings |
| Slicers.SLiGen.SliceTriangle | freesteel/src/pits/SLi_gen.h:104 | appends exactly the triangle's crossings of the line |
| Slicers.SLiGen.Convert | freesteel/src/pits/SLi_gen.h:106 | the intervals the crossings bound within the ranges |
| Surfaces.SurfX.ThirdPoint | freesteel/src/cages/SurfX.cpp:48-51 | an end of edge ab1, a vertex of the surface |
| Surfaces.SurfX.ThirdPointOff | freesteel/src/cages/SurfX.cpp:54-60 | for pe one of the triangle's edges, a vertex of the surface |
| Surfaces.ThirdPointIsA | freesteel/src/cages/SurfX.cpp:47-51 | on a triangle whose edges join three distinct corners, ThirdPoint is corner a, the one off b12 |
| Surfaces.ThirdPointOffEdge | freesteel/src/cages/SurfX.cpp:54-60 | on such a triangle, ThirdPoint(pe) is a corner and is not an end of pe |
| Surfaces.SurfX.AllPrims | freesteel/src/cages/SurfX.cpp:25-35 | one offer per vertex, edge and triangle, entry k being PrimAt(k) |
| Surfaces.AllPrimsInOrder | freesteel/src/cages/SurfX.cpp:25-35 | the offers are every vertex, then every edge, then every triangle, each in array order |
| Surfaces.SliceFibre | freesteel/src/cages/SurfX.cpp:25-35 | the slicer is offered exactly AllPrims, and the held fibre takes exactly their cuts at its position, staying well formed |
| Surfaces.OfferVertices | freesteel/src/cages/SurfX.cpp:28 | the first loop offers every vertex in order |
| Surfaces.OfferEdges | freesteel/src/cages/SurfX.cpp:31 | the second loop offers every edge in order |
| Surfaces.OfferFaces | freesteel/src/cages/SurfX.cpp:34 | the third loop offers every triangle in order |
| Surfaces.OfferOne | freesteel/src/cages/SurfX.cpp:28-34 | one BallSlice extends the offered run by one entry and merges its cut |
| Surfaces.SliceRay | freesteel/src/cages/SurfX.cpp:38-43 | the line slicer is offered exactly the triangles in order and takes exactly their crossings |
| Surfaces.SliceFace | freesteel/src/cages/SurfX.cpp:41-42 | one SliceTriangle extends the run by the next triangle |
| SurfBuild.LessOrder | freesteel/src/cages/SurfXBuildComponents.cpp:82-86 | p3X_order is irreflexive, transitive and total on distinct points |
| SurfBuild.IncreasingOrder | freesteel/src/cages/SurfXBuildComponents.cpp:217-225 | in the deduplicated vertex array the order of indices is the order of the points, and equal indices are equal points |
| SurfBuild.CornerLeTotal | freesteel/src/cages/SurfXBuildComponents.cpp:215 | the order the first sort uses is a total preorder |
| SurfBuild.SortedCorners | freesteel/src/cages/SurfXBuildComponents.cpp:211-215 | the sorted corners are in p3X_order, each is the corner of the soup at its own position, and every corner of the soup is there |
| SurfBuild.Dedup | freesteel/src/cages/SurfXBuildComponents.cpp:217-225 | the vertex array is strictly increasing, holds only corners of the soup, and ltd maps each corner to the vertex equal to it |
| SurfBuild.Orient | freesteel/src/cages/SurfXBuildComponents.cpp:115-124 | keeps a, possibly exchanges b1 and b2, and leaves the negated cross product's z non-negative |
| SurfBuild.MakeTriangXr | freesteel/src/cages/SurfXBuildComponents.cpp:103-129 | the three corners rearranged, oriented so that the negated cross product's z is non-negative |
| SurfBuild.TriangXrFirstNotLeast | freesteel/src/cages/SurfXBuildComponents.cpp:110-113 | since the second swap exchanges a and b2, the first corner need not be the least |
| SurfBuild.MakeEdgeXr | freesteel/src/cages/SurfXBuildComponents.cpp:146-162 | the half-edge runs from its smaller end, with the triangle on the right when it runs forwards and on the left otherwise |
| SurfBuild.EdgeXrIndexOrder | freesteel/src/cages/SurfXBuildComponents.cpp:146-162 | over an increasing vertex array the half-edge's first end has the smaller index |
| SurfBuild.HalvesAt | freesteel/src/cages/SurfXBuildComponents.cpp:238-244 | half-edge k belongs to triangle k / 3 and is its (k mod 3)-th |
| SurfBuild.MakeHalves | freesteel/src/cages/SurfXBuildComponents.cpp:236-244 | the loop pushes exactly the three half-edges of every triangle in triangle order |
| SurfBuild.EdgeLeTotal | freesteel/src/cages/SurfXBuildComponents.cpp:166-170 | the order the edge sort uses is a total preorder |
| SurfBuild.FuseKeepsSides | freesteel/src/cages/SurfXBuildComponents.cpp:257-273 | fusing loses no half-edge and makes none up: the sides of the edges are exactly the half-edges |
| SurfBuild.FuseInRange | freesteel/src/cages/SurfXBuildComponents.cpp:257-273 | every fused edge joins two vertices and has a triangle on at least one side |
| SurfBuild.FuseEdges | freesteel/src/cages/SurfXBuildComponents.cpp:256-273 | the loop computes FuseFrom from 0 |
| SurfBuild.SetEdge | freesteel/src/cages/SurfXBuildComponents.cpp:174-193 | exactly one slot changes, from empty to the edge, and it is the first of ab1, ab2, b12 whose corners the edge joins |
| SurfBuild.LinkBack | freesteel/src/cages/SurfXBuildComponents.cpp:275-282 | on triangles with three different corners, every slot of every triangle ends up holding an edge that joins its corners and has that triangle beside it |
| SurfBuild.LinkEdge | freesteel/src/cages/SurfXBuildComponents.cpp:276-282 | one round links edge i into its left triangle then its right one, keeping every slot sound |
| SurfBuild.LinkSide | freesteel/src/cages/SurfXBuildComponents.cpp:278-281 | one SetEdge marks exactly the side it links done and keeps every slot sound |
| SurfBuild.AllFilled | freesteel/src/cages/SurfXBuildComponents.cpp:275-282 | once every half-edge is linked, every slot of every triangle is filled |
| SurfBuild.MakeTriangles | freesteel/src/cages/SurfXBuildComponents.cpp:229-233 | the oriented triangles of every third corner, each a rearrangement of its corners' vertices |
| SurfBuild.HalvesIn | freesteel/src/cages/SurfXBuildComponents.cpp:238-244 | every half-edge joins two vertices and belongs to exactly one triangle |
| SurfBuild.SortedHalvesIn | freesteel/src/cages/SurfXBuildComponents.cpp:246-249 | the sorted half-edges are sorted, a permutation of the input, and still in range |
| SurfBuild.BuildVertices | freesteel/src/cages/SurfXBuildComponents.cpp:210-226 | the vertices are the corners of the soup, each once, in p3X_order, and ltd maps each corner to its vertex |
| SurfBuild.BuildEdges | freesteel/src/cages/SurfXBuildComponents.cpp:235-273 | the sides of the edges are exactly the half-edges of the triangles, and every edge is in range |
| SurfBuild.ProperTriangles | freesteel/src/cages/SurfXBuildComponents.cpp:229-233 | different corners map to different vertices, so every oriented triangle has three different corners |
| SurfBuild.BuildSurface | freesteel/src/cages/SurfXBuildComponents.cpp:197-285 | the surface keeps the ranges, its vertices are the corners in order, one triangle per three corners, complete, with edges made of exactly the half-edges and every triangle linked to the edges joining its corners |
| SurfBuild.BuiltLinked | freesteel/src/cages/SurfXBuildComponents.cpp:275-284 | edges in range and sound slots make a linked surface, complete once every slot is filled |
| SurfBuild.MissesBox | freesteel/src/cages/SurfXBuildComponents.cpp:42-56 | a triangle is dropped exactly when its bounding box misses the ranges' box along some axis |
| SurfBuild.Absorb3 | freesteel/src/cages/SurfXBuildComponents.cpp:60-70 | the grown range holds the third value, and the old range and all three values when not restarting; restarting leaves the third value alone |
| SurfBuild.KeptAppend | freesteel/src/cages/SurfXBuildComponents.cpp:42-56 | appending a kept triangle keeps every triangle kept by the fixed ranges |
| SurfBuild.AbsorbAppend | freesteel/src/cages/SurfXBuildComponents.cpp:59-77 | after absorbing a triangle the grown ranges hold every corner from the third on |
| SurfBuild.SurfXBuilder.Fixed | freesteel/src/cages/SurfXBuildComponents.cpp:26-28 | a builder with fixed ranges and no triangles |
| SurfBuild.SurfXBuilder.constructor | freesteel/src/cages/SurfXBuildComponents.cpp:32-34 | a builder with no ranges yet and no triangles |
| SurfBuild.SurfXBuilder.PushTriangle | freesteel/src/cages/SurfXBuildComponents.cpp:37-78 | with fixed ranges, appends the triangle unless it misses them; otherwise grows the ranges and appends it; the builder stays valid |
| SurfBuild.SurfXBuilder.Build | freesteel/src/cages/SurfXBuildComponents.cpp:197-285 | a complete surface over the builder's ranges whose vertices are the corners taken, in order, one triangle per three corners |
| SurfBuild.SurfXBuilder.Reset | freesteel/src/cages/SurfXBuildComponents.cpp:287-291 | drops the triangles taken; the ranges stay |
| Crossings.Frac | freesteel/src/cages/SurfXboxed.cpp:60-65 | the fraction of the way from x0 to x1 at which lx lies, held within [0, 1] |
| Crossings.FracScale | freesteel/src/cages/SurfXboxed.cpp:65 | within [x0, x1], the fraction scaled back is the offset of lx |
| Crossings.FracMonotone | freesteel/src/cages/SurfXboxed.cpp:60-65 | the fraction grows with lx |
| Crossings.TcrossX | freesteel/src/cages/SurfXboxed.cpp:55-67 | the edge's (z, y) interpolated at the fraction of lx, or the end's (z, y) on an edge upright in x |
| Crossings.TcrossXY | freesteel/src/cages/SurfXboxed.cpp:65-66 | the crossing's y is the linear interpolation of the ends' y |
| Crossings.TcrossXMonotone | freesteel/src/cages/SurfXboxed.cpp:55-67 | along x the crossing's y moves one way only, up on an edge rising in y and down on one falling |
| Crossings.TcrossXBetween | freesteel/src/cages/SurfXboxed.cpp:108-115 | the crossing at b lies in the y-span of the crossings at a and c for a <= b <= c |
| Crossings.TcrossXOnEdge | freesteel/src/cages/SurfXboxed.cpp:55-67 | at the x of any point of the edge, the crossing is that point's (z, y) |
| Crossings.TcrossX3 | freesteel/src/cages/SurfXboxed.cpp:162-189 | the first end on the long edge q0-q2, the second on the short edge spanning lx, both collapsing onto a corner outside [q0.x, q2.x] |
| Crossings.TcrossY3 | freesteel/src/cages/SurfXboxed.cpp:192-211 | a height within the section's span of heights, the lower end's height at or below the section's least y |
| Crossings.Clip | freesteel/src/cages/SurfXboxed.cpp:231-242 | the clipped range holds exactly the points of both ranges, and each flag says whether its side was cut |
| Crossings.CornerOrderAsWritten | freesteel/src/cages/SurfXboxed.cpp:219-226 | a reordering of the corners, with the rightmost third point swapped with the leftmost as written |
| Crossings.CornerOrderAsWrittenUnsorted | freesteel/src/cages/SurfXboxed.cpp:225-227 | with the third point rightmost the order as written is not by x, and the clipped x-range is empty |
| Crossings.CornerOrder | freesteel/src/cages/SurfXboxed.cpp:218-228 | a reordering of the corners sorted by x |
| Crossings.SectionSpan | freesteel/src/cages/SurfXboxed.cpp:257-265 | a range holding the y of both sections' ends, and the middle corner's y when the strip holds its x |
| Crossings.SectionInSpan | freesteel/src/cages/SurfXboxed.cpp:255-265 | within a strip, both ends of the cross-section at any x lie in the span of the sections at the strip's sides |
| Crossings.TriStripYAsWritten | freesteel/src/cages/SurfXboxed.cpp:250-265 | the y-range as written, the right section taken at the first strip's high side; in the first strip it agrees with TriStripY |
| Crossings.TriStripYAsWrittenMisses | freesteel/src/cages/SurfXboxed.cpp:256 | a triangle whose corner lies in the second strip but outside that strip's y-range as written |
| Crossings.AsWrittenLaterStrip | freesteel/src/cages/SurfXboxed.cpp:255-258 | after the first strip, both sides of the y-range as written are the first strip's high side |
| Crossings.TriStripY | freesteel/src/cages/SurfXboxed.cpp:255-265 | the y-range holds both ends of the sections at the strip's two sides, and the middle corner's y when the strip holds its x |
| Footprints.Strips | freesteel/src/cages/SurfXboxed.cpp:107 | the strips a clipped x-range runs over: the strips holding its two ends |
| Footprints.Cells | freesteel/src/cages/SurfXboxed.cpp:132 | the cells of one strip a clipped y-range runs over: the cells holding its two ends |
| Footprints.CutInSome | freesteel/src/cages/SurfXboxed.cpp:118-127 | the bGeoOutDown or bGeoOutUp flag of a run of strips is set exactly when some strip of the run is cut on that side |
| Footprints.FirstFilled | freesteel/src/cages/SurfXboxed.cpp:128-129 | the first strip of the run whose clipped y-range is not empty, every strip before it being empty |
| Footprints.SpreadIsShared | freesteel/src/cages/SurfXboxed.cpp:139-148 | a primitive put in two different cells gets a duplicate counter |
| Footprints.UnsharedSingle | freesteel/src/cages/SurfXboxed.cpp:139-148 | a primitive without a duplicate counter is in at most one cell |
| Footprints.PointInCell | freesteel/src/cages/SurfXboxed.cpp:107-134 | a grid point in the primitive's x-range and within its y-range in its own strip lies in a cell that receives the primitive |
| Footprints.EdgeYsAt | freesteel/src/cages/SurfXboxed.cpp:108-115 | strip ix of an edge's y-ranges is the span of its crossings at the strip's two sides |
| Footprints.EdgeCovered | freesteel/src/cages/SurfXboxed.cpp:78-157 | every point of an edge that lies on the grid is in a cell the edge is put in |
| Footprints.TriYsAt | freesteel/src/cages/SurfXboxed.cpp:252-265 | strip ix of a triangle's y-ranges is TriStripY of that strip |
| Footprints.TriStripYCovers | freesteel/src/cages/SurfXboxed.cpp:252-265 | a strip's y-range holds every cross-section of the triangle within the strip |
| Footprints.TriangleCovered | freesteel/src/cages/SurfXboxed.cpp:216-265 | every point under a triangle that lies on the grid is in a cell the triangle is put in |
| Buckets.PointInOneCell | freesteel/src/cages/SurfXboxed.cpp:38-47 | a point on the grid lies in exactly one cell, the one FindPart gives in x and then in y |
| Buckets.PointCell | freesteel/src/cages/SurfXboxed.cpp:27-51 | the cell a point goes in is the one cell holding it, and there is none for a point off the grid |
| Buckets.ReachesInsertAsWritten | freesteel/src/cages/SurfXboxed.cpp:40-44 | the y-range test as written, with a separate `if` for a point below the range: it lets through every point the range holds, and the only others it lets through lie below the range |
| Buckets.ReachesInsertAsWrittenBelow | freesteel/src/cages/SurfXboxed.cpp:40-44 | a point below the y-range reaches the insert as written, though the range does not hold it |
| Buckets.ReachesInsert | freesteel/src/cages/SurfXboxed.cpp:40-48 | with `else if`, a point is inserted exactly when its strip's y-range holds it |
| Buckets.PutKeeps | freesteel/src/cages/SurfXboxed.cpp:48 | replacing one bucket by an indexed one keeps the buckets' shape and indexing |
| Buckets.AddAtCells | freesteel/src/cages/SurfXboxed.cpp:107-155 | the primitive's entry is appended in exactly the cells it reaches, and every other bucket stays as it was |
| Buckets.FillAt | freesteel/src/cages/SurfXboxed.cpp:109-155 | a cell of the partly filled buckets has the entry appended exactly when it is reached before the loops' position |
| Buckets.FirstCell | freesteel/src/cages/SurfXboxed.cpp:139-148 | the first cell the primitive reaches in visiting order, or none when it reaches none |
| Buckets.DupCheck | freesteel/src/cages/SurfXboxed.cpp:139-148 | at the first cell, more than one strip or more than one cell in the strip is exactly Shared |
| Buckets.StartedBounds | freesteel/src/cages/SurfXboxed.cpp:103-109 | the first cell is not before the run's first strip and not after its last |
| Buckets.EdgeEndsAreEnds | freesteel/src/cages/SurfXboxed.cpp:80-85 | the ordered ends are the edge's two ends, in order of x |
| Buckets.EdgeBucket | freesteel/src/cages/SurfXboxed.cpp:78-157 | the left and right flags are set when the ends lie beyond the grid; the down and up flags when the y-range is cut in some strip reached; every cell the edge reaches gets its entry, with a fresh duplicate counter exactly when it is Shared |
| Buckets.EdgeStrips | freesteel/src/cages/SurfXboxed.cpp:102-156 | over a clipped x-range that is not empty, the buckets are AddAt of the edge's entry, one counter is added exactly when Shared, and the flags are OutBelow and OutAbove |
| Buckets.EdgeSweep | freesteel/src/cages/SurfXboxed.cpp:108-156 | the loop over the strips fills every cell reached and sets the flags of the strips cut |
| Buckets.EdgeStrip | freesteel/src/cages/SurfXboxed.cpp:111-155 | one strip: the clipped y-range, its flags, and every cell it reaches filled |
| Buckets.EdgeSpan | freesteel/src/cages/SurfXboxed.cpp:115-129 | the y-range between the crossings of the strip's sides, clipped, with the flags set |
| Buckets.EdgeCells | freesteel/src/cages/SurfXboxed.cpp:133-155 | the inner loop appends the edge's entry to every cell of the strip's run |
| Buckets.TcrossY | freesteel/src/cages/SurfXboxed.cpp:70-73 | the edge height at a y-position is the stub 0.0, whatever the arguments, so every edge entry gets zh = 0 (no contract of its own) |
| Buckets.TriZhAtLeast | freesteel/src/cages/SurfXboxed.cpp:283-292 | a strip's height is at least the middle corner's height when the strip holds it, and at least the sections' heights at the first cell's sides |
| Buckets.TriZh | freesteel/src/cages/SurfXboxed.cpp:283-292 | the height of a triangle's entries in strip ix, with no contract of its own: the greatest section height at the first cell's sides, raised to the middle corner's height when the strip holds it; TriZhAtLeast states the bounds |
| Buckets.TriCornersOrdered | freesteel/src/cages/SurfXboxed.cpp:218-228 | the corners in the corrected order TriCorners gives |
| Buckets.TriBucket | freesteel/src/cages/SurfXboxed.cpp:216-307 | as EdgeBucket, with the x-range from the first to the last corner, the y-ranges TriYs and the heights TriZh |
| Buckets.TriStrips | freesteel/src/cages/SurfXboxed.cpp:244-307 | over a clipped x-range that is not empty, the buckets are AddAt of the triangle's entry, one counter is added exactly when Shared, and the flags are OutBelow and OutAbove |
| Buckets.TriSweep | freesteel/src/cages/SurfXboxed.cpp:250-307 | the loop over the strips fills every cell reached and sets the flags of the strips cut |
| Buckets.TriStrip | freesteel/src/cages/SurfXboxed.cpp:252-306 | one pass of the loop over the strips: the cells of strip ix the triangle reaches are filled, and the down and up flags gain the strip's cuts |
| Buckets.TriSpan | freesteel/src/cages/SurfXboxed.cpp:257-279 | the y-range from the sections at the strip's sides and the middle corner, clipped, with the flags set |
| Buckets.TriCells | freesteel/src/cages/SurfXboxed.cpp:283-306 | the inner loop appends the triangle's entry, with the strip's height, to every cell of the strip's run |
| Buckets.TriCell | freesteel/src/cages/SurfXboxed.cpp:286-305 | one cell: the duplicate check and the entry with the strip's height |
| BoxIndex.EmptyBuckets | freesteel/src/cages/SurfXboxed.cpp:328-335 | one row of buckets per strip and one empty bucket per cell of the strip |
| BoxIndex.GridForUnique | freesteel/src/cages/SurfXboxed.cpp:327-335 | the surface's ranges and the box width fix the grid BuildBoxes lays |
| BoxIndex.PointPut | freesteel/src/cages/SurfXboxed.cpp:27-51 | the buckets after one point keep the grid's shape |
| BoxIndex.EdgePut | freesteel/src/cages/SurfXboxed.cpp:78-157 | the buckets after one edge keep the grid's shape |
| BoxIndex.TriPut | freesteel/src/cages/SurfXboxed.cpp:216-307 | the buckets after one triangle keep the grid's shape |
| BoxIndex.EmptyLists | freesteel/src/cages/SurfXboxed.cpp:328-335 | the empty buckets list no point, no edge and no triangle |
| BoxIndex.HasEdgeAppend | freesteel/src/cages/SurfXboxed.cpp:154 | appending an edge entry lists exactly that edge besides what the bucket listed |
| BoxIndex.HasTriAppend | freesteel/src/cages/SurfXboxed.cpp:304 | appending a triangle entry lists exactly that triangle besides what the bucket listed |
| BoxIndex.PointPutLists | freesteel/src/cages/SurfXboxed.cpp:27-51 | putting point k lists it in the cell holding it and in no other, and changes nothing else listed |
| BoxIndex.PointCellLists | freesteel/src/cages/SurfXboxed.cpp:27-51 | PointPutLists for one cell |
| BoxIndex.PointStep | freesteel/src/cages/SurfXboxed.cpp:338 | one round of the point loop lists one more point and sets that point's flags on top of those set so far |
| BoxIndex.EdgePutLists | freesteel/src/cages/SurfXboxed.cpp:78-157 | putting edge e lists it in exactly the cells it reaches, and changes nothing else listed |
| BoxIndex.EdgeCellLists | freesteel/src/cages/SurfXboxed.cpp:78-157 | EdgePutLists for one cell |
| BoxIndex.EdgeInsertedPut | freesteel/src/cages/SurfXboxed.cpp:78-157 | what AddEdgeBucket leaves is EdgePut, the edge's flags added, and duplicate counters appended at zero |
| BoxIndex.EdgeStep | freesteel/src/cages/SurfXboxed.cpp:339 | one round of the edge loop lists one more edge, adds its flags and only appends zero counters |
| BoxIndex.TriPutLists | freesteel/src/cages/SurfXboxed.cpp:216-307 | putting triangle t lists it in exactly the cells it reaches, and changes nothing else listed |
| BoxIndex.TriCellLists | freesteel/src/cages/SurfXboxed.cpp:216-307 | TriPutLists for one cell |
| BoxIndex.TriInsertedPut | freesteel/src/cages/SurfXboxed.cpp:216-307 | what AddTriangBucket leaves is TriPut, the triangle's flags added, and duplicate counters appended at zero |
| BoxIndex.TriStep | freesteel/src/cages/SurfXboxed.cpp:340 | one round of the triangle loop lists one more triangle, adds its flags and only appends zero counters |
| BoxIndex.PointOuts | freesteel/src/cages/SurfXboxed.cpp:31-43 | the flags each point sets, one per point in the surface's order |
| BoxIndex.EdgeOuts | freesteel/src/cages/SurfXboxed.cpp:78-157 | the flags each edge sets, one per edge in order |
| BoxIndex.TriOuts | freesteel/src/cages/SurfXboxed.cpp:216-307 | the flags each triangle sets, one per triangle in order |
| BoxIndex.OrAllAny | freesteel/src/cages/SurfXboxed.cpp:321-340 | a flag ends up set if and only if some primitive sets it |
| BoxIndex.OrAllNext | freesteel/src/cages/SurfXboxed.cpp:338 | setting one more primitive's flags on top of those set so far |
| BoxIndex.OrAllAppend | freesteel/src/cages/SurfXboxed.cpp:338-340 | the flags of two runs of primitives, one after the other, are those of the joined run |
| BoxIndex.OrAllJoin | freesteel/src/cages/SurfXboxed.cpp:338-340 | the points', then the edges', then the triangles' flags are the flags of all the primitives |
| BoxIndex.ZeroExtendsTrans | freesteel/src/cages/SurfXboxed.cpp:339-340 | appending zero counters twice appends zero counters |
| BoxIndex.SortOrdersTotal | freesteel/src/cages/SurfXboxed.cpp:354-365 | the three comparators give total preorders, as std::sort needs |
| BoxIndex.SortBucketSorted | freesteel/src/cages/SurfXboxed.cpp:348-367 | each sorted list is a permutation of the bucket's list, points in order of z and edges and triangles in order of zh |
| BoxIndex.SortBucketLists | freesteel/src/cages/SurfXboxed.cpp:348-367 | sorting a bucket keeps exactly what it lists |
| BoxIndex.SameEntries | freesteel/src/cages/SurfXboxed.cpp:358-361 | a permutation of edge entries names the same edges |
| BoxIndex.SameTriEntries | freesteel/src/cages/SurfXboxed.cpp:362-365 | a permutation of triangle entries names the same triangles |
| Windows.Row | freesteel/src/pits/SurfXSliceRay.cpp:70-71 | the cells of strip ix from lo to hi, in the loop's order |
| Windows.ClippedIn | freesteel/src/pits/SurfXSliceRay.cpp:58 | a successful Intersect leaves a non-empty range within both ranges |
| Windows.StripCells | freesteel/src/pits/SurfXSliceRay.cpp:63-73 | the cells visited over strips a to b all exist in the grid |
| Windows.WindowCells | freesteel/src/pits/SurfXSliceRay.cpp:55-74 | the cells the window visits all exist in the grid |
| Windows.StripCellsHas | freesteel/src/pits/SurfXSliceRay.cpp:63-73 | a cell in one of the strips and in that strip's run is visited |
| Windows.CellInWindow | freesteel/src/pits/SurfXSliceRay.cpp:55-74 | the cell holding a point inside the window and the grid is visited |
| Windows.PointPrims | freesteel/src/pits/SurfXSliceRay.cpp:31-32 | one vertex per point entry, in order |
| Windows.EdgeSegs | freesteel/src/pits/SurfXSliceRay.cpp:34-35 | one segment from p0 to p1 per edge entry, in order |
| Windows.TriFaces | freesteel/src/pits/SurfXSliceRay.cpp:37-38 | one face per triangle entry, in order |
| Windows.BucketPrims | freesteel/src/pits/SurfXSliceRay.cpp:27-39 | as many primitives as the bucket has entries |
| Windows.BucketPrimsAt | freesteel/src/pits/SurfXSliceRay.cpp:27-39 | entry by entry, the points, then the edges, then the triangles |
| Windows.CellsPrimsSnoc | freesteel/src/pits/SurfXSliceRay.cpp:70-71 | one more cell offers its bucket after everything offered before it |
| Windows.CellsPrimsHas | freesteel/src/pits/SurfXSliceRay.cpp:70-71 | what any cell of the run offers is offered by the run |
| Windows.BucketFromSurface | freesteel/src/pits/SurfXSliceRay.cpp:27-39 | a bucket offers only primitives of the surface |
| Windows.CellsFromSurface | freesteel/src/pits/SurfXSliceRay.cpp:63-73 | a run of cells offers only primitives of the surface |
| Windows.VisitsFromSurface | freesteel/src/pits/SurfXSliceRay.cpp:55-74 | any window offers only primitives of the surface |
| Windows.ListsIndexed | freesteel/src/cages/SurfXboxed.cpp:314-345 | buckets built by BuildBoxes name only the surface's primitives, so they are ready to slice |
| Windows.PointOffered | freesteel/src/pits/SurfXSliceRay.cpp:31-32 | a bucket listing a vertex offers it |
| Windows.EdgeOffered | freesteel/src/pits/SurfXSliceRay.cpp:34-35 | a bucket listing an edge offers its segment |
| Windows.TriOffered | freesteel/src/pits/SurfXSliceRay.cpp:37-38 | a bucket listing a triangle offers its face |
| Windows.OfferedAt | freesteel/src/pits/SurfXSliceRay.cpp:55-74 | a primitive listed in the cell of a point inside the window is offered |
| Windows.PointVisited | freesteel/src/pits/SurfXSliceRay.cpp:55-74 | after BuildBoxes, a vertex inside the window and the grid is offered |
| Windows.EdgeVisited | freesteel/src/pits/SurfXSliceRay.cpp:55-74 | after BuildBoxes, an edge with a point inside the window and the grid is offered |
| Windows.TriangleVisited | freesteel/src/pits/SurfXSliceRay.cpp:55-74 | after BuildBoxes, a triangle with a point inside the window and the grid is offered |
| Windows.OffersNoBuckets | freesteel/src/pits/SurfXSliceRay.cpp:49-53 | with no buckets, the whole surface is offered whatever the window |
| Windows.OffersWindow | freesteel/src/pits/SurfXSliceRay.cpp:55-74 | with buckets, what the window's cells offer, in order |
| Windows.OffersFromSurface | freesteel/src/pits/SurfXSliceRay.cpp:43-75 | slicing offers only primitives of the surface, with or without buckets |
| Windows.SliceBucket | freesteel/src/pits/SurfXSliceRay.cpp:27-39 | the slicer is offered the bucket's primitives in order and the fibre gets the merge of their cuts |
| Windows.OfferPoints | freesteel/src/pits/SurfXSliceRay.cpp:31-32 | the first loop offers the bucket's points in order |
| Windows.OfferEdges | freesteel/src/pits/SurfXSliceRay.cpp:34-35 | the second loop offers the bucket's edges in order |
| Windows.OfferTriangles | freesteel/src/pits/SurfXSliceRay.cpp:37-38 | the third loop offers the bucket's triangles in order |
| Windows.OfferBucket | freesteel/src/pits/SurfXSliceRay.cpp:27-39 | one bucket's primitives come after those offered so far |
| Windows.SliceStrip | freesteel/src/pits/SurfXSliceRay.cpp:70-71 | the inner loop offers the buckets of cells lo to hi of the strip, in order |
| Windows.SliceCell | freesteel/src/pits/SurfXSliceRay.cpp:71 | one pass of the inner loop offers one more cell's bucket |
| Windows.SliceStripOf | freesteel/src/pits/SurfXSliceRay.cpp:65-72 | one pass of the outer loop offers the strip's cells over the clipped y-range |
| Windows.SliceStrips | freesteel/src/pits/SurfXSliceRay.cpp:63-73 | the outer loop offers the strips' cells, strip by strip |
| Windows.WindowAll | freesteel/src/pits/SurfXSliceRay.cpp:55-74 | the strips sliced offer exactly what the window does |
| Windows.SliceCells | freesteel/src/pits/SurfXSliceRay.cpp:55-74 | the slicer is offered everything the window's cells list, in order, and the fibre gets the merge of their cuts |
| Windows.SliceWindow | freesteel/src/pits/SurfXSliceRay.cpp:43-75 | the whole surface when there are no buckets, else the window's cells, is offered and cut into the fibre |
| Windows.SliceU | freesteel/src/pits/SurfXSliceRay.cpp:43-75 | the u-fibre's window reaches radball plus the margin across the fibre and beyond its ends, and its offers are cut into the fibre |
| Windows.SliceV | freesteel/src/pits/SurfXSliceRay.cpp:79-111 | as SliceU with the window's x and y swapped |
| Boxes.SurfXboxed.constructor | freesteel/src/cages/SurfXboxed.h:92 | an index over the surface with no grid, no buckets, no duplicate counters and no flag set |
| Boxes.SurfXboxed.AddPointBucket | freesteel/src/cages/SurfXboxed.cpp:27-51 | left or right of the x-range sets that flag; below or above the y-range sets that flag; a point in both ranges is put in the one cell holding it (PointPut) |
| Boxes.SurfXboxed.AddEdgeBucket | freesteel/src/cages/SurfXboxed.cpp:78-157 | the buckets, counters and flags are those EdgeInserted gives for the edge |
| Boxes.SurfXboxed.AddTriangBucket | freesteel/src/cages/SurfXboxed.cpp:216-307 | the buckets, counters and flags are those TriInserted gives for the triangle |
| Boxes.SurfXboxed.BuildBoxes | freesteel/src/cages/SurfXboxed.cpp:314-345 | the grid is the one for the surface's ranges and the width; every bucket lists exactly the points in its cell and the edges and triangles reaching it; a flag is set exactly when some primitive sets it; maxidup 0 and searchbox_epsilon 0.0001 |
| Boxes.SurfXboxed.Start | freesteel/src/cages/SurfXboxed.cpp:318-344 | the surface's ranges, no flag set, the empty grid of buckets, maxidup 0 and searchbox_epsilon 0.0001 |
| Boxes.SurfXboxed.FillBoxes | freesteel/src/cages/SurfXboxed.cpp:338-340 | the three loops list every primitive where it belongs and set the flags of all of them |
| Boxes.SurfXboxed.LayGrid | freesteel/src/cages/SurfXboxed.cpp:327-335 | the grid for the ranges and the width, with empty buckets |
| Boxes.SurfXboxed.PutPoints | freesteel/src/cages/SurfXboxed.cpp:338 | every point listed in its cell and the points' flags set |
| Boxes.SurfXboxed.PutPoint | freesteel/src/cages/SurfXboxed.cpp:338 | one more point listed in its cell; the flags gain that point's outs |
| Boxes.SurfXboxed.PutEdges | freesteel/src/cages/SurfXboxed.cpp:339 | every edge listed where it reaches and the edges' flags added |
| Boxes.SurfXboxed.PutEdge | freesteel/src/cages/SurfXboxed.cpp:339 | one more edge listed in every cell it reaches; the flags gain that edge's outs; idups only grows by zero slots |
| Boxes.SurfXboxed.PutTriangles | freesteel/src/cages/SurfXboxed.cpp:340 | every triangle listed where it reaches and the triangles' flags added |
| Boxes.SurfXboxed.PutTriangle | freesteel/src/cages/SurfXboxed.cpp:340 | one more triangle listed in every cell it reaches; the flags gain that triangle's outs; idups only grows by zero slots |
| Boxes.SurfXboxed.SortBuckets | freesteel/src/cages/SurfXboxed.cpp:348-367 | every bucket becomes SortBucket of what it was; the grid is kept |
| Boxes.SurfXboxed.SliceFibreBox | freesteel/src/pits/SurfXSliceRay.cpp:27-39 | the bucket's points, edges and triangles are offered in order and their cuts merged into the fibre |
| Boxes.SurfXboxed.SliceUFibre | freesteel/src/pits/SurfXSliceRay.cpp:43-75 | the whole surface with no buckets, else the buckets of the u-window, is offered and cut into the fibre |
| Boxes.SurfXboxed.SliceVFibre | freesteel/src/pits/SurfXSliceRay.cpp:79-111 | as SliceUFibre for a v-fibre, the window's x and y swapped |

## Left out

- Floating point: doubles are reals, so rounding, NaN and infinities are not modelled. HackDowntoZ's `float lz` parameter is taken at full precision.
- Partitions.Partition1.Guess: a zero-length range makes the source's quotient a NaN, and its conversion to an integer gives the most negative value. -1 stands for it; both clamp to part 0.
- Partitions.Partition1.FindPart: requires a valid partition with boundaries. On such a partition `bRegular` follows, and the source's binary-search branch is only `ASSERT(0)` (bolts/Partition1.cpp:53-55), so it is not modelled.
- Weave.AdvanceOf and Weave.S2weave.Advance: the source's `while (true)` has no bound that holds for every weave, so the model gives each Advance a budget of turns and returns ok = false when the budget runs out. The contracts say nothing about a run that exhausts its budget.
- Weave.S2weave.TrackContour: when ContourNumber finds no endpoint, the source returns a static counter (`balls`); here the trace stops with ok = false. Its promises (the path, the stamps, the closing number) are stated under ok. The closing ASSERT (`ContourNumber(al) == lastcontournumber`, cages/S2weave.cpp:130) is not proved: the contract states only that the closing endpoint is numbered at least firstcontournumber. A walk that closes on an endpoint stamped by an earlier contour of the same epoch still gives ok = true, with its points appended, as a release build of the source does.
- Area.Area2.MakeContours: it passes its budget to every TrackContour and returns ok = false where a trace fails. "Every endpoint of every u-fibre is numbered at or above firstcontournumber afterwards" is proved only under ok and FamilyApart (no two lower or two upper endpoints of a fibre at one position). The source does not promise FamilyApart. Area.SharedSlot shows that without it, ContourNumber for one endpoint can refer to another slot, so the scan can skip an unnumbered endpoint. The points and breaks appended, the contour count and the height are also stated only under ok. The reported contours start at u-fibre endpoints in scan order; that each start was still unvisited when the scan reached it is not stated.
- Slicers.RayGen: the source holds `S1* pfib` and slices through the pointer. The model holds a copy of the fibre. Area.HackFibre writes the sliced copy back into the weave, and HackDowntoZ states the new fibres. Aliasing through the pointer is not modelled.
- Slicers.RayGen.HoldFibre: is given the fibre's family and extent. The weave's fibre values do not carry the S1's `ftype` and `wrg`.
- WeaveCell.S2weaveCell: holds copies of its four side fibres (fulo, fuhi, fvlo, fvhi) instead of pointers into the weave. A later change to the weave does not reach a cell built earlier.
- WeaveCell.S2weaveCell.PairCount: `bolistpairs.size() * 2 == boundlist.size()` is proved when the entries alternate round the cell. CornersPairUp derives that from well-formed sides whose corner codes agree. WeaveCell.OddCellList shows that well-formed sides alone do not give it.
- The ball, triangle and line slicing geometry (NormRay_gen's BallSlice, SLi_gen's SliceTriangle and Convert) is a function parameter of each slicer, because its arithmetic is not part of this model. The proved properties hold for every such function.
- I1.h, P2.h and P3.h are not part of this model. The interval and point operations are defined from their use (Geom).
- Primitives are indices into the surface's vertex, edge and triangle lists instead of pointers.
- Boxes.SurfXboxed.constructor: only its declaration is in the repository (SurfXboxed.h:92). The model's constructor builds an index with no grid, and BuildBoxes is called after it.
- Sorting.SortBy: std::sort is modelled by an insertion sort. Entries with equal keys (equal z or zh in a bucket, equal vertices) keep their input order, which std::sort does not promise. Only sortedness and permutation are proved, and nothing depends on the order of equal keys.
- Boxes.SurfXboxed.BuildBoxes: the point insertion follows the corrected y-range test (Buckets.ReachesInsert), and the triangle insertion follows the corrected corner order (Crossings.CornerOrder) and strip y-ranges (Crossings.TriStripY). See "## Findings". The source sets maxidup and searchbox_epsilon after the loops; the model sets them before, since nothing between reads them.
- Buckets.TcrossY: the source's edge height function returns 0 (a stub), and the model keeps it.
- Buckets.TriZh: as in the source, the heights at a cell's sides are taken at the first cell of the strip's run, and the inner `zhu` shadows the outer one. The model keeps this.
- SurfBuild.MakeTriangXr: the second swap exchanges a and b2 as written, so the first corner need not be the least (SurfBuild.TriangXrFirstNotLeast).
- SurfBuild.SurfXBuilder.PushTriangle: the range growth passes the restart flag of the triangle's first corner to all three Absorb calls, as written. I1::Absorb is not part of this model; its meaning is taken from use (SurfBuild.Absorb3).
- SurfBuild.SurfXBuilder.Build and SurfBuild.BuildSurface: require non-degenerate triangles, which the source ASSERTs.
- Area.Area2.FindInterior: Convert is given urg for both of its ranges on the v-fibres, as written (Area2_gen.cpp:48).
- Endpoints.Minused: the new lower endpoint at hi takes the `binterncellboundlo` flag (S1.cpp:159), as written.
- Endpoints.InvertTwice: the round trip holds only when no zero-length pair sits at an end of the extent. The source's Check allows such pairs.
- PathSeries.PathXSeries.constructor: the source leaves z uninitialised, and the contract leaves it unspecified. PathSeries.PathXSeries.Pop_back requires a point to remove.
- The rest of the repository is not modelled: tool path offsetting, HackToolpath, HackAreaOffset, file and GUI I/O, and the other generators.

## Findings

| source | as written | input that shows it | evidently intended | confidence | as-written member | corrected member |
|---|---|---|---|---|---|---|
| freesteel/src/cages/SurfXboxed.cpp:225-226 | when the third point lies right of both ends of b12, `std::swap(pp0, pp1)` swaps it with the leftmost corner | corners (0,0,0), (1,0,0) and third point (2,0,0): the order is (2, 0, 1) by x, the x-range [2, 1] is empty, and the triangle goes into no bucket (the ASSERT on line 228 fires in a debug build) | `std::swap(pp2, pp1)`, so the corners are in order of x | not executed | Crossings.CornerOrderAsWritten, Crossings.CornerOrderAsWrittenUnsorted | Crossings.CornerOrder |
| freesteel/src/cages/SurfXboxed.cpp:256 | the right cross-section of every strip is taken at `xpart.GetPart(ixrg.first).hi`, the first strip's high side | strips [0,1] and [1,2], triangle (0,0,0), (1,0,0), (2,2,0): the corner (2,2) lies in the second strip, but that strip's y-range as written is [0, 1] | `xpart.GetPart(ix).hi`, the strip's own high side | not executed | Crossings.TriStripYAsWritten, Crossings.TriStripYAsWrittenMisses | Crossings.TriStripY |
| freesteel/src/cages/SurfXboxed.cpp:40-44 | `if` for a point below the y-range, then a separate `if`/`else` for above, so a point below the range still reaches FindPart and the insert | y = -1 against the range [0, 1] | `else if`, so only a point within the range is inserted | not executed | Buckets.ReachesInsertAsWritten, Buckets.ReachesInsertAsWrittenBelow | Buckets.ReachesInsert |
| freesteel/src/cages/S2weave.cpp:53 | the downward scan counts with a `std::size_t`, so `i >= 0` always holds and `i--` from 0 wraps to the largest size_t | one empty fibre at wp 0 scanned down with lw 0, lwp 1, lwpend -1: nothing stops the scan, which then reads `wfibs[SIZE_MAX]` | stop after index 0 and report no fibre | not executed | Weave.InwardsDownAsWrittenAgrees, Weave.InwardsDownAsWrittenOverruns | Weave.InwardsDownChar, Weave.FindInwards |
