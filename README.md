# Bézier particle animations — a Dafny model

This project models the computational core of two canvas animations. In both, particles fly along cubic Bézier curves and repaint the pixels of a source image:

- **Image reconstruction** (`assets/js/bezier-image-reconstruction.js`):
  - Particles fly in from around the canvas towards pixels of one image.
  - Each particle's `state` is pulled forward by an attractive force, pushed back by the pointer once the particle has arrived the first time, and capped at 1.03.
  - When a particle passes t = 1, the image pixels it stands for are revealed in a target buffer.
- **Morph** (`assets/js/bezier-morph.js`):
  - Particles travel between pixels of image A and pixels of image B.
  - A four-phase state machine drives them: rest on A, to B, rest on B, to A.
  - Near each end of its path, a particle repaints its pixels into one of two reveal buffers.

The model covers the following:
- The shared pixel filter over a row-major RGBA byte buffer (`PixelExtraction`).
- The cached cubic coefficient form of the curves (`Bezier`).
- The grid-bucket nearest-particle assignment both files implement (`SpatialGrid`), modelled on particle indices.
- The reveal buffers as byte arrays painted in place (`RevealBuffer`).
- The morph particle schedule, colour, phase machine and buffer painting (`BezierMorph`).
- The reconstruction particle step, marker and per-frame reveal (`BezierReconstruction`).

Modelling choices:
- Random draws become parameters with their ranges: `ParticleDraws`, `ReconDraws`, and the `u`/`restDraw` arguments.
- Coordinates, `t` and forces are exact `real`s, and `Math.floor` is `.Floor`.
- A `Uint8ClampedArray` element is a `byte`.
  - The reconstruction's reveal alpha `255 - alpha` is stored through `Clamped`.
  - Every other stored value already lies in 0..255, so it is stored as it is: a pixel's own channel, or a morph alpha `floor(255 · …)` that `AlphaA`/`AlphaB` bound for t in range.
- A store whose byte offset lies outside the buffer changes nothing. That is the morph's explicit bounds check, and also what a typed array does with an out-of-range index.

Objects whose fields the source updates in place are classes:
- `BezierReconstruction.BezierParticle`, `BezierReconstruction.BezierAnimation` and `BezierMorph.MorphAnimation`.
- Their methods are proved against pure specification functions: `Step`, `Stepped`, `FrameWrites`, `Trigger`, `Tick`, `FrameA`/`FrameB` and `Apply`.
- The properties are proved about those functions.

Loops that build lists or fill buffers are methods with loop invariants:
- `GetPixels`, `GetUsefulPixels`, `BuildGrid`;
- the scans of the nearest search, `MapPixelsToParticles`;
- `Fill`, `ClearAlpha`, `PaintAll`;
- `Draw`, `StepAndReveal`.

Two facts about the code that the model keeps:
- **Number of particles.** Neither file caps the particle count by the number of pixels:
  - the reconstruction creates `numParticles` particles whatever the number of useful pixels;
  - the morph creates one per draw when both images have pixels, and none otherwise.
- **No lower bound on `state`.** The reconstruction's `update` clamps `state` from above at 1.03 only. A pointer push can take it below 0, and `Step` allows that.

## Model

| member | source | states |
|---|---|---|
| Common.Pick | assets/js/bezier-morph.js:201-202 | floor(u · n) for a draw u in [0, 1) is a valid position in a list of n elements |
| Bezier.Coefficients | assets/js/bezier-morph.js:38-47 | the cached coefficients put the curve at p0 for t = 0 and at p3 for t = 1, whatever the handles |
| Bezier.CoefficientsMatchBernstein | assets/js/bezier-image-reconstruction.js:34-42 | the coefficient form a·t³ + b·t² + c·t + x0 equals the Bernstein form of the curve through the four control points at every t |
| PixelExtraction.Extract | assets/js/bezier-morph.js:177-191 | every emitted record is the record (index, column + offX, row + offY, r, g, b) of a pixel the policy keeps; indices strictly increase (buffer order) |
| PixelExtraction.ExtractStep | assets/js/bezier-morph.js:177-190 | one step of the walk at byte offset i appends the record with index i / 4 exactly when the policy keeps that pixel's four bytes |
| PixelExtraction.ExtractComplete | assets/js/bezier-morph.js:182-190 | every kept pixel among the first n is emitted |
| PixelExtraction.ExtractExactly | assets/js/bezier-image-reconstruction.js:180-195 | a pixel's record is emitted if and only if the policy keeps it |
| RevealBuffer.Clamped | assets/js/bezier-image-reconstruction.js:294-301 | a store into a clamped byte array keeps 0..255, turns negatives into 0 and larger values into 255 |
| RevealBuffer.ApplyOne | assets/js/bezier-morph.js:376-382 | a write changes exactly bytes slot·4 .. slot·4+3 to r, g, b, a when 0 ≤ slot·4 < length, and nothing otherwise |
| RevealBuffer.ApplyUntouched | assets/js/bezier-morph.js:376-377 | a byte no write hits keeps its value |
| RevealBuffer.ApplyLastWins | assets/js/bezier-image-reconstruction.js:296-302 | a byte holds the channel of the last write that hits it |
| RevealBuffer.ApplyConcat | assets/js/bezier-morph.js:366-403 | applying two batches of writes in turn equals applying their concatenation |
| RevealBuffer.NewZeroed | assets/js/bezier-morph.js:220 | a new buffer of n bytes is all zero |
| RevealBuffer.AlphaCleared | assets/js/bezier-image-reconstruction.js:283-285 | only the alpha byte of each pixel becomes 0; every other byte is kept |
| RevealBuffer.Fill | assets/js/bezier-morph.js:359-360 | afterwards the buffer is all zero |
| RevealBuffer.ClearAlpha | assets/js/bezier-image-reconstruction.js:283-285 | the in-place loop leaves the buffer equal to AlphaCleared of its old contents |
| RevealBuffer.Paint | assets/js/bezier-morph.js:376-382 | the in-place store leaves the buffer equal to ApplyOne of its old contents |
| RevealBuffer.PaintAll | assets/js/bezier-morph.js:375-383 | the in-place stores leave the buffer equal to Apply of its old contents and the writes, in order |
| SpatialGrid.BucketMembers | assets/js/bezier-morph.js:259-263 | particle i is in cell c's bucket if and only if its anchor lies in cell c |
| SpatialGrid.BuildGrid | assets/js/bezier-morph.js:257-263 | the grid holds, under every cell, exactly the particles whose anchor lies in it, in particle order, and no cell key maps to an empty list |
| SpatialGrid.Insert | assets/js/bezier-morph.js:260-262 | pushing particle i into its cell extends the grid for the first i particles to the grid for the first i + 1 |
| SpatialGrid.InBlockCells | assets/js/bezier-morph.js:271-272 | the scanned cells are exactly those at most one cell away on each axis |
| SpatialGrid.GridConcatIsConcat | assets/js/bezier-morph.js:271-275 | over a grid built from the anchors, the lists found under a run of cells are those cells' buckets |
| SpatialGrid.ConcatMembers | assets/js/bezier-morph.js:271-275 | a particle is among the lists of a run of cells if and only if its anchor's cell is one of them |
| SpatialGrid.BlockMembers | assets/js/bezier-morph.js:266-274 | a particle is a candidate of the 3×3 scan if and only if its anchor is Near the pixel |
| SpatialGrid.FirstMin | assets/js/bezier-morph.js:275-283 | the running minimum is None exactly when nothing was scanned, and otherwise one of the scanned particles |
| SpatialGrid.FirstMinIsLeast | assets/js/bezier-morph.js:279-282 | the kept particle has the least squared distance of all scanned particles |
| SpatialGrid.FirstMinIsFirstMinimum | assets/js/bezier-morph.js:279-282 | with the strict comparison, the kept particle is the first scanned particle of least distance |
| SpatialGrid.FirstMinimumUnique | assets/js/bezier-morph.js:279-282 | the scan keeps k if and only if k is the first scanned particle of least distance |
| SpatialGrid.Winner | assets/js/bezier-morph.js:265-297 | a pixel gets no particle only when there are no particles, and otherwise a valid particle index |
| SpatialGrid.WinnerIsBlockMinimum | assets/js/bezier-morph.js:265-297 | when some particle is Near the pixel, the winner is Near and has least distance among Near particles; otherwise it has least distance among all |
| SpatialGrid.FallbackOnlyWhenBlockEmpty | assets/js/bezier-morph.js:287-297 | the full scan runs if and only if no particle's anchor lies in the 3×3 block |
| SpatialGrid.CloseIsNear | assets/js/bezier-morph.js:257-272 | a particle within one cell width of the pixel always lies in the scanned block |
| SpatialGrid.WinnerExactWhenClose | assets/js/bezier-morph.js:256-300 | when the winner lies within one cell width, no particle anywhere is strictly closer |
| SpatialGrid.ScanCandidates | assets/js/bezier-morph.js:288-296 | a pass over a list leaves closest and minDist as the running minimum over everything scanned so far followed by that list |
| SpatialGrid.Consider | assets/js/bezier-morph.js:276-282 | one candidate replaces the kept particle only when none is kept yet (minDist is Infinity) or it is strictly closer |
| SpatialGrid.ScanCell | assets/js/bezier-morph.js:273-284 | a cell's list is scanned when the grid has the cell, and a missing key scans nothing |
| SpatialGrid.ScanColumn | assets/js/bezier-morph.js:272-285 | the inner loop scans cells (xx, gy−1), (xx, gy), (xx, gy+1) in that order |
| SpatialGrid.ScanBlock | assets/js/bezier-morph.js:268-286 | the nested loops give the running minimum over the nine cells, x outer and y inner |
| SpatialGrid.Nearest | assets/js/bezier-morph.js:265-297 | the block scan, then the fallback over all particles, finds exactly the Winner |
| SpatialGrid.OwnedCount | assets/js/bezier-morph.js:298 | particle k's list holds a pixel exactly as often as the input does when the pixel belongs to k, and never otherwise |
| SpatialGrid.OwnedBelowCount | assets/js/bezier-morph.js:265-299 | the lists of particles 0 .. m−1 together hold each pixel as often as the input does when its owner is below m, and never otherwise |
| SpatialGrid.OwnershipPartitions | assets/js/bezier-morph.js:265-299 | when every pixel has an owner among n particles, the n lists together are the input as a multiset |
| SpatialGrid.OwnedFromInput | assets/js/bezier-morph.js:298 | every pixel in particle k's list comes from the input and belongs to k |
| SpatialGrid.MapPixelsToParticles | assets/js/bezier-morph.js:256-300 | there is one list per particle, and list k is exactly the pixels whose Winner is k, in pixel order |
| SpatialGrid.Place | assets/js/bezier-morph.js:265-298 | one pixel is appended to its winner's list and to no other |
| SpatialGrid.AssignmentPartitions | assets/js/bezier-image-reconstruction.js:229-271 | with at least one particle, every useful pixel goes to exactly one particle's list: none dropped, none duplicated |
| SpatialGrid.NoParticlesNoAssignment | assets/js/bezier-image-reconstruction.js:257-270 | with no particles, no pixel is assigned |
| SpatialGrid.AssignedOnlyToWinner | assets/js/bezier-image-reconstruction.js:270 | a pixel reaches particle k's list only when k is that pixel's winner |
| BezierMorph.Handle | assets/js/bezier-morph.js:21-36 | a handle is the canvas centre plus a random offset of at most half the canvas, so it lies on the canvas |
| BezierMorph.NewParticle | assets/js/bezier-morph.js:6-47 | the particle keeps its start and end pixel, has delay in [0, 500) and speed multiplier in [0.8, 1.2), and its curve runs from start (t = 0) to end (t = 1) |
| BezierMorph.ParticleFollowsCurve | assets/js/bezier-morph.js:33-47 | the particle's position at t is the Bernstein curve through start, the two handles and end |
| BezierMorph.Progress | assets/js/bezier-morph.js:61-63 | progress lies in [0, 1], is 0 until the delay has passed, and is 1 from delay + duration · speedMult on |
| BezierMorph.LocalT | assets/js/bezier-morph.js:52-78 | t lies in [0, 1]; it is 0 at rest on A and 1 at rest on B |
| BezierMorph.ToBWaitsForDelay | assets/js/bezier-morph.js:58-63 | towards B, t is 0 while phaseTime ≤ delay |
| BezierMorph.ToBArrives | assets/js/bezier-morph.js:58-63 | towards B, t is 1 once phaseTime ≥ delay + 2500 · speedMult |
| BezierMorph.ToBMonotone | assets/js/bezier-morph.js:58-63 | towards B, t never decreases as phaseTime grows |
| BezierMorph.ToAMirrorsToB | assets/js/bezier-morph.js:68-75 | towards A, t is 1 minus the value towards B at the same phaseTime |
| BezierMorph.Lerp | assets/js/bezier-morph.js:87-89 | the floored interpolated channel lies between the start and end channel; it is the start channel at t = 0 and the end channel at t = 1 |
| BezierMorph.Render | assets/js/bezier-morph.js:52-89 | the frame's t is the particle's LocalT for the literal 2500 ms duration, within [0, 1]; the particle is drawn at its curve's point for that t, in the channel-wise interpolation of its start and end colours, which stays between them; a wellformed particle at t = 0 is on its start pixel in that colour, at t = 1 on its end pixel in that colour |
| BezierMorph.RenderAtRest | assets/js/bezier-morph.js:54-57 | at rest on A a particle shows its start pixel's position and colour; at rest on B, its end pixel's |
| BezierMorph.MorphPixelKept | assets/js/bezier-morph.js:177-190 | a pixel is extracted if and only if it is not the case that r, g and b all exceed 240, and its alpha is positive |
| BezierMorph.GetPixels | assets/js/bezier-morph.js:165-193 | the loop returns exactly the extracted pixels of the centred image, in buffer order |
| BezierMorph.Spawned | assets/js/bezier-morph.js:199-209 | there is one particle per draw when both images have pixels and none otherwise; each is well formed and runs from a pixel of A to a pixel of B |
| BezierMorph.CreateParticles | assets/js/bezier-morph.js:199-209 | the loop builds exactly the Spawned particles |
| BezierMorph.RandomDuration | assets/js/bezier-morph.js:139-143 | a transition lasts 2500 ms and a rest lasts 3000 to 5000 ms |
| BezierMorph.Trigger | assets/js/bezier-morph.js:302-314 | a trigger changes the schedule if and only if the phase is a rest: it moves to the next phase, starting now, with 2500 ms; it keeps ScheduleOk |
| BezierMorph.Tick | assets/js/bezier-morph.js:324-342 | a rest never changes; a transition moves to the next phase if and only if more than 4000 ms have elapsed, restarting at the timestamp; it keeps ScheduleOk |
| BezierMorph.FullCycle | assets/js/bezier-morph.js:302-342 | a trigger followed by a frame after the transition settles reaches rest on B; doing this again returns to rest on A |
| BezierMorph.AlphaA | assets/js/bezier-morph.js:371-372 | for t in [0, 0.3), image A's alpha is a byte, and it is 255 at t = 0 |
| BezierMorph.AlphaB | assets/js/bezier-morph.js:388-389 | for t in (0.7, 1], image B's alpha is a byte, and it is 255 at t = 1 |
| BezierMorph.AlphaAFades | assets/js/bezier-morph.js:371-372 | image A's alpha never increases as t grows |
| BezierMorph.AlphaBGrows | assets/js/bezier-morph.js:388-389 | image B's alpha never decreases as t grows |
| BezierMorph.LayerA | assets/js/bezier-morph.js:370-385 | a particle writes to buffer A only when its t < 0.3, and every alpha it writes is at least 1 |
| BezierMorph.LayerB | assets/js/bezier-morph.js:387-402 | a particle writes to buffer B only when its t > 0.7, and every alpha it writes is at least 1 |
| BezierMorph.FrameA | assets/js/bezier-morph.js:366-385 | every alpha written to buffer A in a frame lies in [1, 255] |
| BezierMorph.FrameB | assets/js/bezier-morph.js:366-402 | every alpha written to buffer B in a frame lies in [1, 255] |
| BezierMorph.RestAShowsA | assets/js/bezier-morph.js:366-403 | at rest on A nothing is written to buffer B, and buffer A is written fully opaque |
| BezierMorph.RestBShowsB | assets/js/bezier-morph.js:366-403 | at rest on B nothing is written to buffer A, and buffer B is written fully opaque |
| BezierMorph.InitParticles | assets/js/bezier-morph.js:195-213 | init extracts both images, spawns the particles, and gives each pixel of A to its nearest start and each pixel of B to its nearest end |
| BezierMorph.PaintLayers | assets/js/bezier-morph.js:370-402 | one particle's painting leaves each buffer equal to its old contents with that particle's layer applied |
| BezierMorph.Start | assets/js/bezier-morph.js:195-226 | after init there are two distinct zeroed buffers of the window's size, the initialized particles, and a rest on A starting now |
| BezierMorph.MorphAnimation.constructor | assets/js/bezier-morph.js:104-137 | the constructor followed by init establishes the invariant, the initialized particles, zeroed buffers and the first rest on A |
| BezierMorph.MorphAnimation.TriggerTransition | assets/js/bezier-morph.js:302-314 | the schedule becomes Trigger of the old one, the invariant is kept and nothing else changes |
| BezierMorph.MorphAnimation.Draw | assets/js/bezier-morph.js:350-403 | both buffers end up holding exactly every particle's layer, in particle order, painted over cleared buffers |
| BezierMorph.MorphAnimation.DrawParticle | assets/js/bezier-morph.js:366-403 | particle k's painting extends both buffers from the frame of the first k particles to that of the first k + 1 |
| BezierMorph.MorphAnimation.Loop | assets/js/bezier-morph.js:316-348 | the schedule becomes Tick of the old one, and the buffers are painted with the elapsed time read before the phase update |
| BezierMorph.MorphAnimation.UpdatePhase | assets/js/bezier-morph.js:324-342 | the in-place phase update makes the schedule Tick of the old one and keeps the invariant |
| BezierReconstruction.UsefulPixelKept | assets/js/bezier-image-reconstruction.js:180-195 | a pixel is useful if and only if r + g + b < 750 (mean below 250), recorded at its own column and row |
| BezierReconstruction.UsefulPixelsInImage | assets/js/bezier-image-reconstruction.js:188-193 | every useful pixel's index names a pixel of the image |
| BezierReconstruction.GetUsefulPixels | assets/js/bezier-image-reconstruction.js:176-195 | the loop returns exactly the useful pixels, in buffer order |
| BezierReconstruction.InitialConsistent | assets/js/bezier-image-reconstruction.js:44-48 | a new particle's state (0, active, 255, not arrived) satisfies the update invariant |
| BezierReconstruction.Repulsion | assets/js/bezier-image-reconstruction.js:69-70 | the push (5 or 1) / (dist + 20) lies in (0, 0.25] |
| BezierReconstruction.PressPushesHarder | assets/js/bezier-image-reconstruction.js:70 | with the button down the push is five times stronger |
| BezierReconstruction.AlphaFor | assets/js/bezier-image-reconstruction.js:81-86 | alpha is 255 while state ≤ 1, and an integer in [1, 76] beyond 1 |
| BezierReconstruction.Step | assets/js/bezier-image-reconstruction.js:51-87 | after update, state ≤ 1.03, active exactly while state < 1.03, alpha as AlphaFor; the arrival latch is set exactly when it was set before or state > 1 |
| BezierReconstruction.StepIgnoresPointer | assets/js/bezier-image-reconstruction.js:56-71 | before the first arrival, or with the pointer outside, the pointer's button and distance do not affect the step |
| BezierReconstruction.LatchHolds | assets/js/bezier-image-reconstruction.js:81-84 | completedFirst, once set, is never cleared |
| BezierReconstruction.StepAdvances | assets/js/bezier-image-reconstruction.js:53-75 | undisturbed and with speed in [2, 3), a particle below 1.03 moves strictly forward |
| BezierReconstruction.StepStaysSettled | assets/js/bezier-image-reconstruction.js:53-75 | undisturbed, a particle at 1.03 stays there |
| BezierReconstruction.StepAdvancesEnough | assets/js/bezier-image-reconstruction.js:53-75 | one undisturbed frame advances the state by at least (2 − 1.03) / 400, up to the cap |
| BezierReconstruction.SettleProgress | assets/js/bezier-image-reconstruction.js:53-75 | after n undisturbed frames the state has advanced by n times that amount, up to the cap |
| BezierReconstruction.SettlesWithin | assets/js/bezier-image-reconstruction.js:53-87 | from any state, an undisturbed particle settles at 1.03, stops drawing and is left at alpha 1 once n frames at the least undisturbed advance of 0.002425 per frame cover its distance to 1.03; from any state ≥ 0, 425 frames are enough |
| BezierReconstruction.SettleConsistent | assets/js/bezier-image-reconstruction.js:51-87 | any positive number of updates leaves the invariant on state, activity, alpha and latch, with alpha the value update computes for the final state |
| BezierReconstruction.RevealAlpha | assets/js/bezier-image-reconstruction.js:294 | the reveal alpha is 0 before t = 1, and 255 − alpha after |
| BezierReconstruction.AlphaForFades | assets/js/bezier-image-reconstruction.js:81-83 | the further past t = 1 the parameter is, the lower (never higher) the particle's own alpha |
| BezierReconstruction.RevealGrows | assets/js/bezier-image-reconstruction.js:294 | for states whose alpha is the one update computes, the reveal alpha 255 − alpha never falls as the state rises: hidden below t = 1, then growing with the fade |
| BezierReconstruction.RevealAfterStep | assets/js/bezier-image-reconstruction.js:81-86 | after an update, pixels show if and only if state > 1, and then with alpha in [179, 254] |
| BezierReconstruction.Size | assets/js/bezier-image-reconstruction.js:100-102 | the marker size is at least nominal, and exactly nominal from t = 1 on |
| BezierReconstruction.SizeShrinks | assets/js/bezier-image-reconstruction.js:100-102 | the marker never grows as the state advances |
| BezierReconstruction.Marker | assets/js/bezier-image-reconstruction.js:89-108 | a disc is drawn if and only if the particle is active |
| BezierReconstruction.MarkerAtEnd | assets/js/bezier-image-reconstruction.js:92-107 | past t = 1 a visible particle sits on its end point at half its nominal size |
| BezierReconstruction.BezierParticle.constructor | assets/js/bezier-image-reconstruction.js:6-49 | the particle keeps its end, colour and size; its start is StartPoint of the draws (the box 2.5 canvases wide around the centre); its cached curves are the coefficients through start, the two drawn handles and end, so they pass through the start at t = 0 and the end at t = 1 (OnCurve); its speed is 2 + draw; it starts at state 0, active, opaque and not arrived |
| BezierReconstruction.BezierParticle.DrawnAtEnd | assets/js/bezier-image-reconstruction.js:89-107 | past t = 1 a visible particle with its curve through its end point is drawn on that end point, with radius half its nominal size |
| BezierReconstruction.BezierParticle.Update | assets/js/bezier-image-reconstruction.js:51-87 | the fields after update are Step of the old ones, and the invariant is kept |
| BezierReconstruction.BezierParticle.Draw | assets/js/bezier-image-reconstruction.js:89-90 | a disc is drawn if and only if the particle is active |
| BezierReconstruction.FrameWritesFromDependents | assets/js/bezier-image-reconstruction.js:296-302 | every write of a frame targets some dependent pixel's index |
| BezierReconstruction.HiddenUnlessWritten | assets/js/bezier-image-reconstruction.js:281-302 | an alpha byte that no write of the frame hits ends at 0, so that pixel stays hidden |
| BezierReconstruction.CreateParticles | assets/js/bezier-image-reconstruction.js:197-214 | there is one fresh, distinct particle per draw, in its initial state, made for its draw (MadeFor): bound for the useful pixel the draw picks, in that pixel's colour, of size 5, with the drawn start and speed and a curve from start to end |
| BezierReconstruction.DependentsInImage | assets/js/bezier-image-reconstruction.js:296-297 | every pixel handed to a particle writes inside the image's buffer |
| BezierReconstruction.BezierAnimation.constructor | assets/js/bezier-image-reconstruction.js:163-275 | init gives one particle per draw made for that draw, each particle's dependents as the grid assignment of the useful pixels to the end points, and a target buffer of the image's size; after the frame init runs itself, every particle is one undisturbed step from its initial state and the buffer is the zeroed buffer with that frame's reveal writes applied |
| BezierReconstruction.InitParticles | assets/js/bezier-image-reconstruction.js:163-273 | the particle half of init: one valid particle per draw in its initial state and made for its draw, the grid assignment of the useful pixels, and a fresh zeroed buffer every dependent pixel fits in |
| BezierReconstruction.Init | assets/js/bezier-image-reconstruction.js:163-274 | init with its closing frame: the particles of InitParticles, each stepped once from its initial state, and the zeroed buffer with the FirstStates frame's reveal writes applied |
| BezierReconstruction.RunFirstFrame | assets/js/bezier-image-reconstruction.js:274-305 | from particles at rest and a zeroed buffer, one frame with the pointer outside steps each particle once from Initial and applies that frame's writes to the zeroed buffer |
| BezierReconstruction.FirstFrame | assets/js/bezier-image-reconstruction.js:51-87 | a frame from rest with the pointer outside is FirstStates: each particle one step from Initial |
| BezierReconstruction.BezierAnimation.Animate | assets/js/bezier-image-reconstruction.js:277-305 | a frame steps every particle and leaves the buffer as the alpha-cleared old buffer with every particle's reveal writes applied |
| BezierReconstruction.RevealParticle | assets/js/bezier-image-reconstruction.js:290-302 | a particle's turn steps it, then writes its dependents at the reveal alpha of its new state |
| BezierReconstruction.Stepped | assets/js/bezier-image-reconstruction.js:290-291 | every stepped state satisfies the update invariant |
| BezierReconstruction.SteppedAt | assets/js/bezier-image-reconstruction.js:290-291 | each particle is stepped on its own, with its own speed and pointer distance |
| BezierReconstruction.StepOne | assets/js/bezier-image-reconstruction.js:290-305 | turn k extends the frame's progress from the first k particles to the first k + 1 |
| BezierReconstruction.RevealAt | assets/js/bezier-image-reconstruction.js:290-302 | turn k steps particle k, reveals its pixels, and leaves every other particle's state unchanged |
| BezierReconstruction.ProgressStep | assets/js/bezier-image-reconstruction.js:290-302 | the states and the buffer writes after k + 1 turns are those after k turns followed by turn k's |
| BezierReconstruction.StepAndReveal | assets/js/bezier-image-reconstruction.js:290-305 | the per-particle loop steps every particle and applies every reveal write, in particle order |
| BezierReconstruction.AnimateFrame | assets/js/bezier-image-reconstruction.js:281-305 | the frame clears every alpha byte, then steps and reveals, particle after particle |

## Left out

- DOM and canvas plumbing is not modelled because it is I/O. This covers:
  - `getContext`, `createElement`, `drawImage`, `getImageData`/`putImageData` and `createImageData` (other than the zeroed buffer it returns);
  - `fillStyle` strings, `arc`/`fill`, the background `fillRect`, and the translate/save/restore around a frame.
  An image is given as its decoded RGBA bytes.
- Image loading, event listeners, `resize` and `requestAnimationFrame` scheduling are not modelled, because they are host callbacks. This also covers `console.log` and the global `window.init*` hooks.
  - The pointer state and the click/touch event become method arguments.
  - The window size and `performance.now()` become constructor arguments.
  - The morph's `resize` listener, which changes `width`/`height` after `init`, is not modelled.
- `Math.random` is not modelled; each draw is a parameter in [0, 1):
  - `ParticleDraws` and `ReconDraws` carry the picks, delays, speeds, start points and handles;
  - `restDraw` and `u` carry the rest durations.
- `Math.sqrt` is not modelled. The pointer's distance from a particle is an input `dist ≥ 0`, so the curve position and the offsets that feed it are not recomputed inside `update`.
- `Math.sin` is not modelled. The morph marker radius `1 + 5·sin(tπ)` is left out of `Render`.
- Floating-point rounding is not modelled. Arithmetic is exact over the reals.
- The dead expression at assets/js/bezier-image-reconstruction.js:200 is not modelled. `usefulPixels.size` is undefined and its result unused.
- An empty useful-pixel list in the reconstruction is excluded, not modelled: it throws at assets/js/bezier-image-reconstruction.js:207. The constructor requires useful pixels whenever particles are requested.
- `hasPixelsA`/`hasPixelsB` in the morph's `draw` are not modelled; they only gate the blits.
- The unused `phaseDuration` parameter of `draw` is not modelled. `currentPhaseDuration` is kept and stays in range, but particle timing uses the literal 2500.
- Dependent pixel lists are kept by the animation, one per particle and indexed like the particles, not as a field of each particle object. The morph particle is otherwise never changed after construction, so it is a value.
- The state between the constructor and the asynchronous `init` is not modelled: particles empty, buffers unset. Each constructor is modelled together with its `init`.
- The morph's `requestAnimationFrame` call that ends `init` is not modelled. Each morph frame is a separate `Loop` call.
- BezierReconstruction.BezierAnimation.constructor: the first frame, which `init` runs itself, uses the pointer state the constructor sets (button up, outside the canvas). Pointer events that arrive before the image has loaded are not modelled. Later frames, which `requestAnimationFrame` schedules, are separate `Animate` calls.
