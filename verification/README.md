# Pictogram overlay core, modelled in Dafny

The system draws a stylised "pictogram" stick figure over a live camera feed
and runs a timed pose-imitation game on top of it. This project models three
parts of it:

- **Smoothing ring buffer** (`KeypointsRingBuffer`, module `RingBuffer`). It
  keeps the last `2^bitLength` keypoint frames. It also keeps a running
  per-joint sum of x, y and score, so that `getAverage` returns the trailing
  mean.
  - `Bits` models the JavaScript `1 << n` and `&` the buffer relies on.
  - `Pose` holds the shared keypoint types.
- **Game overlay** (`RenderUI`, module `RenderUI`). It is a pure function of the
  elapsed time and the pictogram list. It draws a countdown, then 4000 ms rounds
  of five 800 ms slots: two slots of big pictogram, two of small pictogram with
  a `n/6` counter, and one closing iris.
- **Pose renderer** (`Render`, module `Render`). It draws keypoint dots and
  skeleton lines gated on the detector's scores, then the stick figure: a face
  disc and eight tapered limb sticks. The earlier `Rendering` class (module
  `Rendering`) has the same gating and no stick figure.

Drawing calls are returned as sequences of abstract commands (`UICmd`,
`DrawCmd`), in the order the source issues them.

The ring buffer is an immutable datatype. Its correctness is stated against a
history of added frames, given as a parameter:
- `Tracks(b, h)` says the ring holds the last `count` frames of `h`;
- the sums equal the totals over that window, with a missing score counting 0;
- the names are those of the latest frame.

JavaScript semantics are written out:
- `1 << n` takes the shift count modulo 32 and gives a signed 32-bit result, so
  a shift by 31 makes `new Array` throw, modelled as `None`;
- `x & (2^k - 1)` is proved equal to `x % 2^k`;
- `score || 0`, `score != null ? score : 1` and `scoreThreshold || 0` get
  their own functions;
- an out-of-range `pictograms[i]` gives the path `/pictograms/undefined`.

Some behaviour of the code that a reader might not expect:
- **Round timing.** A round is 5 × 800 ms = 4000 ms. The round number is
  `floor(elapsed / 800 / 5)`, and the big pictogram is drawn only while it
  is below 6.
- **Stick figure gating.** The stick figure is not gated on scores: all eight
  sticks are always drawn, and only the face disc depends on
  `getFaceCenter`. Hence a frame whose scores are all 0 still draws the 24
  stick commands (`Render.ZeroScoresDrawOnlySticks`).
- **Face radius.** It is computed from keypoints 0, 1 and 2 (nose and eyes).
- **Face centre.** `getFaceCenter` uses a strict `> 0.5` on a present score,
  while dots and lines use `>=` with a missing score counting as 1.
- **Countdown digit.** It is `floor(4 - t/1000)`, which shows 4 at `t = 0`
  and 1 just before 3000 ms.

## Model

| member | source | states |
|---|---|---|
| Pose.EffectiveScore | src/models/render.ts:70 | a keypoint's gating score is its score when present and 1 when missing, as in `score != null ? score : 1` (also src/models/render.ts:95-96 and pages/models/rendering.ts:68, 93-94) |
| Pose.ScoreOrZero | src/models/RingBuffer.ts:28-30 | a score enters the running sums as itself when present and as 0 when missing, as in `score \|\| 0` (also src/models/RingBuffer.ts:41-42) |
| Bits.ShiftOne | src/models/RingBuffer.ts:16 | `1 << n` equals `2^(n mod 32)` for shift counts below 31 mod 32, and is negative for 31 |
| Bits.MaskIsMod | src/models/RingBuffer.ts:48 | masking with `size - 1`, where `size` is a power of two, equals reduction modulo `size`, so `(idx + 1) & mask` wraps the cursor |
| RingBuffer.New | src/models/RingBuffer.ts:13-23 | the constructor fails exactly when the shift gives a negative size. Otherwise: size `2^(bitLength mod 32)`, mask `size - 1`, count and cursor 0, `width` zeroed sums with empty names |
| RingBuffer.NewTracks | src/models/RingBuffer.ts:13-23 | a fresh buffer tracks the empty history |
| RingBuffer.Evict | src/models/RingBuffer.ts:26-33 | when full, each joint's x, y and score sums lose exactly the evicted frame's values (a missing score counts 0); names are kept |
| RingBuffer.Accumulate | src/models/RingBuffer.ts:40-46 | each joint's sums gain exactly the new frame's values, and its name becomes the new frame's joint name |
| RingBuffer.Add | src/models/RingBuffer.ts:25-49 | the buffer stays well-formed. Count becomes `min(count + 1, size)` and the cursor `(idx + 1) mod size`. Only the slot at the cursor changes, to the first `width` keypoints of the frame. Names are taken from the frame |
| RingBuffer.CursorHoldsOldest | src/models/RingBuffer.ts:26-33 | when full, the slot under the cursor, the one evicted next, holds the oldest frame of the window |
| RingBuffer.AddTracks | src/models/RingBuffer.ts:25-49 | `add` preserves the running-sum invariant. If the buffer tracked history `h`, it tracks `h + [f]`: ring contents, count, cursor, window sums and names |
| RingBuffer.AddAllTracks | src/models/RingBuffer.ts:25-49 | any sequence of adds keeps the buffer tracking the whole history |
| RingBuffer.GetAverage | src/models/RingBuffer.ts:56-67 | returns `width` points. Each is the joint's sums divided by count, with the name kept and a zero score sum staying 0 |
| RingBuffer.AverageIsTrailingMean | src/models/RingBuffer.ts:56-67 | on a tracked buffer, each averaged x, y and score is the mean of that joint over the last `min(adds, size)` frames, and the name is the latest frame's |
| RingBuffer.Clear | src/models/RingBuffer.ts:51-54 | `clear` as written: count and cursor become 0; sums and ring are left unchanged |
| RingBuffer.ClearThenAdd | src/models/RingBuffer.ts:51-54 | after the as-written `clear` and one `add`, the buffer tracks that single frame exactly when every stale sum was already zero |
| RingBuffer.ClearLeavesStaleSums | src/models/RingBuffer.ts:51-54 | once a window had a non-zero x sum, clear-then-add leaves old sum + new x in the accumulator, and the invariant is lost |
| RingBuffer.ClearReset | src/models/RingBuffer.ts:51-54 | the corrected `clear`: count and cursor 0 and all sums zeroed, keeping the buffer well-formed |
| RingBuffer.ClearResetTracks | src/models/RingBuffer.ts:51-54 | after the corrected `clear`, the buffer tracks the empty history, and after any further adds it tracks exactly those frames |
| RenderUI.CountdownDigitIsCeiling | src/models/renderUI.ts:33 | `floor(4 - t/1000)` equals `4 - ceil(t/1000)`; before 3000 ms it lies in 1..4, and it is 4 only at `t = 0` |
| RenderUI.TimingIsDivision | src/models/renderUI.ts:107-113 | the real-valued floors are integer divisions: round `= e div 4000`, slot `= (e div 800) mod 5 = (e mod 4000) div 800` in 0..4, and the progress `splitTime` lies in [0, 1) |
| RenderUI.SlotWindow | src/models/renderUI.ts:111-112 | round `n` and slot `k` hold exactly when the elapsed time lies in `[4000n + 800k, 4000n + 800(k+1))` (both directions) |
| RenderUI.RoundMonotone | src/models/renderUI.ts:111 | the round number never decreases as time advances |
| RenderUI.RoundConstantInCycle | src/models/renderUI.ts:108-111 | the round number is constant throughout each 4000 ms cycle |
| RenderUI.PictogramSrc | src/models/renderUI.ts:41 | the image path is `/pictograms/` plus the list entry, or `/pictograms/undefined` past the end of the list |
| RenderUI.DrawCountUpUI | src/models/renderUI.ts:67-77 | the counter's numerator is the count clamped to `max`, and its denominator is `max` |
| RenderUI.DrawGameUI | src/models/renderUI.ts:103-125 | every clear or fill covers exactly the upper half of the canvas; every counter is between 1/6 and 6/6; every countdown digit is in 1..4 |
| RenderUI.CountdownPhase | src/models/renderUI.ts:26-37 | before 3000 ms: clear and fill the upper half, then write the digit `4 - ceil(t/1000)` at the source's position |
| RenderUI.RevealPhase | src/models/renderUI.ts:114-117 | slots 0–1 of rounds 0–5 clear and fill the upper half and draw that round's pictogram at 0.75 × width; in later rounds they draw nothing |
| RenderUI.ChallengePhase | src/models/renderUI.ts:120-122 | slots 2–3 draw the round's pictogram at 0.25 × width (or the `undefined` path), then the counter `min(round + 1, 6)/6`, without clearing |
| RenderUI.FocusProgress | src/models/renderUI.ts:113 | in slot 4 of any round the progress `splitTime` lies in [0.8, 1) |
| RenderUI.FocusPhase | src/models/renderUI.ts:113-119 | slot 4 draws only the iris; the progress lies in [0.8, 1), so the radius lies in (0.5 × width, 0.6 × width] |
| RenderUI.FocusShrinks | src/models/renderUI.ts:90-93 | within one focus slot, a later time gives a strictly smaller iris radius |
| RenderUI.SlotsPartitionRound | src/models/renderUI.ts:114-123 | past the countdown exactly one of reveal, challenge and focus applies, and every big pictogram drawn has an index below 6 |
| Render.Threshold | src/models/render.ts:71 | an unset threshold falls back to 0; a set one is used as is; the default configuration gives 0.5 |
| Render.DrawKeypoint | src/models/render.ts:68-79 | a dot is drawn exactly when the effective score (missing → 1) is at least the threshold |
| Render.DrawKeypointGroup | src/models/render.ts:53-55 | a colour group draws only dots of its own joints that pass the gate, and a dot for every joint of the group that passes |
| Render.GroupDotIff | src/models/render.ts:53-65 | a colour group's loop yields a dot for joint `i` in a colour exactly when the colour is the group's, `i` is in the group and it passes the gate |
| Render.DrawKeypoints | src/models/render.ts:45-66 | a dot for joint `i` in colour `side` is drawn exactly when `i` is in that side's group and passes the gate |
| Render.DrawSkeleton | src/models/render.ts:85-106 | every line is for an adjacent pair with both ends passing the gate, and every such pair gets its line |
| Render.SkeletonLineIff | src/models/render.ts:90-105 | a line for `(i, j)` is drawn exactly when the pair is adjacent and both endpoints pass the gate |
| Render.FacePoints | src/models/render.ts:195-203 | the face points are empty exactly when no face keypoint has a present score above 0.5, and each comes from such a keypoint |
| Render.AccumulateFace | src/models/render.ts:185-203 | the loop counts exactly the face points and sums exactly their coordinates |
| Render.GetFaceCenter | src/models/render.ts:184-205 | no centre exactly when no face point qualifies; otherwise the centre is the mean of the face points and lies within their bounding box |
| Render.MeanBetween | src/models/render.ts:204 | the mean of a non-empty list of values lies between its least and greatest value |
| Render.LoAttained | src/models/render.ts:204 | the bounding box's low edge is one of the face points' coordinates |
| Render.HiAttained | src/models/render.ts:204 | the bounding box's high edge is one of the face points' coordinates |
| Render.RadiiTaper | src/models/render.ts:112-123 | the face radius is twice the longer nose–eye distance, and `0 ≤ r3 ≤ r2 ≤ r1 ≤ face`, at 0.6, 0.45 and 0.3375 of the face radius |
| Render.LimbTableShape | src/models/render.ts:131-139 | eight sticks, two per root 5, 6, 11, 12. Each joins a joint to the one two further on, all indices ≤ 16, with radii r1→r2 then r2→r3 |
| Render.DrawStick | src/models/render.ts:142-176 | two cap discs with the endpoints' own radii, then a quad in the order p1+, p2+, p2−, p1−. Each end of the quad is centred on its joint and spans twice its radius along the normal |
| Render.DrawLimbs | src/models/render.ts:132-139 | three commands per stick, in table order, each the stick for that limb |
| Render.FaceDisc | src/models/render.ts:126-128 | a face disc is drawn exactly when there is a face centre, at that centre with the face radius |
| Render.DrawStickFigure | src/models/render.ts:108-140 | an optional face disc, then 24 stick commands for the limb table; nothing is score-gated |
| Render.DrawResult | src/models/render.ts:34-40 | nothing without keypoints; otherwise commands are layered dots, then lines, then the figure |
| Render.ResultParts | src/models/render.ts:34-40 | with keypoints, the result is the dots, then the skeleton, then the stick figure |
| Render.ResultDotIff | src/models/render.ts:34-79 | in the whole result, a dot appears exactly when its joint is in the group and passes the gate |
| Render.ResultLineIff | src/models/render.ts:34-106 | in the whole result, a line appears exactly when its pair is adjacent and both ends pass the gate |
| Render.GroupHidden | src/models/render.ts:53-55 | a group none of whose keypoints passes draws nothing |
| Render.SkeletonHidden | src/models/render.ts:90-105 | a pair list with no fully passing pair draws nothing |
| Render.ZeroScoresDrawOnlySticks | src/models/render.ts:34-40 | with every score 0 and the default threshold, no dots, lines or face disc are drawn; the result is exactly the 24 stick commands |
| Rendering.DrawResult | pages/models/rendering.ts:33-38 | nothing without keypoints; otherwise only dots and lines, at most one per group entry and pair |
| Rendering.CurrentExtendsEarlier | pages/models/rendering.ts:33-38 | the current renderer's output is the earlier renderer's output followed by the stick figure |
| Rendering.DotIff | pages/models/rendering.ts:66-77 | a dot is drawn exactly when the joint is in the group and its effective score reaches `scoreThreshold \|\| 0` |
| Rendering.LineIff | pages/models/rendering.ts:88-103 | a line is drawn exactly when the pair is adjacent and both effective scores reach the threshold |
| Rendering.DefaultThresholdBoundary | pages/models/rendering.ts:10-13 | with the default 0.5: a score of exactly 0.5 is drawn, a lower score is not, and a missing score always is |

## Left out

- Canvas styling is not modelled: colours, line widths, fonts, compositing modes and image loading. Commands carry only geometry, text and image paths.
- The focus iris's off-screen canvas is modelled as one `Iris` command. The `getContext('2d')` failure branch, which draws nothing, is host behaviour and is left out.
- `Math.hypot`, `atan2`, `cos` and `sin` are function parameters (`hypot`, `normal`). Their floating-point values are not modelled.
- All arithmetic is exact (`real`). Floating-point rounding and drift in the running sums are not modelled.
- `getKeypointIndexBySide` and `getAdjacentPairs` come from the detection library. The side partition and the pair list are parameters.
- RenderUI.DrawGameUI: time is a `nat`, so negative times (which the source would show as a countdown digit above 4) are not modelled.
- Render.DrawStickFigure: it requires at least 17 keypoints, because the source indexes joints 0–16 without a guard.
- Render.DrawKeypoints: the side indices and the adjacency pairs must lie within the keypoint list. The source would read `undefined` and throw on `.score`.
- RingBuffer.GetAverage: it requires `count > 0`. The source would divide by zero and return NaN or Infinity, which is not modelled.
- RingBuffer.Add: it requires a frame of at least `width` keypoints. The source would read past `slice` and throw. The source stores the frame's keypoint objects by reference (`slice` copies only the array), and a later eviction reads them back to subtract them. If a caller mutates a keypoint after `add`, the source subtracts a value it never added and the sums drift. The model stores immutable frames, so `RingBuffer.AddTracks` and `RingBuffer.AverageIsTrailingMean` assume that frames are not mutated after `add`.
- The page components, frame loops, webcam polling, media recording and snapshot are I/O and scheduling, so they are left out.
- The UI components (countdown and count-up views, buttons, modals, previews) are view markup and timers, so they are left out.
- The pictogram asset list and its `Math.random` shuffle are nondeterministic, so they are left out.

## Findings

| source | as written | input that shows it | evidently intended | confidence | as-written member | corrected member |
|---|---|---|---|---|---|---|
| src/models/RingBuffer.ts:51-54 | `clear()` resets `count` and `idx` but leaves the running sums | capacity 1, width 1: add a keypoint with x = 1, clear, add one with x = 2; the average x is 3, not 2 | `clear()` also zeroes the sums, so the next average covers only the frames added since | not executed | RingBuffer.Clear, RingBuffer.ClearLeavesStaleSums | RingBuffer.ClearReset, RingBuffer.ClearResetTracks |
