# Vertex animation texture baking, modelled in Dafny

This project models the frame-layout bookkeeping of the `VAT` class of
babylonjs-vat in two versions:

- `src/vat_v2.ts` bakes several animation groups. The constructor lays the
  groups back to back on one global frame timeline and records their ranges.
  `bakeVertexData` sizes a float buffer with one block of
  `(boneCount + 1) * 16` floats per global frame. `_executeAnimationFrame`
  fills the buffer in place, group by group and frame by frame, with the
  skeleton's matrices. `rebuild` builds the bone texture and the material
  and applies them to the mesh. The vertex shader then picks a texture row
  from the time and the per-instance `VATanimation` parameters.
- `src/vat.ts` bakes a fixed 53 frames, starting at animation frame 7. A
  recursive step writes one block and schedules the next.

Files, one module each:

| file | module | contents |
|---|---|---|
| `numeric.dfy` | `Numeric` | `Math.round`, GLSL `fract` and `ceil` over exact reals, arithmetic helpers |
| `common.dfy` | `Common` | `Option`, the error kinds, the outcome of a call or a bake |
| `typed_array.dfy` | `TypedArray` | `Float32Array.set` on an `array<real>`, with its RangeError |
| `texture.dfy` | `Texture` | pose stride, bone texture dimensions, the per-frame texture step |
| `layout.dfy` | `Layout` | global frame timeline, group ranges, the buffer the bake should produce |
| `playback.dfy` | `Playback` | the shader's frame selection for both versions |
| `vat_v2.dfy` | `VatV2` | the multi-group `Vat` class, as a class with fields and methods |
| `vat_v1.dfy` | `VatV1` | the fixed-frame `Vat` class, with its recursive step |

Babylon.js (the scene, the skeleton, the animation player) is not modelled.
It enters as inputs:

- a pose sampler gives the matrices read back for a frame. In v2 it is
  indexed by (group, local frame); in v1 by animation frame;
- `skeletonBones` is the skeleton's bone count;
- `meshHasSkeleton` says whether the mesh has a bound skeleton.

The texture, material and instance buffer are recorded as the values the
source hands to Babylon.js: the texture's dimensions, the material's
`singleFrameUVPer` uniform, and the `VATanimation` vector.

How the model is laid out:

- The nested loops of v2's `_executeAnimationFrame` are split into three
  methods. `ExecuteAnimationFrame` is the loop over groups. `SampleGroup`
  is one pass of that loop: it records the group index, sums the frames of
  the earlier groups and sets `_frames`. `SampleFrames` is the loop over
  one group's frames. Together they do what the one source method does.
- v1's bake from a given block is the function `Bake`, one write per
  block. v1's recursive step is proved against it, and the lemmas about
  `Bake` say which frame lands in which block.
- v1's promise executor is the method `Run`, called by `BakeVertexData`
  once the buffer is allocated; its completion callback is the method
  `Complete`.
- The bake outcome is a value:
  - `Resolved`: the completion callback ran.
  - `Stalled`: v1, a step returned without scheduling another.
  - `Failed`: v2, an exception caught and logged inside the sampling loop.
  - `Threw`: an exception nothing catches.
- With no groups, v2's bake has a buffer of length 0 and the texture has
  0 rows.
- v2's shader rounds the frame within the cycle with `ceil`, and that is
  what is modelled as written. The `floor` version appears only as the
  corrected member of the first finding.

## Model

| member | source | states |
|---|---|---|
| Numeric.Round | src/vat_v2.ts:92-94 | `Math.round` gives the integer within half a unit, halves rounding up |
| Numeric.Fract | src/vat_v2.ts:399 | `fract` lies in [0, 1) and differs from its argument by a whole number |
| Numeric.Ceil | src/vat_v2.ts:403 | `ceil` is the least integer at or above its argument |
| Numeric.RoundShift | src/vat_v2.ts:92-94 | rounding commutes with adding a whole number, so a range end is its start plus the rounded length |
| Numeric.FractScaled | src/vat_v2.ts:399-401 | `fract(e / n) * n` is `e` less the whole cycles of `n` frames in it |
| Numeric.CeilFloor | src/vat_v2.ts:403 | `ceil` is `floor`, plus one exactly off the integers |
| Layout.FrameCountNearest | src/vat_v2.ts:107 | a group's frame count `Math.round(to - from + 1)` (`Layout.FrameCount`) is the integer within half a frame of its length |
| Layout.ClipBase | src/vat_v2.ts:151-154 | `frameCountBase` for group `j`, the running sum of the earlier groups' frame counts, is never negative when no group is |
| Layout.RangesContiguous | src/vat_v2.ts:87-95 | one range per group, or the placeholder `{"", 0, 0}` when there are none; each range starts where the frames of the earlier groups end, spans its group's rounded frame count, and starts one past the previous range's end; the last range ends one before the total |
| Layout.ClipBaseMonotone | src/vat_v2.ts:151-154 | with no negative frame counts, a later group starts no earlier |
| Layout.GlobalFrameInRange | src/vat_v2.ts:182-185 | every (group, frame) pair the loop visits has a global frame inside [0, total) |
| Layout.GlobalFrameInjective | src/vat_v2.ts:182-185 | distinct (group, frame) pairs get distinct global frames, so their blocks are disjoint |
| Layout.Locate | src/vat_v2.ts:105-113 | every global frame of the buffer belongs to some (group, frame) pair, so the blocks fill the buffer |
| Layout.LocateGlobalFrame | src/vat_v2.ts:182-185 | locating the global frame of a (group, frame) pair gives the pair back |
| Layout.PosesLength | src/vat_v2.ts:105-113 | poses of `stride` floats for the groups before `j` take `ClipBase(j) * stride` floats, so the whole bake is exactly the allocated length |
| Layout.ClipPoseBlock | src/vat_v2.ts:168-185 | within a group, block `i` holds the pose of frame `i` |
| Layout.PoseBlockInClip | src/vat_v2.ts:182-185 | the block of frame `i` of group `j` sits at `(ClipBase(j) + i) * stride` among the poses of the groups up to `j` |
| Layout.PoseBlock | src/vat_v2.ts:182-185 | in the whole bake, the block of global frame `ClipBase(j) + i` holds exactly the pose of frame `i` of group `j` |
| Layout.NextBlock | src/vat_v2.ts:182-185 | the block written for frame `i` of group `j` starts right after what has been written, at `(ClipBase(j) + i) * stride`, and ends inside the buffer |
| Layout.WrittenClip | src/vat_v2.ts:168-196 | finishing a group's frames leaves written exactly the poses of the groups up to it |
| Layout.WrittenEnds | src/vat_v2.ts:149-200 | nothing is written before the first group, and the whole bake after the last |
| TypedArray.OverwriteContents | src/vat_v2.ts:182-185 | after `set`, the source occupies `[offset, offset + length)` and every other element is unchanged |
| TypedArray.Set | src/vat_v2.ts:182-185 | `set` fails exactly when the offset is negative or the source runs past the end; then nothing changes, otherwise the buffer becomes `Overwrite` of the old one |
| Texture.TextureCoversPoses | src/vat_v2.ts:309-313 | a bone texture `(boneCount + 1) * 4` texels wide holds one pose per row, and `rows` poses in all |
| Texture.RowOfFloat | src/vat_v2.ts:371-379 | reading the buffer as texture rows, float `o` lies in row `g` exactly when it belongs to pose block `g` |
| Texture.Reciprocal | src/vat_v2.ts:353 | the per-frame texture step is JavaScript's `Infinity` (`None`) exactly for 0 rows, since `1 / 0` is `Infinity`, and otherwise times the row count gives 1 |
| Playback.Elapsed | src/vat_v2.ts:395-399 | `(time + offset / speed) * speed` is the frames played plus the offset frames |
| Playback.FramesIntoCycle | src/vat_v2.ts:399-401 | the frames into the current cycle lie in [0, numFrames) |
| Playback.FrameNumV2 | src/vat_v2.ts:387-405 | the selection is defined exactly when the speed and the frame count are non-zero |
| Playback.CycleFrames | src/vat_v2.ts:399-401 | the frames into the current cycle are the elapsed frames less the whole cycles |
| Playback.FrameNumV2Elapsed | src/vat_v2.ts:387-405 | the selected frame is start plus the whole elapsed frames modulo the frame count, plus one whenever the time is off a frame boundary |
| Playback.FrameNumV2Range | src/vat_v2.ts:393-405 | for start <= end the selected frame lies in [start, end + 1] |
| Playback.FrameNumV2Periodic | src/vat_v2.ts:393-405 | advancing the time by `numFrames / speed` leaves the selection unchanged |
| Playback.CycleShift | src/vat_v2.ts:393-399 | advancing the time by `numFrames / speed` leaves the cycle position unchanged |
| Playback.FrameNumV2Overshoots | src/vat_v2.ts:403 | frames 0..44 at 30 fps select frame 45 at 89/60 s, one past the end |
| Playback.FrameNum | src/vat_v2.ts:387-405 | rounding down, the selection is start plus the whole elapsed frames modulo the frame count and stays in [start, end] |
| Playback.FrameNumPeriodic | src/vat_v2.ts:393-405 | the corrected selection is periodic with period `numFrames / speed` |
| Playback.FrameNumV2VersusFrameNum | src/vat_v2.ts:403 | the as-written selection exceeds the corrected one by exactly one off the frame boundaries, and equals it on them |
| Playback.FrameNumV1 | src/vat.ts:251-263 | the v1 selection, with `numFrames = end - start`, is defined exactly when the speed and that count are non-zero |
| Playback.FrameNumV1Range | src/vat.ts:251-263 | for start < end the v1 selection lies in [start, end] |
| Playback.FrameNumV1Periodic | src/vat.ts:251-263 | advancing the time by `numFrames / speed` leaves the v1 selection unchanged |
| VatV2.TextureDimsAsWritten | src/vat_v2.ts:309-313 | the texture as written has rows of one pose and `frameCount * max(#groups, 1)` rows, none exactly when `frameCount` is 0 |
| VatV2.MaterialAsWritten | src/vat_v2.ts:353 | the per-frame step as written is `Infinity` (`None`) exactly when `frameCount` is 0, and otherwise times `frameCount * max(#groups, 1)` gives 1 |
| VatV2.Vat.constructor | src/vat_v2.ts:72-95 | the ranges are built by a running frame counter and equal `ClipRanges`; no buffer, texture or material yet; counters 0, `_frames` 46 |
| VatV2.Vat.BakeVertexData | src/vat_v2.ts:103-128 | the buffer is allocated with `(boneCount + 1) * 16 * Σ round(to - from + 1)` zeros, or a RangeError is thrown when that is negative. `_frameIndex` tracks `_textureIndex`; on completion both are 0, `_animGroupIndex` is the last group and `_frames` its frame count plus one. With a skeleton, no negative group and conforming poses, it ends holding the whole bake and the texture, material and instance parameters are applied. Without a skeleton, the buffer stays zero and the bake completes only when no group has a frame, failing with "No skeleton." otherwise. Nothing is applied unless the bake completes |
| VatV2.Vat.ExecuteAnimationFrame | src/vat_v2.ts:147-248 | `_frameIndex` tracks `_textureIndex`, both 0 on completion; `_animGroupIndex` and `_frames` describe the last group; without a skeleton or buffer the outcome is "No skeleton." exactly when some group has a frame, and nothing is written; on a well-sized buffer every write lands and the buffer becomes the whole bake |
| VatV2.Vat.SampleGroup | src/vat_v2.ts:150-158 | `_animGroupIndex` becomes `j` and `_frames` the group's frame count plus one; on a well-sized buffer the group's poses extend what has been written, and without a skeleton or buffer the group fails exactly when it has a frame |
| VatV2.Vat.SampleFrames | src/vat_v2.ts:168-196 | `_frameIndex` tracks `_textureIndex`, and both are back at 0 when the group completes; without a skeleton or buffer the first frame fails with "No skeleton." and nothing is written; on a well-sized buffer every write lands and the group's poses extend what has been written |
| VatV2.NoFramesBeforeAll | src/vat_v2.ts:168-176 | the groups before `j` are passed one by one without a write exactly when none of them has a frame |
| VatV2.Vat.Rebuild | src/vat_v2.ts:136-142 | throws "No vertex data" and changes nothing without a buffer; otherwise records the texture and material and applies them |
| VatV2.Vat.BuildTexture | src/vat_v2.ts:305-323 | throws "No vertex data" without a buffer; otherwise the texture is `(boneCount + 1) * 4` by `frameCount * max(#groups, 1)` |
| VatV2.Vat.BuildMaterial | src/vat_v2.ts:350-353 | the per-frame texture step is `1 / (frameCount * max(#groups, 1))` |
| VatV2.Vat.ApplyBakedVertexDataToMesh | src/vat_v2.ts:327-340 | throws "No material" without a material; otherwise registers `(0, 45, 0, 30)` and assigns the material to the mesh |
| VatV2.WriteOffsetIsRangeStart | src/vat_v2.ts:151-185 | the offset written for frame `i` of group `j` is the block of global frame `from + i`, `from` being the start the constructor recorded for group `j` |
| Layout.PartialBakeStep | src/vat_v2.ts:182-185 | on a buffer of one block per global frame, each write is in range and extends what has been written by one pose |
| Layout.PartialBakeAll | src/vat_v2.ts:149-200 | once every group is sampled, the buffer is the whole bake |
| VatV2.TextureAsWrittenMissesBake | src/vat_v2.ts:309-313 | groups of 10 and 6 frames on 3 bones bake 1024 floats, while the texture as written is 16 by 0 and its per-frame step is `1 / 0`, `Infinity` (`None`) |
| VatV2.CorrectedTextureHoldsBake | src/vat_v2.ts:309-313 | with `TotalFrames` rows, the texture holds exactly the baked floats, one pose per row, and one frame is `1 / rows` of its height |
| VatV2.SingleGroupExample | src/vat_v2.ts:87-113 | one 45-frame group on 2 bones: range 0..44, 2160 floats, a 12 by 45 texture once corrected, and frame 0 selected at 1.5 s |
| VatV1.FramePosesLength | src/vat.ts:89-91 | `n` poses of `stride` floats take `n * stride` floats |
| VatV1.FramePoseBlock | src/vat.ts:130-143 | block `k` of the bake holds animation frame `first + k`, so blocks are written in ascending order |
| VatV1.Bake | src/vat.ts:130-143 | the chain of steps from block `t` leaves a buffer of the same length |
| VatV1.Step | src/vat.ts:130-133 | one step's `set` keeps the buffer's length |
| VatV1.StepWrites | src/vat.ts:130-133 | a step whose block fits puts the pose in block `t` and keeps every float before and after it |
| VatV1.BakePoses | src/vat.ts:130-143 | on a buffer of `frameCount` blocks, the steps from block `t` keep the first `t` blocks and write the poses of frames `f`, `f + 1`, ... after them, one per block up to the end |
| VatV1.BakeFromStart | src/vat.ts:94-98 | started at block 0, the steps fill the buffer with the poses of `frameCount` frames from the starting frame, in order |
| VatV1.BufferLength | src/vat.ts:89-91 | the allocated `(boneCount + 1) * 4 * 4 * 53` floats are 53 poses and never negative |
| VatV1.TextureHoldsBake | src/vat.ts:189-193 | the texture for 53 frames holds the bake exactly, one pose per row |
| VatV1.DefaultParamsDegenerate | src/vat.ts:208 | the instance parameters `(0, 0, 0, 30)` give the v1 shader a frame count of 0, so its selection is undefined |
| VatV1.Vat.constructor | src/vat.ts:56-76 | no buffer, texture or material; counters 0 |
| VatV1.Vat.BakeVertexData | src/vat.ts:77-110 | `frameCount` is 53 and the buffer holds `(boneCount + 1) * 16 * 53` zeros. `_frameIndex` stays `_textureIndex + 7`. Without a skeleton the bake stalls with nothing written. With conforming poses it completes after 53 steps holding frames 7 to 59 in order, and the texture, material and parameters are applied |
| VatV1.Vat.Run | src/vat.ts:93-107 | the promise's executor starts at animation frame 7 and block 0 and keeps `_frameIndex` at `_textureIndex + 7`. Without a skeleton it stalls with the buffer untouched. With conforming poses on a buffer of `frameCount` blocks it completes with `_textureIndex == frameCount` and the buffer holding the poses of `frameCount` frames from frame 7, in order; on completion the texture, material and parameters are applied, and otherwise none of them changes |
| VatV1.Vat.Complete | src/vat.ts:98-106 | the completion callback builds a texture of `frameCount` rows and the material `1 / frameCount`, and applies them with `(0, 0, 0, 30)` |
| VatV1.Vat.ExecuteAnimationFrame | src/vat.ts:115-146 | each step keeps `_frameIndex - _textureIndex`. Without a skeleton it returns with nothing changed. Otherwise it completes when `_textureIndex` reaches `frameCount`. On completion with a buffer, its content is the chain of steps `Bake` from the starting block and frame. With conforming poses on a buffer of `frameCount` blocks and a starting block inside it, the steps complete |
| VatV1.Vat.BuildTexture | src/vat.ts:185-201 | throws "No vertex data" without a buffer; otherwise the texture is `(boneCount + 1) * 4` by `frameCount` |
| VatV1.Vat.BuildMaterial | src/vat.ts:217-220 | the per-frame texture step is `1 / frameCount` |
| VatV1.Vat.ApplyBakedVertexDataToMesh | src/vat.ts:205-212 | registers `(0, 0, 0, 30)` and assigns the material, unchecked, to the mesh |

## Left out

- The scenes under `src/scenes/`. They load meshes, place cameras and lights, and create instances, with no logic of their own.
- Babylon.js calls. These are `scene.render`, `beginAnimation`, `play`/`goToFrame`/`stop`, `getTransformMatrices`, `returnToRest`, `RawTexture.CreateRGBATexture`, `CustomMaterial` and `VertexAnimationBaker`. They are foreign code: the sampler and the two skeleton inputs stand for them, and the texture and material are recorded by their dimensions and uniform.
- The Promise, `async`/`await`, the 30 ms `setTimeout` and the callback scheduling. Each bake is modelled as a sequential run. v1's steps are a recursive method call. v1's `Stalled` means the promise never settles.
- Float32 rounding of stored values, the GLSL matrix read-back (`readMatrixFromRawSampler1`) and skinning. The buffer holds exact reals, and the shader's arithmetic is over exact reals.
- Fractional start and end frames in `VATanimation`. They are whole numbers here.
- The base64 serialisation and loading, and their JSON variants. They rely on Node's `Buffer`, and `loadBakedJSON`/`LoadBakedJSON` call themselves without end.
- The download of the serialised bake through a DOM anchor, and all `console.log` output.
- `updateTime`, which only forwards the time to a shader uniform.
- v1's `onBindObservable` handler, which advances a time counter and the instance buffer on every draw.
- v2's reuse of the mesh's diffuse texture in `_buildMaterial`.
- v1's `animationLengths`, which is computed and never used. The animation groups are not modelled in v1 for that reason.
- Layout.FrameCount: the group bounds and `to - from + 1` are exact reals, while the source computes them in doubles before `Math.round`. Near a half, double rounding can change a group's count (from 0, to 0.49999999999999994 gives 1.5 in doubles, so 2 frames where the model has 1).
- Layout.RangesContiguous: for the same reason, an end `Math.round(framenum + (to - from))` computed in doubles can differ from start plus count less one, which the model proves for exact reals.
- The maximum length of a `Float32Array`. Only a negative length raises the RangeError here.
- VatV2.Vat.ExecuteAnimationFrame: states the buffer's final content only for a buffer of one block per global frame, no negative group and poses of `(boneCount + 1) * 16` floats. Otherwise it states only the outcome kinds and the counters.
- VatV2.Vat.ExecuteAnimationFrame: when the mesh has no skeleton and no group has a frame, the model assumes `beginAnimation` on the missing skeleton still runs the completion callback. That call is foreign code.
- VatV2.Vat.BakeVertexData: with a skeleton but a negative group or mis-sized poses, it states only that nothing is applied unless the bake completes.
- VatV1.Vat.ExecuteAnimationFrame: promises completion only for poses of `(boneCount + 1) * 16` floats, a buffer of `frameCount` blocks and a starting block inside it; otherwise it states only that the outcome is a completion or an uncaught RangeError.
- VatV1.Vat.Run: like `BakeVertexData`, with mis-sized poses it states only that the outcome is a completion or an uncaught RangeError.
- VatV1.Vat.BakeVertexData: with a skeleton but mis-sized poses, it states only that the outcome is a completion or an uncaught RangeError, through the step it calls.

## Findings

| source | as written | input that shows it | evidently intended | confidence | as-written member | corrected member |
|---|---|---|---|---|---|---|
| src/vat_v2.ts:403 | the frame within the cycle is rounded up with `ceil`, so off a frame boundary the selection is one frame ahead (frame `k + 1` while frame `k` is due) and can reach `end + 1`, a row past the group | `VATanimation = (0, 44, 0, 30)` at time 89/60 s selects frame 45 | round down, so the selection stays in [start, end] | not executed | Playback.FrameNumV2Overshoots | Playback.FrameNum |
| src/vat_v2.ts:313 | the texture height is `frameCount * max(#groups, 1)`, but `frameCount` keeps its initial 0 (line 41), so the texture has no rows and `singleFrameUVPer` divides by zero | groups of 10 and 6 frames on 3 bones: 1024 floats baked, texture 16 by 0 | one row per baked frame, `TotalFrames` rows | not executed | VatV2.TextureAsWrittenMissesBake | VatV2.CorrectedTextureHoldsBake |
