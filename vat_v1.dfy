/**
  The single-clip baker of src/vat.ts. `BakeVertexData` sizes a buffer for a
  hard-coded 53 frames, then samples animation frames 7, 8, ... one step at
  a time: each step writes the pose at block `_textureIndex` and schedules
  the next step, until 53 blocks are written; the completion callback then
  builds the texture and the material and applies them to the mesh.

  As in the multi-clip baker, the scene and the skeleton are external: the
  matrices read back for animation frame `f` are the input `sample(f)`.
 */
module VatV1 {
  import opened Common
  import opened Numeric
  import opened TypedArray
  import opened Texture
  import opened Playback

  /** The hard-coded `frameCount`. */
  const BakedFrames: int := 53
  /** The animation frame the bake starts from. */
  const FirstFrame: int := 7
  /** The instance parameters the mesh is given: start 0, end 0, no offset, 30 frames per second. */
  const DefaultParams: PlaybackParams := PlaybackParams(0, 0, 0.0, 30.0)

  /** The pose sampler: the transform matrices read back at animation frame `f`. */
  type FrameSampler = int -> seq<real>

  /** Every sampled pose has `stride` floats. */
  ghost predicate ConformingFrames(sample: FrameSampler, stride: int) {
    forall f :: |sample(f)| == stride
  }

  /** The poses of animation frames `first`, `first + 1`, ..., `first + n - 1`, one after the other. */
  function FramePoses(sample: FrameSampler, first: int, n: int): seq<real>
    decreases n
  {
    if n <= 0 then [] else sample(first) + FramePoses(sample, first + 1, n - 1)
  }

  lemma {:induction false} FramePosesLength(sample: FrameSampler, stride: nat, first: int, n: nat)
    requires ConformingFrames(sample, stride)
    ensures |FramePoses(sample, first, n)| == n * stride
    decreases n
  {
    if n > 0 {
      FramePosesLength(sample, stride, first + 1, n - 1);
      MulDistributes(n - 1, 1, stride);
    }
  }

  /** Block `k` of the poses of `n` frames from `first` holds animation frame `first + k`. */
  lemma {:induction false} FramePoseBlock(sample: FrameSampler, stride: nat, first: int, n: nat, k: nat)
    requires ConformingFrames(sample, stride) && k < n
    ensures |FramePoses(sample, first, n)| == n * stride
    ensures (k + 1) * stride <= n * stride
    ensures FramePoses(sample, first, n)[k * stride..(k + 1) * stride] == sample(first + k)
    decreases n
  {
    FramePosesLength(sample, stride, first, n);
    FramePosesLength(sample, stride, first + 1, n - 1);
    MulMonotone(k + 1, n, stride);
    MulDistributes(k, 1, stride);
    var rest := FramePoses(sample, first + 1, n - 1);
    assert FramePoses(sample, first, n) == sample(first) + rest;
    if k > 0 {
      FramePoseBlock(sample, stride, first + 1, n - 1, k - 1);
      MulDistributes(k - 1, 1, stride);
      assert (sample(first) + rest)[k * stride..(k + 1) * stride] == rest[(k - 1) * stride..k * stride];
    } else {
      assert (sample(first) + rest)[0..stride] == sample(first);
    }
  }

  /**
    The buffer after the steps from block `t` on: each step writes the pose
    of animation frame `f` at `t * |pose|`; steps follow while
    `t + 1 < frameCount`. A step whose block does not fit throws a
    RangeError in the source; `Step` then leaves the buffer as it is only
    to stay total, and a bake that completes never takes that branch.
   */
  function Bake(buffer: seq<real>, sample: FrameSampler, t: int, f: int, frameCount: int): (r: seq<real>)
    ensures |r| == |buffer|
    decreases frameCount - t
  {
    var next := Step(buffer, sample(f), t);
    if t + 1 < frameCount then Bake(next, sample, t + 1, f + 1, frameCount) else next
  }

  /**
    One write of `pose` at block `t`. When the block does not fit the source
    throws; the unchanged buffer returned then only keeps `Step` total.
   */
  function Step(buffer: seq<real>, pose: seq<real>, t: int): (r: seq<real>)
    ensures |r| == |buffer|
  {
    if 0 <= t * |pose| && t * |pose| + |pose| <= |buffer| then Overwrite(buffer, pose, t * |pose|) else buffer
  }

  /** A step whose block fits puts `pose` in block `t` and keeps the rest of the buffer. */
  lemma StepWrites(buffer: seq<real>, pose: seq<real>, t: int)
    requires 0 <= t * |pose| && t * |pose| + |pose| <= |buffer|
    ensures Step(buffer, pose, t)[..t * |pose|] == buffer[..t * |pose|]
    ensures Step(buffer, pose, t)[t * |pose|..t * |pose| + |pose|] == pose
    ensures Step(buffer, pose, t)[t * |pose| + |pose|..] == buffer[t * |pose| + |pose|..]
  {
  }

  /** Block `t < frameCount` of a buffer of `frameCount` blocks lies inside it. */
  lemma BlockInBounds(stride: nat, t: nat, frameCount: int)
    requires t < frameCount
    ensures 0 <= t * stride && t * stride + stride <= stride * frameCount
  {
    MulMonotone(0, t, stride);
    MulMonotone(t + 1, frameCount, stride);
  }

  /**
    On a buffer of `frameCount` blocks, the steps from block `t` keep the
    first `t` blocks and write the poses of frames `f`, `f + 1`, ... after them.
   */
  lemma {:induction false} BakePoses(buffer: seq<real>, sample: FrameSampler, stride: nat, t: nat, f: int, frameCount: int)
    requires ConformingFrames(sample, stride) && |buffer| == stride * frameCount && t < frameCount
    ensures t * stride <= |buffer|
    ensures Bake(buffer, sample, t, f, frameCount) == buffer[..t * stride] + FramePoses(sample, f, frameCount - t)
    decreases frameCount - t
  {
    var o := t * stride;
    var next := Step(buffer, sample(f), t);
    var rest := FramePoses(sample, f + 1, frameCount - t - 1);
    assert 0 <= o && o + stride <= |buffer| && (t + 1 == frameCount ==> o + stride == |buffer|) by {
      BlockInBounds(stride, t, frameCount);
      MulDistributes(t, 1, stride);
      if t + 1 < frameCount {
        BlockInBounds(stride, t + 1, frameCount);
      }
    }
    assert next == Overwrite(buffer, sample(f), o);
    assert FramePoses(sample, f, frameCount - t) == sample(f) + rest;
    OverwritePrefix(buffer, sample(f), o);
    if t + 1 < frameCount {
      BakePoses(next, sample, stride, t + 1, f + 1, frameCount);
      assert (t + 1) * stride == o + stride by {
        MulDistributes(t, 1, stride);
      }
    } else {
      assert rest == [];
      assert next == next[..o + stride];
    }
  }

  /** Writing `source` at `offset` leaves the buffer up to the end of the copy as `target[..offset] + source`. */
  lemma OverwritePrefix(target: seq<real>, source: seq<real>, offset: nat)
    requires offset + |source| <= |target|
    ensures Overwrite(target, source, offset)[..offset + |source|] == target[..offset] + source
  {
  }

  /** On a buffer of `frameCount` blocks, the steps from block 0 write the poses of `frameCount` frames from `f`. */
  lemma BakeFromStart(buffer: seq<real>, sample: FrameSampler, stride: nat, f: int, frameCount: int)
    requires ConformingFrames(sample, stride) && |buffer| == stride * frameCount && 0 < frameCount
    ensures Bake(buffer, sample, 0, f, frameCount) == FramePoses(sample, f, frameCount)
  {
    BakePoses(buffer, sample, stride, 0, f, frameCount);
    assert buffer[..0 * stride] == [];
  }

  /** The buffer `BakeVertexData` allocates holds 53 poses. */
  lemma BufferLength(boneCount: nat)
    ensures (boneCount + 1) * 4 * 4 * BakedFrames == PoseStride(boneCount) * BakedFrames >= 0
  {
    MulMonotone(0, PoseStride(boneCount), BakedFrames);
  }

  /**
    The texture `BuildTexture` builds for a bake of 53 frames holds it
    exactly, one pose per row.
   */
  lemma TextureHoldsBake(boneCount: nat)
    ensures BoneTextureDims(boneCount, BakedFrames).width * Channels == PoseStride(boneCount)
    ensures BoneTextureDims(boneCount, BakedFrames).width * BoneTextureDims(boneCount, BakedFrames).height * Channels
            == PoseStride(boneCount) * BakedFrames
  {
    TextureCoversPoses(boneCount, BakedFrames);
  }

  /**
    With the instance parameters the mesh is given, start and end coincide,
    so the shader's frame count is 0 and its division by it is undefined.
   */
  lemma DefaultParamsDegenerate(time: real)
    ensures NumFramesV1(DefaultParams) == 0
    ensures FrameNumV1(DefaultParams, time) == None
  {
  }

  class Vat {
    const name: string
    /** `skeleton.bones.length` */
    const skeletonBones: nat
    /** Whether `mesh.skeleton` is set. */
    const meshHasSkeleton: bool

    var vertexData: array?<real>
    var boneTexture: Option<TextureDims>
    var material: Option<Material>
    /** The VAT material once it has been assigned to the mesh. */
    var meshMaterial: Option<Material>
    /** The mesh's `VATanimation` instanced buffer once registered. */
    var instanceParams: Option<PlaybackParams>

    var frameCount: int
    var boneCount: nat
    var frameIndex: int
    var textureIndex: int

    /** Floats per sampled pose. */
    function Stride(): nat
      reads this`boneCount
    {
      PoseStride(boneCount)
    }

    constructor (name: string, skeletonBones: nat, meshHasSkeleton: bool)
      ensures this.name == name && this.skeletonBones == skeletonBones
      ensures this.meshHasSkeleton == meshHasSkeleton
      ensures vertexData == null && boneTexture == None && material == None
      ensures meshMaterial == None && instanceParams == None
      ensures frameCount == 0 && boneCount == 0 && frameIndex == 0 && textureIndex == 0
    {
      this.name := name;
      this.skeletonBones := skeletonBones;
      this.meshHasSkeleton := meshHasSkeleton;
      vertexData := null;
      boneTexture := None;
      material := None;
      meshMaterial := None;
      instanceParams := None;
      frameCount, boneCount := 0, 0;
      frameIndex, textureIndex := 0, 0;
    }

    /**
      `BakeVertexData`: 53 blocks of `Stride()` floats, filled with the poses
      of animation frames 7 to 59; the completion callback builds the
      texture and the material and applies them. Without a skeleton on the
      mesh the first step returns and the bake never completes.
     */
    method BakeVertexData(sample: FrameSampler) returns (outcome: BakeOutcome)
      modifies this`frameCount, this`boneCount, this`vertexData, this`frameIndex, this`textureIndex
      modifies this`boneTexture, this`material, this`meshMaterial, this`instanceParams
      ensures frameCount == BakedFrames && boneCount == skeletonBones
      ensures vertexData != null && fresh(vertexData)
      ensures vertexData.Length == PoseStride(skeletonBones) * BakedFrames
      ensures frameIndex - textureIndex == FirstFrame
      ensures meshHasSkeleton ==> outcome == Resolved || outcome == Threw(RangeError)
      ensures !meshHasSkeleton ==>
                && outcome == Stalled && textureIndex == 0
                && vertexData[..] == Zeros(vertexData.Length)
      ensures outcome == Resolved ==>
                && boneTexture == Some(BoneTextureDims(boneCount, BakedFrames))
                && material == Some(Material(Reciprocal(BakedFrames)))
                && meshMaterial == material && instanceParams == Some(DefaultParams)
      ensures outcome != Resolved ==>
                && boneTexture == old(boneTexture) && material == old(material)
                && meshMaterial == old(meshMaterial) && instanceParams == old(instanceParams)
      ensures meshHasSkeleton && ConformingFrames(sample, PoseStride(skeletonBones)) ==>
                && outcome == Resolved && textureIndex == BakedFrames
                && vertexData[..] == FramePoses(sample, FirstFrame, frameCount)
    {
      frameCount := 53;
      boneCount := skeletonBones;
      var length := (boneCount + 1) * 4 * 4 * frameCount;
      BufferLength(boneCount);
      vertexData := new real[length](_ => 0.0);
      outcome := Run(sample);
    }

    /**
      The promise's executor in `BakeVertexData`: the counters start at
      animation frame 7 and block 0, the steps run, and the completion
      callback follows when they complete.
     */
    method Run(sample: FrameSampler) returns (outcome: BakeOutcome)
      requires vertexData != null && 0 < frameCount && vertexData.Length == Stride() * frameCount
      modifies this`frameIndex, this`textureIndex, vertexData
      modifies this`boneTexture, this`material, this`meshMaterial, this`instanceParams
      ensures frameIndex - textureIndex == FirstFrame
      ensures meshHasSkeleton ==> outcome == Resolved || outcome == Threw(RangeError)
      ensures !meshHasSkeleton ==> outcome == Stalled && textureIndex == 0 && unchanged(vertexData)
      ensures outcome == Resolved ==>
                && boneTexture == Some(BoneTextureDims(boneCount, frameCount))
                && material == Some(Material(Reciprocal(frameCount)))
                && meshMaterial == material && instanceParams == Some(DefaultParams)
      ensures outcome != Resolved ==>
                && boneTexture == old(boneTexture) && material == old(material)
                && meshMaterial == old(meshMaterial) && instanceParams == old(instanceParams)
      ensures meshHasSkeleton && ConformingFrames(sample, Stride()) ==>
                && outcome == Resolved && textureIndex == frameCount
                && vertexData[..] == FramePoses(sample, FirstFrame, frameCount)
    {
      frameIndex := 7;
      textureIndex := 0;
      ghost var zeros, f0 := vertexData[..], frameIndex;
      outcome := ExecuteAnimationFrame(sample);
      if meshHasSkeleton && ConformingFrames(sample, Stride()) {
        BakeFromStart(zeros, sample, Stride(), f0, frameCount);
      }
      if outcome == Resolved {
        Complete();
      }
    }

    /**
      The completion callback of `BakeVertexData`: once the frames are
      written, the texture and the material are built and applied.
     */
    method Complete()
      requires vertexData != null
      modifies this`boneTexture, this`material, this`meshMaterial, this`instanceParams
      ensures boneTexture == Some(BoneTextureDims(boneCount, frameCount))
      ensures material == Some(Material(Reciprocal(frameCount)))
      ensures meshMaterial == material && instanceParams == Some(DefaultParams)
    {
      var status := BuildTexture();
      BuildMaterial();
      ApplyBakedVertexDataToMesh();
    }

    /**
      `_executeAnimationFrame`: one step samples animation frame
      `_frameIndex` and writes it at `_textureIndex * len` (nothing is
      written when there is no buffer); both counters then advance, and the
      next step follows while `_textureIndex < frameCount`, the completion
      callback otherwise. A write out of range raises a RangeError that
      nothing catches; a mesh without a skeleton ends the step silently.
     */
    method ExecuteAnimationFrame(sample: FrameSampler) returns (outcome: BakeOutcome)
      modifies this`frameIndex, this`textureIndex, vertexData
      decreases frameCount - textureIndex
      ensures frameIndex - textureIndex == old(frameIndex - textureIndex)
      ensures !meshHasSkeleton ==>
                && outcome == Stalled
                && frameIndex == old(frameIndex) && textureIndex == old(textureIndex)
                && (vertexData != null ==> unchanged(vertexData))
      ensures meshHasSkeleton ==> outcome == Resolved || outcome == Threw(RangeError)
      ensures meshHasSkeleton && vertexData == null ==> outcome == Resolved
      ensures outcome == Resolved ==> textureIndex == Max(old(textureIndex) + 1, frameCount)
      ensures meshHasSkeleton && vertexData != null && outcome == Resolved ==>
                vertexData[..] == Bake(old(vertexData[..]), sample, old(textureIndex), old(frameIndex), frameCount)
      ensures meshHasSkeleton && vertexData != null && ConformingFrames(sample, Stride())
              && vertexData.Length == Stride() * frameCount && 0 <= old(textureIndex) < frameCount ==>
                outcome == Resolved
    {
      if !meshHasSkeleton {
        return Stalled;
      }
      var matrices := sample(frameIndex);
      if vertexData != null {
        if ConformingFrames(sample, Stride()) && vertexData.Length == Stride() * frameCount && 0 <= textureIndex < frameCount {
          BlockInBounds(Stride(), textureIndex, frameCount);
        }
        var ok := Set(vertexData, matrices, textureIndex * |matrices|);
        if !ok {
          return Threw(RangeError);
        }
      }
      frameIndex := frameIndex + 1;
      textureIndex := textureIndex + 1;
      if textureIndex < frameCount {
        outcome := ExecuteAnimationFrame(sample);
      } else {
        outcome := Resolved;
      }
    }

    /**
      `BuildTexture`: an RGBA texture `(boneCount + 1) * 4` texels wide and
      `frameCount` rows high; throws "No vertex data" when there is no buffer.
     */
    method BuildTexture() returns (status: Status)
      modifies this`boneTexture
      ensures vertexData == null ==> status == Throws(NoVertexData) && boneTexture == old(boneTexture)
      ensures vertexData != null ==> status == Ok && boneTexture == Some(BoneTextureDims(boneCount, frameCount))
    {
      if vertexData == null {
        return Throws(NoVertexData);
      }
      boneTexture := Some(BoneTextureDims(boneCount, frameCount));
      return Ok;
    }

    /** `BuildMaterial`: records the material; one frame is `1 / frameCount` of the texture height. */
    method BuildMaterial()
      modifies this`material
      ensures material == Some(Material(Reciprocal(frameCount)))
    {
      material := Some(Material(Reciprocal(frameCount)));
    }

    /**
      `ApplyBakedVertexDataToMesh`: registers the instance parameters and
      assigns the material, whatever it is, to the mesh.
     */
    method ApplyBakedVertexDataToMesh()
      modifies this`meshMaterial, this`instanceParams
      ensures meshMaterial == material && instanceParams == Some(DefaultParams)
    {
      instanceParams := Some(DefaultParams);
      meshMaterial := material;
    }
  }
}
