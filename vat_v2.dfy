/**
  The multi-clip baker of src/vat_v2.ts. The constructor lays the animation
  groups back to back on one frame timeline; `BakeVertexData` sizes a float
  buffer for every frame of every group and fills it, frame by frame, with
  the bone matrices read back from the skeleton; `Rebuild` then turns the
  buffer into a bone texture, builds the material and applies it to the mesh.

  The scene, the skeleton and the animation playback are external: the
  matrices read back after `goToFrame(i)` on group `j` are the input
  `sample(j, i)` (`i` is the frame number `goToFrame` receives, not an
  offset from the group's `from`),
  the skeleton's bone count is `skeletonBones`, and whether the mesh has a
  bound skeleton is `meshHasSkeleton`.
 */
module VatV2 {
  import opened Common
  import opened Numeric
  import opened TypedArray
  import opened Texture
  import opened Layout
  import opened Playback

  /** The instance parameters the mesh is given: frames 0 to 45, no offset, 30 frames per second. */
  const DefaultParams: PlaybackParams := PlaybackParams(0, 45, 0.0, 30.0)

  /** Texture dimensions as `_buildTexture` computes them: `frameCount * max(#groups, 1)` rows. */
  function TextureDimsAsWritten(boneCount: nat, frameCount: int, clipCount: int): (r: TextureDims)
    ensures r.width * Channels == PoseStride(boneCount)
    ensures r.height == 0 <==> frameCount == 0
  {
    MulNonZero(frameCount, Max(clipCount, 1));
    BoneTextureDims(boneCount, frameCount * Max(clipCount, 1))
  }

  /** The material `_buildMaterial` builds: one frame is `1 / (frameCount * max(#groups, 1))` of the texture height. */
  function MaterialAsWritten(frameCount: int, clipCount: int): (r: Material)
    ensures r.singleFrameUVPer.None? <==> frameCount == 0
    ensures r.singleFrameUVPer.Some? ==>
              r.singleFrameUVPer.value * (frameCount * Max(clipCount, 1)) as real == 1.0
  {
    MulNonZero(frameCount, Max(clipCount, 1));
    Material(Reciprocal(frameCount * Max(clipCount, 1)))
  }

  /** A product with a non-zero factor is zero exactly when the other factor is. */
  lemma MulNonZero(a: int, b: int)
    requires b != 0
    ensures a * b == 0 <==> a == 0
  {
  }

  /** Texture dimensions with one row per baked frame. */
  function CorrectedTextureDims(boneCount: nat, clips: seq<Clip>): TextureDims {
    BoneTextureDims(boneCount, TotalFrames(clips))
  }

  /** Every clip is empty, so sampling writes nothing. */
  predicate NoFrames(clips: seq<Clip>) {
    forall k :: 0 <= k < |clips| ==> FrameCount(clips[k]) <= 0
  }

  /** The clips before `j` are all empty, checked one clip at a time. */
  predicate NoFramesBefore(clips: seq<Clip>, j: nat)
    requires j <= |clips|
  {
    j == 0 || (FrameCount(clips[j - 1]) <= 0 && NoFramesBefore(clips, j - 1))
  }

  lemma {:induction false} NoFramesBeforeAll(clips: seq<Clip>, j: nat)
    requires j <= |clips|
    ensures NoFramesBefore(clips, j) <==> forall k :: 0 <= k < j ==> FrameCount(clips[k]) <= 0
  {
    if j > 0 {
      NoFramesBeforeAll(clips, j - 1);
    }
  }

  class Vat {
    const name: string
    /** The animation groups, in bake order. */
    const clips: seq<Clip>
    /** `skeleton.bones.length` */
    const skeletonBones: nat
    /** Whether `mesh.skeleton` is set. */
    const meshHasSkeleton: bool

    var vertexData: array?<real>
    var boneTexture: Option<TextureDims>
    var material: Option<Material>
    /** The VAT material once it has been assigned to the mesh. */
    var meshMaterial: Option<Material>
    /** The mesh's `VATanimation` instanced buffer once registered. */
    var instanceParams: Option<PlaybackParams>

    var animGroupIndex: int
    var frameCount: int
    var boneCount: nat
    var frameIndex: int
    var textureIndex: int
    var frames: int
    var animationRanges: seq<AnimationRange>

    /** Floats per sampled pose. */
    function Stride(): nat
      reads this`boneCount
    {
      PoseStride(boneCount)
    }

    /**
      The conditions under which the sampling loop fills the whole buffer:
      the mesh has its skeleton, the buffer exists and has one block per
      global frame, no clip has a negative frame count, and every sampled
      pose has `Stride()` floats.
     */
    ghost predicate CanBake(sample: PoseSampler)
      reads this`vertexData, this`boneCount
    {
      && meshHasSkeleton
      && vertexData != null
      && NonNegativeClips(clips)
      && Conforming(sample, Stride())
      && vertexData.Length == Stride() * TotalFrames(clips)
    }

    constructor (name: string, clips: seq<Clip>, skeletonBones: nat, meshHasSkeleton: bool)
      ensures this.name == name && this.clips == clips
      ensures this.skeletonBones == skeletonBones && this.meshHasSkeleton == meshHasSkeleton
      ensures vertexData == null && boneTexture == None && material == None
      ensures meshMaterial == None && instanceParams == None
      ensures animGroupIndex == 0 && frameCount == 0 && boneCount == 0
      ensures frameIndex == 0 && textureIndex == 0 && frames == 46
      ensures animationRanges == ClipRanges(clips)
    {
      this.name := name;
      this.clips := clips;
      this.skeletonBones := skeletonBones;
      this.meshHasSkeleton := meshHasSkeleton;
      vertexData := null;
      boneTexture := None;
      material := None;
      meshMaterial := None;
      instanceParams := None;
      animGroupIndex, frameCount, boneCount := 0, 0, 0;
      frameIndex, textureIndex, frames := 0, 0, 46;
      var ranges := [Placeholder];
      var framenum := 0;
      var index := 0;
      while index < |clips|
        invariant 0 <= index <= |clips|
        invariant framenum == ClipBase(clips, index)
        invariant |ranges| == Max(index, 1)
        invariant index == 0 ==> ranges == [Placeholder]
        invariant forall k :: 0 <= k < index ==> ranges[k] == RangeOf(clips, k)
      {
        var c := clips[index];
        var r := AnimationRange(c.name, framenum, Round(framenum as real + (c.to - c.from)));
        ranges := if index < |ranges| then ranges[index := r] else ranges + [r];
        framenum := framenum + Round(c.to - c.from + 1.0);
        index := index + 1;
      }
      animationRanges := ranges;
    }

    /**
      `bakeVertexData`: allocates one block of `Stride()` floats per global
      frame, samples every frame of every group into it and, when sampling
      completes, rebuilds the texture and material.
     */
    method BakeVertexData(sample: PoseSampler) returns (outcome: BakeOutcome)
      modifies this`boneCount, this`vertexData, this`frameIndex, this`textureIndex
      modifies this`animGroupIndex, this`frames
      modifies this`boneTexture, this`material, this`meshMaterial, this`instanceParams
      ensures boneCount == skeletonBones
      ensures TotalFrames(clips) < 0 ==> outcome == Threw(RangeError) && vertexData == old(vertexData)
      ensures TotalFrames(clips) >= 0 ==> frameIndex == textureIndex
      ensures outcome == Resolved ==> textureIndex == 0
      ensures outcome == Resolved && |clips| > 0 ==>
                animGroupIndex == |clips| - 1 && frames == FrameCount(clips[|clips| - 1]) + 1
      ensures TotalFrames(clips) >= 0 ==>
                vertexData != null && fresh(vertexData)
                && vertexData.Length == PoseStride(skeletonBones) * TotalFrames(clips)
      ensures outcome == Resolved ==>
                && boneTexture == Some(TextureDimsAsWritten(boneCount, frameCount, |clips|))
                && material == Some(MaterialAsWritten(frameCount, |clips|))
                && meshMaterial == material && instanceParams == Some(DefaultParams)
      ensures outcome != Resolved ==>
                && boneTexture == old(boneTexture) && material == old(material)
                && meshMaterial == old(meshMaterial) && instanceParams == old(instanceParams)
      ensures meshHasSkeleton && NonNegativeClips(clips) && Conforming(sample, PoseStride(skeletonBones)) ==>
                outcome == Resolved && vertexData != null && vertexData[..] == BakedPoses(clips, sample)
      ensures !meshHasSkeleton && TotalFrames(clips) >= 0 ==>
                && vertexData != null && vertexData[..] == Zeros(vertexData.Length)
                && (outcome == Resolved <==> NoFrames(clips))
                && (outcome != Resolved ==> outcome == Failed(NoSkeleton))
    {
      var frameCounts := 0;
      for k := 0 to |clips|
        invariant frameCounts == ClipBase(clips, k)
      {
        frameCounts := frameCounts + FrameCount(clips[k]);
      }
      boneCount := skeletonBones;
      var length := (boneCount + 1) * 4 * 4 * frameCounts;
      assert length == PoseStride(boneCount) * TotalFrames(clips);
      if NonNegativeClips(clips) {
        ClipBaseMonotone(clips, 0, |clips|);
      }
      if TotalFrames(clips) >= 0 {
        MulMonotone(0, TotalFrames(clips), PoseStride(boneCount));
      } else {
        MulMonotone(TotalFrames(clips), -1, PoseStride(boneCount));
      }
      if length < 0 {
        return Threw(RangeError);
      }
      vertexData := new real[length](_ => 0.0);
      frameIndex, textureIndex := 0, 0;
      outcome := ExecuteAnimationFrame(sample);
      if outcome == Resolved {
        var status := Rebuild();
      }
    }

    /**
      `rebuild`: builds the texture and the material and applies them to the
      mesh; throws "No vertex data" when there is no buffer.
     */
    method Rebuild() returns (status: Status)
      modifies this`boneTexture, this`material, this`meshMaterial, this`instanceParams
      ensures vertexData == null ==>
                && status == Throws(NoVertexData)
                && boneTexture == old(boneTexture) && material == old(material)
                && meshMaterial == old(meshMaterial) && instanceParams == old(instanceParams)
      ensures vertexData != null ==>
                && status == Ok
                && boneTexture == Some(TextureDimsAsWritten(boneCount, frameCount, |clips|))
                && material == Some(MaterialAsWritten(frameCount, |clips|))
                && meshMaterial == material && instanceParams == Some(DefaultParams)
    {
      status := BuildTexture();
      if status != Ok {
        return;
      }
      BuildMaterial();
      status := ApplyBakedVertexDataToMesh();
    }

    /**
      `_buildTexture`: an RGBA texture `(boneCount + 1) * 4` texels wide and
      `frameCount * max(#groups, 1)` rows high; throws "No vertex data" when
      there is no buffer.
     */
    method BuildTexture() returns (status: Status)
      modifies this`boneTexture
      ensures vertexData == null ==> status == Throws(NoVertexData) && boneTexture == old(boneTexture)
      ensures vertexData != null ==>
                status == Ok && boneTexture == Some(TextureDimsAsWritten(boneCount, frameCount, |clips|))
    {
      if vertexData == null {
        return Throws(NoVertexData);
      }
      boneTexture := Some(TextureDimsAsWritten(boneCount, frameCount, |clips|));
      return Ok;
    }

    /** `_buildMaterial`: records the material and its per-frame texture coordinate step. */
    method BuildMaterial()
      modifies this`material
      ensures material == Some(MaterialAsWritten(frameCount, |clips|))
    {
      material := Some(MaterialAsWritten(frameCount, |clips|));
    }

    /**
      `_applyBakedVertexDataToMesh`: throws "No material" before a material
      is built; otherwise registers the default instance parameters and
      assigns the material to the mesh.
     */
    method ApplyBakedVertexDataToMesh() returns (status: Status)
      modifies this`meshMaterial, this`instanceParams
      ensures material == None ==>
                status == Throws(NoMaterial)
                && meshMaterial == old(meshMaterial) && instanceParams == old(instanceParams)
      ensures material != None ==>
                status == Ok && meshMaterial == material && instanceParams == Some(DefaultParams)
    {
      if material == None {
        return Throws(NoMaterial);
      }
      instanceParams := Some(DefaultParams);
      meshMaterial := material;
      return Ok;
    }

    /**
      `_executeAnimationFrame`: for each group `j` and each of its frames
      `i`, samples the pose and writes it at
      `_textureIndex * len + frameCountBase * len`, where `frameCountBase`
      is recomputed as the frame counts of the groups before `j`.
      `_textureIndex` and `_frameIndex` count the frames of the current
      group and return to 0 when they reach its frame count. A missing
      skeleton or buffer throws "No skeleton."; a write out of range throws a
      RangeError; either is caught and logged, so the completion callback
      never runs.
     */
    method ExecuteAnimationFrame(sample: PoseSampler) returns (outcome: BakeOutcome)
      requires frameIndex == 0 && textureIndex == 0
      modifies this`animGroupIndex, this`frameIndex, this`textureIndex, this`frames, vertexData
      ensures frameIndex == textureIndex
      ensures outcome in {Resolved, Failed(NoSkeleton), Failed(RangeError)}
      ensures outcome == Resolved ==> textureIndex == 0
      ensures outcome == Resolved && |clips| > 0 ==>
                animGroupIndex == |clips| - 1 && frames == FrameCount(clips[|clips| - 1]) + 1
      ensures |clips| == 0 ==> animGroupIndex == old(animGroupIndex) && frames == old(frames)
      ensures !meshHasSkeleton || vertexData == null ==>
                && (outcome == Resolved <==> NoFrames(clips))
                && (outcome != Resolved ==> outcome == Failed(NoSkeleton))
                && (vertexData != null ==> unchanged(vertexData))
      ensures CanBake(sample) ==> outcome == Resolved && vertexData[..] == BakedPoses(clips, sample)
    {
      ghost var canBake := CanBake(sample);
      ghost var blocked := !meshHasSkeleton || vertexData == null;
      ghost var orig := if vertexData == null then [] else vertexData[..];
      if canBake {
        WrittenEnds(clips, sample);
      }
      var j := 0;
      while j < |clips|
        invariant 0 <= j <= |clips|
        invariant frameIndex == 0 && textureIndex == 0
        invariant j > 0 ==> animGroupIndex == j - 1 && frames == FrameCount(clips[j - 1]) + 1
        invariant j == 0 ==> animGroupIndex == old(animGroupIndex) && frames == old(frames)
        invariant blocked ==> NoFramesBefore(clips, j) && (vertexData != null ==> unchanged(vertexData))
        invariant canBake ==> |orig| == vertexData.Length && vertexData[..] == PartialBake(clips, sample, j, 0, orig)
      {
        outcome := SampleGroup(sample, j, orig, canBake);
        assert canBake ==> vertexData[..] == PartialBake(clips, sample, j + 1, 0, orig);
        if outcome != Resolved {
          return;
        }
        j := j + 1;
      }
      if canBake {
        PartialBakeAll(clips, sample, Stride(), orig);
      }
      if blocked {
        NoFramesBeforeAll(clips, |clips|);
      }
      return Resolved;
    }

    /**
      The sampling of group `j` in `_executeAnimationFrame`: `frameCountBase`
      sums the frame counts of the groups before it, `_frames` becomes the
      group's frame count plus one, then each frame's pose is written at
      `_textureIndex * len + frameCountBase * len`.
     */
    method SampleGroup(sample: PoseSampler, j: nat, ghost orig: seq<real>, ghost canBake: bool)
      returns (outcome: BakeOutcome)
      requires j < |clips|
      requires frameIndex == 0 && textureIndex == 0
      requires canBake ==> CanBake(sample)
      requires canBake ==> vertexData[..] == PartialBake(clips, sample, j, 0, orig) && |orig| == vertexData.Length
      modifies this`animGroupIndex, this`frames, this`frameIndex, this`textureIndex, vertexData
      ensures animGroupIndex == j && frames == FrameCount(clips[j]) + 1
      ensures frameIndex == textureIndex
      ensures outcome in {Resolved, Failed(NoSkeleton), Failed(RangeError)}
      ensures outcome == Resolved ==> textureIndex == 0
      ensures !meshHasSkeleton || vertexData == null ==>
                && (outcome == Resolved <==> FrameCount(clips[j]) <= 0)
                && (outcome != Resolved ==> outcome == Failed(NoSkeleton))
                && (vertexData != null ==> unchanged(vertexData))
      ensures canBake ==> outcome == Resolved && vertexData[..] == PartialBake(clips, sample, j + 1, 0, orig)
    {
      animGroupIndex := j;
      var frameCountBase := 0;
      for k := 0 to j
        invariant frameCountBase == ClipBase(clips, k)
      {
        frameCountBase := frameCountBase + FrameCount(clips[k]);
      }
      var count := FrameCount(clips[j]);
      frames := count + 1;
      outcome := SampleFrames(sample, j, frameCountBase, count, orig, canBake);
      if canBake {
        WrittenClip(clips, sample, j);
      }
    }

    /**
      The loop over the frames of group `j`: frame `i`'s pose is written at
      `_textureIndex * len + frameCountBase * len`.
     */
    method SampleFrames(sample: PoseSampler, j: nat, frameCountBase: int, count: int,
                        ghost orig: seq<real>, ghost canBake: bool)
      returns (outcome: BakeOutcome)
      requires j < |clips| && frameCountBase == ClipBase(clips, j) && count == FrameCount(clips[j])
      requires frameIndex == 0 && textureIndex == 0
      requires canBake ==> CanBake(sample)
      requires canBake ==> vertexData[..] == PartialBake(clips, sample, j, 0, orig) && |orig| == vertexData.Length
      modifies this`frameIndex, this`textureIndex, vertexData
      ensures frameIndex == textureIndex
      ensures outcome in {Resolved, Failed(NoSkeleton), Failed(RangeError)}
      ensures outcome == Resolved ==> textureIndex == 0
      ensures !meshHasSkeleton || vertexData == null ==>
                && (outcome == Resolved <==> count <= 0)
                && (outcome != Resolved ==> outcome == Failed(NoSkeleton))
                && (vertexData != null ==> unchanged(vertexData))
      ensures canBake ==> outcome == Resolved && vertexData[..] == PartialBake(clips, sample, j, count, orig)
    {
      ghost var stride := Stride();
      var i := 0;
      while i < count
        invariant 0 <= i && (i <= count || i == 0)
        invariant frameIndex == textureIndex
        invariant textureIndex == if i < count then i else 0
        invariant !meshHasSkeleton || vertexData == null ==>
                    i == 0 && (vertexData != null ==> unchanged(vertexData))
        invariant canBake ==> vertexData[..] == PartialBake(clips, sample, j, i, orig)
      {
        if !meshHasSkeleton || vertexData == null {
          return Failed(NoSkeleton);
        }
        var matrices := sample(j, i);
        var offset := textureIndex * |matrices| + frameCountBase * |matrices|;
        if canBake {
          PartialBakeStep(clips, sample, stride, j, i, orig, vertexData[..], offset);
        }
        var ok := Set(vertexData, matrices, offset);
        if !ok {
          return Failed(RangeError);
        }
        frameIndex := frameIndex + 1;
        textureIndex := textureIndex + 1;
        if textureIndex >= count {
          frameIndex := 0;
          textureIndex := 0;
        }
        i := i + 1;
      }
      return Resolved;
    }
  }

  /**
    The sampling loop writes frame `i` of group `j` at
    `i * len + frameCountBase * len`: the block of global frame
    `from + i`, where `from` is the start the constructor recorded for
    group `j`.
   */
  lemma WriteOffsetIsRangeStart(clips: seq<Clip>, j: nat, i: int, len: int)
    requires j < |clips|
    ensures i * len + ClipBase(clips, j) * len == (ClipRanges(clips)[j].from + i) * len
  {
    RangesContiguous(clips);
    MulDistributes(ClipRanges(clips)[j].from, i, len);
  }

  // ---------------------------------------------------------------------
  // The texture's height
  // ---------------------------------------------------------------------

  /**
    As written, `frameCount` keeps its initial 0, so after any bake the bone
    texture has no rows and the per-frame step divides by zero. With groups
    of 10 and 6 frames on a 3-bone skeleton the bake holds 1024 floats while
    the texture is 16 texels wide and 0 rows high.
   */
  lemma TextureAsWrittenMissesBake()
    ensures var clips := [Clip("idle", 0.0, 9.0), Clip("run", 0.0, 5.0)];
            && TotalFrames(clips) == 16
            && PoseStride(3) * TotalFrames(clips) == 1024
            && TextureDimsAsWritten(3, 0, |clips|) == TextureDims(16, 0)
            && MaterialAsWritten(0, |clips|).singleFrameUVPer == None
  {
    var clips := [Clip("idle", 0.0, 9.0), Clip("run", 0.0, 5.0)];
    assert FrameCount(clips[0]) == 10;
    assert FrameCount(clips[1]) == 6;
    assert ClipBase(clips, 1) == 10;
  }

  /**
    With one row per baked frame the texture holds the bake exactly: each
    row is one pose, the texels number the baked floats over four, and one
    frame is `1 / TotalFrames` of the texture height.
   */
  lemma CorrectedTextureHoldsBake(boneCount: nat, clips: seq<Clip>, sample: PoseSampler)
    requires NonNegativeClips(clips) && Conforming(sample, PoseStride(boneCount))
    ensures CorrectedTextureDims(boneCount, clips).width * Channels == PoseStride(boneCount)
    ensures CorrectedTextureDims(boneCount, clips).width * CorrectedTextureDims(boneCount, clips).height * Channels
            == |BakedPoses(clips, sample)|
    ensures TotalFrames(clips) > 0 ==>
              Reciprocal(CorrectedTextureDims(boneCount, clips).height).value
              * CorrectedTextureDims(boneCount, clips).height as real == 1.0
  {
    var n := TotalFrames(clips);
    assert n >= 0 by {
      ClipBaseMonotone(clips, 0, |clips|);
    }
    assert |BakedPoses(clips, sample)| == n * PoseStride(boneCount) by {
      PosesLength(clips, sample, PoseStride(boneCount), |clips|);
    }
    TextureCoversPoses(boneCount, n);
  }

  /**
    A single 45-frame group on a 2-bone skeleton: one range 0..44, 2160
    baked floats, a 12 x 45 texture once corrected, and a 12 x 0 texture as
    written. At 1.5 seconds into a 0..44 cycle at 30 frames per second
    exactly one cycle has elapsed, and both selections give frame 0.
   */
  lemma SingleGroupExample()
    ensures var clips := [Clip("walk", 0.0, 44.0)];
            && ClipRanges(clips) == [AnimationRange("walk", 0, 44)]
            && PoseStride(2) * TotalFrames(clips) == 2160
            && CorrectedTextureDims(2, clips) == TextureDims(12, 45)
            && TextureDimsAsWritten(2, 0, |clips|) == TextureDims(12, 0)
    ensures FrameNumV2(PlaybackParams(0, 44, 0.0, 30.0), 1.5) == Some(0)
    ensures FrameNum(PlaybackParams(0, 44, 0.0, 30.0), 1.5) == Some(0)
  {
    var p := PlaybackParams(0, 44, 0.0, 30.0);
    assert Cycles(p, 1.5, 45) == 1.0;
    assert Fract(1.0) == 0.0;
    var clips := [Clip("walk", 0.0, 44.0)];
    assert FrameCount(clips[0]) == 45;
    assert RangeOf(clips, 0) == AnimationRange("walk", 0, 44);
    assert ClipRanges(clips)[0] == AnimationRange("walk", 0, 44);
  }
}
