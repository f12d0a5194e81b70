/**
  The bone texture layout: an RGBA float texture whose texels each hold one
  matrix column (four floats), so that one row of `(boneCount + 1) * 4`
  texels holds the `(boneCount + 1)` 4x4 matrices of one pose.
 */
module Texture {
  import opened Common

  /** Floats per texel (RGBA). */
  const Channels: int := 4

  /** Floats per sampled pose: `(boneCount + 1)` matrices of 16 floats. */
  function PoseStride(boneCount: nat): nat {
    (boneCount + 1) * 16
  }

  datatype TextureDims = TextureDims(width: int, height: int)

  /** The dimensions `RawTexture.CreateRGBATexture` is given for a bone texture of `rows` rows. */
  function BoneTextureDims(boneCount: int, rows: int): TextureDims {
    TextureDims((boneCount + 1) * 4, rows)
  }

  /** The material uniforms the baker sets; `singleFrameUVPer` is None where it divides by zero. */
  datatype Material = Material(singleFrameUVPer: Option<real>)

  /** `1 / n` as the shader uniform receives it; None stands for the infinity of a division by zero. */
  function Reciprocal(n: int): (r: Option<real>)
    ensures r.None? <==> n == 0
    ensures r.Some? ==> r.value * n as real == 1.0
  {
    if n == 0 then None else Some(1.0 / n as real)
  }

  /**
    A bone texture with one row per pose holds exactly the floats of that
    many poses, and each of its rows holds exactly one pose.
   */
  lemma TextureCoversPoses(boneCount: nat, rows: nat)
    ensures BoneTextureDims(boneCount, rows).width * Channels == PoseStride(boneCount)
    ensures BoneTextureDims(boneCount, rows).width * BoneTextureDims(boneCount, rows).height * Channels
            == PoseStride(boneCount) * rows
  {
    var w := (boneCount + 1) * 4;
    assert w * Channels == PoseStride(boneCount);
    calc {
      w * rows * Channels;
      w * Channels * rows;
      PoseStride(boneCount) * rows;
    }
  }

  /**
    Reading the buffer as texture rows: the float at position `o` of the
    buffer lies in row `g` exactly when it belongs to the pose block `g`.
   */
  lemma RowOfFloat(boneCount: nat, o: nat, g: nat)
    ensures o / (BoneTextureDims(boneCount, 1).width * Channels) == g
            <==> g * PoseStride(boneCount) <= o < (g + 1) * PoseStride(boneCount)
  {
    var s := PoseStride(boneCount);
    assert BoneTextureDims(boneCount, 1).width * Channels == s;
    var q := o / s;
    assert q * s <= o < q * s + s;
    assert (q + 1) * s == q * s + s;
    assert (g + 1) * s == g * s + s;
    if g * s <= o < (g + 1) * s {
      CancelFactor(g, q + 1, s);
      CancelFactor(q, g + 1, s);
    }
  }

  /** A strict inequality between multiples of a positive factor holds of the multiplicands. */
  lemma CancelFactor(a: int, b: int, s: int)
    requires s > 0 && a * s < b * s
    ensures a < b
  {
  }
}
