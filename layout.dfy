/**
  The global frame timeline of a multi-clip bake (src/vat_v2.ts): the clips
  are laid back to back, clip `j` occupying the global frames from
  `ClipBase(clips, j)` on, and the baked buffer holds one block of
  `stride` floats per global frame, in clip order and then frame order.
 */
module Layout {
  import opened Numeric
  import opened TypedArray

  /** An animation group as the baker reads it: its name and its frame range. */
  datatype Clip = Clip(name: string, from: real, to: real)

  /** An entry of the baker's `_animationRanges`. */
  datatype AnimationRange = AnimationRange(name: string, from: int, to: int)

  /** The entry `_animationRanges` starts with, kept when there are no clips. */
  const Placeholder: AnimationRange := AnimationRange("", 0, 0)

  /** Frames baked for a clip: `Math.round(to - from + 1)`. */
  function FrameCount(c: Clip): int {
    Round(c.to - c.from + 1.0)
  }

  /** A clip's frame count is the whole number within half a frame of its length `to - from + 1`. */
  lemma FrameCountNearest(c: Clip)
    ensures FrameCount(c) as real - 0.5 <= c.to - c.from + 1.0 < FrameCount(c) as real + 0.5
  {
  }

  /** First global frame of clip `j`: the frame counts of the clips before it, summed. */
  function ClipBase(clips: seq<Clip>, j: nat): (r: int)
    requires j <= |clips|
    ensures NonNegativeClips(clips) ==> r >= 0
  {
    if j == 0 then 0 else ClipBase(clips, j - 1) + FrameCount(clips[j - 1])
  }

  /** Frames baked in all: the sum of every clip's frame count. */
  function TotalFrames(clips: seq<Clip>): int {
    ClipBase(clips, |clips|)
  }

  /** No clip has a negative frame count (its `to` is not below its `from` by a frame or more). */
  predicate NonNegativeClips(clips: seq<Clip>) {
    forall k :: 0 <= k < |clips| ==> FrameCount(clips[k]) >= 0
  }

  /** Global frame of local frame `i` of clip `j`. */
  function GlobalFrame(clips: seq<Clip>, j: nat, i: int): int
    requires j < |clips|
  {
    ClipBase(clips, j) + i
  }

  // ---------------------------------------------------------------------
  // The ranges the constructor records
  // ---------------------------------------------------------------------

  /** The range the constructor records for clip `k`. */
  function RangeOf(clips: seq<Clip>, k: nat): AnimationRange
    requires k < |clips|
  {
    AnimationRange(clips[k].name, ClipBase(clips, k),
                   Round(ClipBase(clips, k) as real + (clips[k].to - clips[k].from)))
  }

  /** `_animationRanges` after construction: one range per clip, or the placeholder alone. */
  function ClipRanges(clips: seq<Clip>): seq<AnimationRange> {
    if |clips| == 0 then [Placeholder]
    else seq(|clips|, k requires 0 <= k < |clips| => RangeOf(clips, k))
  }

  /**
    The recorded ranges tile the timeline: the first starts at frame 0, each
    spans exactly its clip's frame count, each starts one past the end of
    the one before, and the last ends one before the total frame count.
   */
  lemma RangesContiguous(clips: seq<Clip>)
    ensures |ClipRanges(clips)| == Max(|clips|, 1)
    ensures |clips| == 0 ==> ClipRanges(clips) == [Placeholder]
    ensures |clips| > 0 ==> ClipRanges(clips)[0].from == 0
    ensures forall k :: 0 <= k < |clips| ==>
              ClipRanges(clips)[k].name == clips[k].name
              && ClipRanges(clips)[k].from == ClipBase(clips, k)
              && ClipRanges(clips)[k].to == ClipRanges(clips)[k].from + FrameCount(clips[k]) - 1
    ensures forall k :: 0 < k < |clips| ==> ClipRanges(clips)[k].from == ClipRanges(clips)[k - 1].to + 1
    ensures |clips| > 0 ==> ClipRanges(clips)[|clips| - 1].to + 1 == TotalFrames(clips)
  {
    var r := ClipRanges(clips);
    forall k | 0 <= k < |clips|
      ensures r[k] == RangeOf(clips, k)
      ensures r[k].to == ClipBase(clips, k) + FrameCount(clips[k]) - 1
    {
      RangeSpan(clips, k);
    }
    forall k | 0 < k < |clips|
      ensures r[k].from == r[k - 1].to + 1
    {
      assert r[k].from == ClipBase(clips, k - 1) + FrameCount(clips[k - 1]);
    }
  }

  /** The range recorded for clip `k` ends `FrameCount - 1` frames after it starts. */
  lemma RangeSpan(clips: seq<Clip>, k: nat)
    requires k < |clips|
    ensures RangeOf(clips, k).to == ClipBase(clips, k) + FrameCount(clips[k]) - 1
  {
    var d := clips[k].to - clips[k].from;
    RoundShift(d, ClipBase(clips, k));
    RoundShift(d, 1);
  }

  // ---------------------------------------------------------------------
  // Global frames: every (clip, frame) pair gets its own, and all are used
  // ---------------------------------------------------------------------

  /** Later clips start no earlier. */
  lemma {:induction false} ClipBaseMonotone(clips: seq<Clip>, j: nat, k: nat)
    requires NonNegativeClips(clips) && j <= k <= |clips|
    ensures ClipBase(clips, j) <= ClipBase(clips, k)
  {
    if j < k {
      ClipBaseMonotone(clips, j, k - 1);
    }
  }

  /** Every frame of every clip has a global frame in [0, TotalFrames). */
  lemma GlobalFrameInRange(clips: seq<Clip>, j: nat, i: int)
    requires NonNegativeClips(clips) && j < |clips| && 0 <= i < FrameCount(clips[j])
    ensures 0 <= GlobalFrame(clips, j, i) < TotalFrames(clips)
  {
    ClipBaseMonotone(clips, 0, j);
    ClipBaseMonotone(clips, j + 1, |clips|);
  }

  /** Distinct (clip, frame) pairs have distinct global frames. */
  lemma GlobalFrameInjective(clips: seq<Clip>, j: nat, i: int, j': nat, i': int)
    requires NonNegativeClips(clips)
    requires j < |clips| && 0 <= i < FrameCount(clips[j])
    requires j' < |clips| && 0 <= i' < FrameCount(clips[j'])
    requires GlobalFrame(clips, j, i) == GlobalFrame(clips, j', i')
    ensures j == j' && i == i'
  {
    if j < j' {
      ClipBaseMonotone(clips, j + 1, j');
    } else if j' < j {
      ClipBaseMonotone(clips, j' + 1, j);
    }
  }

  /** The (clip, frame) pair stored at global frame `g`, searching the clips before `j`. */
  function LocateBefore(clips: seq<Clip>, g: int, j: nat): (r: (nat, nat))
    requires j <= |clips| && 0 <= g < ClipBase(clips, j)
    ensures r.0 < j && r.1 < FrameCount(clips[r.0]) && GlobalFrame(clips, r.0, r.1) == g
  {
    if g >= ClipBase(clips, j - 1) then (j - 1, g - ClipBase(clips, j - 1))
    else LocateBefore(clips, g, j - 1)
  }

  /** The (clip, frame) pair whose pose is stored at global frame `g`: every global frame is used. */
  function Locate(clips: seq<Clip>, g: int): (r: (nat, nat))
    requires 0 <= g < TotalFrames(clips)
    ensures r.0 < |clips| && r.1 < FrameCount(clips[r.0]) && GlobalFrame(clips, r.0, r.1) == g
  {
    LocateBefore(clips, g, |clips|)
  }

  /** Locating the global frame of a (clip, frame) pair gives the pair back. */
  lemma LocateGlobalFrame(clips: seq<Clip>, j: nat, i: nat)
    requires NonNegativeClips(clips) && j < |clips| && i < FrameCount(clips[j])
    ensures 0 <= GlobalFrame(clips, j, i) < TotalFrames(clips)
    ensures Locate(clips, GlobalFrame(clips, j, i)) == (j, i)
  {
    GlobalFrameInRange(clips, j, i);
    var r := Locate(clips, GlobalFrame(clips, j, i));
    GlobalFrameInjective(clips, j, i, r.0, r.1);
  }

  // ---------------------------------------------------------------------
  // The buffer the bake is meant to produce
  // ---------------------------------------------------------------------

  /**
    The pose sampler: the transform matrices read back after group `j` is
    moved with `goToFrame(i)`. `i` is the animation frame number handed to
    `goToFrame`, counted from 0 like the sampling loop's index, not an
    offset from the group's `from`.
   */
  type PoseSampler = (nat, nat) -> seq<real>

  /** Every sampled pose has `stride` floats. */
  ghost predicate Conforming(sample: PoseSampler, stride: int) {
    forall j: nat, i: nat :: |sample(j, i)| == stride
  }

  /** The poses of the first `n` frames of clip `j`, one after the other. */
  function ClipPoses(sample: PoseSampler, j: nat, n: int): seq<real>
    decreases n
  {
    if n <= 0 then [] else ClipPoses(sample, j, n - 1) + sample(j, n - 1)
  }

  /** The poses of every frame of the clips before `j`, clip by clip. */
  function Poses(clips: seq<Clip>, sample: PoseSampler, j: nat): seq<real>
    requires j <= |clips|
  {
    if j == 0 then []
    else Poses(clips, sample, j - 1) + ClipPoses(sample, j - 1, FrameCount(clips[j - 1]))
  }

  /** The whole bake: every frame of every clip, in clip order and then frame order. */
  function BakedPoses(clips: seq<Clip>, sample: PoseSampler): seq<real> {
    Poses(clips, sample, |clips|)
  }

  lemma {:induction false} ClipPosesLength(sample: PoseSampler, stride: nat, j: nat, n: nat)
    requires Conforming(sample, stride)
    ensures |ClipPoses(sample, j, n)| == n * stride
  {
    if n > 0 {
      ClipPosesLength(sample, stride, j, n - 1);
    }
  }

  /** With conforming poses the bake holds exactly `stride` floats per global frame. */
  lemma {:induction false} PosesLength(clips: seq<Clip>, sample: PoseSampler, stride: nat, j: nat)
    requires NonNegativeClips(clips) && Conforming(sample, stride) && j <= |clips|
    ensures |Poses(clips, sample, j)| == ClipBase(clips, j) * stride
  {
    if j > 0 {
      var n := FrameCount(clips[j - 1]);
      PosesLength(clips, sample, stride, j - 1);
      ClipPosesLength(sample, stride, j - 1, n);
      MulDistributes(ClipBase(clips, j - 1), n, stride);
    }
  }

  /** Frame `i` of a clip sits in block `i` of the clip's poses. */
  lemma ClipPoseBlock(sample: PoseSampler, stride: nat, j: nat, n: nat, i: nat)
    requires Conforming(sample, stride) && i < n
    ensures |ClipPoses(sample, j, n)| == n * stride
    ensures (i + 1) * stride <= n * stride
    ensures ClipPoses(sample, j, n)[i * stride..(i + 1) * stride] == sample(j, i)
  {
    var prev := ClipPoses(sample, j, i);
    var upTo := ClipPoses(sample, j, i + 1);
    var lo, hi := i * stride, (i + 1) * stride;
    assert upTo == prev + sample(j, i);
    assert |prev| == lo && hi == lo + stride by {
      ClipPosesLength(sample, stride, j, i);
      MulDistributes(i, 1, stride);
    }
    assert |ClipPoses(sample, j, n)| == n * stride && hi <= n * stride by {
      ClipPosesLength(sample, stride, j, n);
      MulMonotone(i + 1, n, stride);
    }
    SliceOfConcat(prev, sample(j, i), lo, hi);
    ClipPosesPrefix(sample, j, i + 1, n);
    SliceOfPrefix(ClipPoses(sample, j, n), upTo, lo, hi);
  }

  /** The poses of the first `m` frames of a clip begin the poses of its first `n >= m` frames. */
  lemma {:induction false} ClipPosesPrefix(sample: PoseSampler, j: nat, m: nat, n: nat)
    requires m <= n
    ensures |ClipPoses(sample, j, m)| <= |ClipPoses(sample, j, n)|
    ensures ClipPoses(sample, j, n)[..|ClipPoses(sample, j, m)|] == ClipPoses(sample, j, m)
    decreases n
  {
    if m < n {
      ClipPosesPrefix(sample, j, m, n - 1);
      var prev := ClipPoses(sample, j, n - 1);
      assert ClipPoses(sample, j, n) == prev + sample(j, n - 1);
      assert (prev + sample(j, n - 1))[..|ClipPoses(sample, j, m)|] == prev[..|ClipPoses(sample, j, m)|];
    }
  }

  /** The poses of the clips before `j` begin the poses of the clips before any later `k`. */
  lemma {:induction false} PosesPrefix(clips: seq<Clip>, sample: PoseSampler, j: nat, k: nat)
    requires j <= k <= |clips|
    ensures |Poses(clips, sample, j)| <= |Poses(clips, sample, k)|
    ensures Poses(clips, sample, k)[..|Poses(clips, sample, j)|] == Poses(clips, sample, j)
  {
    if j < k {
      PosesPrefix(clips, sample, j, k - 1);
    }
  }

  /** The block of global frame `ClipBase(clips, j) + i` within the poses of the clips up to `j`. */
  lemma PoseBlockInClip(clips: seq<Clip>, sample: PoseSampler, stride: nat, j: nat, i: nat)
    requires NonNegativeClips(clips) && Conforming(sample, stride)
    requires j < |clips| && i < FrameCount(clips[j])
    ensures 0 <= GlobalFrame(clips, j, i) * stride
    ensures (GlobalFrame(clips, j, i) + 1) * stride <= |Poses(clips, sample, j + 1)|
    ensures Poses(clips, sample, j + 1)[GlobalFrame(clips, j, i) * stride..(GlobalFrame(clips, j, i) + 1) * stride]
            == sample(j, i)
  {
    var base, n := ClipBase(clips, j), FrameCount(clips[j]);
    var before := Poses(clips, sample, j);
    var own := ClipPoses(sample, j, n);
    assert Poses(clips, sample, j + 1) == before + own;
    assert 0 <= base by {
      ClipBaseMonotone(clips, 0, j);
    }
    assert |before| == base * stride by {
      PosesLength(clips, sample, stride, j);
    }
    var lo, hi := i * stride, (i + 1) * stride;
    assert hi <= |own| && own[lo..hi] == sample(j, i) by {
      ClipPoseBlock(sample, stride, j, n, i);
    }
    BlockOffsets(base, i, stride);
    SliceOfConcat(before, own, |before| + lo, |before| + hi);
  }

  /** Block `base + i` starts `i` blocks after block `base`. */
  lemma BlockOffsets(base: nat, i: nat, stride: nat)
    ensures (base + i) * stride == base * stride + i * stride
    ensures (base + i + 1) * stride == base * stride + (i + 1) * stride
    ensures 0 <= i * stride
  {
    MulDistributes(base, i, stride);
    MulDistributes(base, i + 1, stride);
    MulMonotone(0, i, stride);
  }

  /**
    Placement: in the whole bake, the block of global frame
    `ClipBase(clips, j) + i` holds exactly the pose of frame `i` of clip `j`.
   */
  lemma PoseBlock(clips: seq<Clip>, sample: PoseSampler, stride: nat, j: nat, i: nat)
    requires NonNegativeClips(clips) && Conforming(sample, stride)
    requires j < |clips| && i < FrameCount(clips[j])
    ensures |BakedPoses(clips, sample)| == TotalFrames(clips) * stride
    ensures 0 <= GlobalFrame(clips, j, i) * stride
    ensures (GlobalFrame(clips, j, i) + 1) * stride <= |BakedPoses(clips, sample)|
    ensures BakedPoses(clips, sample)[GlobalFrame(clips, j, i) * stride..(GlobalFrame(clips, j, i) + 1) * stride]
            == sample(j, i)
  {
    var g := GlobalFrame(clips, j, i);
    var whole := BakedPoses(clips, sample);
    var upTo := Poses(clips, sample, j + 1);
    assert |whole| == TotalFrames(clips) * stride by {
      PosesLength(clips, sample, stride, |clips|);
    }
    assert 0 <= g * stride && (g + 1) * stride <= |upTo| && upTo[g * stride..(g + 1) * stride] == sample(j, i) by {
      PoseBlockInClip(clips, sample, stride, j, i);
    }
    assert |upTo| <= |whole| && whole[..|upTo|] == upTo by {
      PosesPrefix(clips, sample, j + 1, |clips|);
    }
    SliceOfPrefix(whole, upTo, g * stride, (g + 1) * stride);
  }

  /** What the bake has produced once the first `i` frames of clip `j` are sampled. */
  function Written(clips: seq<Clip>, sample: PoseSampler, j: nat, i: int): seq<real>
    requires j <= |clips|
  {
    Poses(clips, sample, j) + ClipPoses(sample, j, i)
  }

  /**
    While clip `j` is being sampled, the block of its frame `i` starts right
    after what has been written, at `(ClipBase(clips, j) + i) * stride`, ends
    within a buffer of `TotalFrames(clips)` blocks, and extends what has been
    written by the pose of that frame.
   */
  lemma NextBlock(clips: seq<Clip>, sample: PoseSampler, stride: nat, j: nat, i: nat)
    requires NonNegativeClips(clips) && Conforming(sample, stride)
    requires j < |clips| && 0 <= i < FrameCount(clips[j])
    ensures |Written(clips, sample, j, i)| == i * stride + ClipBase(clips, j) * stride
    ensures |Written(clips, sample, j, i)| + stride <= TotalFrames(clips) * stride
    ensures Written(clips, sample, j, i + 1) == Written(clips, sample, j, i) + sample(j, i)
  {
    PosesLength(clips, sample, stride, j);
    ClipPosesLength(sample, stride, j, i);
    BlockFits(clips, stride, j, i);
    assert ClipPoses(sample, j, i + 1) == ClipPoses(sample, j, i) + sample(j, i);
  }

  /** Block `i` of clip `j` ends within a buffer of `TotalFrames(clips)` blocks. */
  lemma BlockFits(clips: seq<Clip>, stride: nat, j: nat, i: nat)
    requires NonNegativeClips(clips) && j < |clips| && i < FrameCount(clips[j])
    ensures i * stride + ClipBase(clips, j) * stride + stride <= TotalFrames(clips) * stride
  {
    var base := ClipBase(clips, j);
    GlobalFrameInRange(clips, j, i);
    MulDistributes(base, i, stride);
    MulDistributes(base + i, 1, stride);
    MulMonotone(base + i + 1, TotalFrames(clips), stride);
  }

  /** Once clip `j` is sampled to its end, the bake has produced exactly the clips before `j + 1`. */
  lemma WrittenClip(clips: seq<Clip>, sample: PoseSampler, j: nat)
    requires j < |clips|
    ensures Written(clips, sample, j, FrameCount(clips[j])) == Written(clips, sample, j + 1, 0)
  {
    assert Written(clips, sample, j + 1, 0) == Poses(clips, sample, j + 1) + [];
  }

  /** Nothing is written before the first clip, and the whole bake after the last. */
  lemma WrittenEnds(clips: seq<Clip>, sample: PoseSampler)
    ensures Written(clips, sample, 0, 0) == []
    ensures Written(clips, sample, |clips|, 0) == BakedPoses(clips, sample)
  {
    assert Written(clips, sample, |clips|, 0) == Poses(clips, sample, |clips|) + [];
  }

  /**
    The buffer once the first `i` frames of clip `j` are sampled over a
    buffer that held `orig`: what has been written, then the rest of `orig`.
   */
  ghost function PartialBake(clips: seq<Clip>, sample: PoseSampler, j: nat, i: int, orig: seq<real>): seq<real>
    requires j <= |clips|
  {
    var w := Written(clips, sample, j, i);
    if |w| <= |orig| then w + orig[|w|..] else w
  }

  /** Once every clip is sampled into a buffer of one block per global frame, the buffer is the whole bake. */
  lemma PartialBakeAll(clips: seq<Clip>, sample: PoseSampler, stride: nat, orig: seq<real>)
    requires NonNegativeClips(clips) && Conforming(sample, stride) && |orig| == stride * TotalFrames(clips)
    ensures PartialBake(clips, sample, |clips|, 0, orig) == BakedPoses(clips, sample)
  {
    var w := Written(clips, sample, |clips|, 0);
    assert w == BakedPoses(clips, sample) by {
      WrittenEnds(clips, sample);
    }
    assert |w| == |orig| by {
      PosesLength(clips, sample, stride, |clips|);
    }
    assert w + orig[|w|..] == w;
  }

  /**
    One write of the sampling loop on a buffer of one block per global
    frame: it lands in bounds and extends what has been written by one pose.
   */
  lemma PartialBakeStep(clips: seq<Clip>, sample: PoseSampler, stride: nat, j: nat, i: nat,
                        orig: seq<real>, buffer: seq<real>, offset: int)
    requires NonNegativeClips(clips) && Conforming(sample, stride)
    requires j < |clips| && i < FrameCount(clips[j]) && |orig| == stride * TotalFrames(clips)
    requires offset == i * |sample(j, i)| + ClipBase(clips, j) * |sample(j, i)|
    requires buffer == PartialBake(clips, sample, j, i, orig)
    ensures 0 <= offset && offset + |sample(j, i)| <= |buffer|
    ensures Overwrite(buffer, sample(j, i), offset) == PartialBake(clips, sample, j, i + 1, orig)
  {
    NextBlock(clips, sample, stride, j, i);
    AppendAt(Written(clips, sample, j, i), sample(j, i), orig);
  }

  /** Writing `m` right after the prefix `p` of a buffer whose rest is still `orig`'s. */
  lemma AppendAt(p: seq<real>, m: seq<real>, orig: seq<real>)
    requires |p| + |m| <= |orig|
    ensures Overwrite(p + orig[|p|..], m, |p|) == (p + m) + orig[|p + m|..]
  {
    var b := p + orig[|p|..];
    assert b[..|p|] == p;
    assert b[|p| + |m|..] == orig[|p| + |m|..];
  }

  lemma SliceOfConcat(x: seq<real>, y: seq<real>, lo: int, hi: int)
    requires |x| <= lo <= hi <= |x| + |y|
    ensures (x + y)[lo..hi] == y[lo - |x|..hi - |x|]
  {
  }

  lemma SliceOfPrefix(whole: seq<real>, prefix: seq<real>, lo: int, hi: int)
    requires |prefix| <= |whole| && whole[..|prefix|] == prefix
    requires 0 <= lo <= hi <= |prefix|
    ensures whole[lo..hi] == prefix[lo..hi]
  {
    forall k | 0 <= k < hi - lo
      ensures whole[lo..hi][k] == prefix[lo..hi][k]
    {
      assert whole[lo + k] == whole[..|prefix|][lo + k];
    }
  }
}
