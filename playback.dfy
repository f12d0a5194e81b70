/**
  The per-instance frame selection evaluated by the vertex shader
  (`Vertex_MainBegin`): from the elapsed time and the instance's
  `VATanimation` vector (start frame, end frame, offset frame, speed) it picks
  the texture row to sample. Floats are modelled as exact reals; start and end
  frames are whole numbers. Where the float formula divides by zero (speed 0,
  or a frame count of 0) the result is None: the GPU would produce an
  infinity or NaN there.
 */
module Playback {
  import opened Numeric
  import opened Common

  /** The `VATanimation` instance attribute. */
  datatype PlaybackParams = PlaybackParams(start: int, end: int, offset: real, speed: real)

  /** Frames played since time zero, counting the offset: `(time + offset / speed) * speed`. */
  function Elapsed(p: PlaybackParams, time: real): (e: real)
    requires p.speed != 0.0
    ensures e == time * p.speed + p.offset
  {
    (time + p.offset / p.speed) * p.speed
  }

  /** Cycles played: `(time + offset / speed) * speed / numFrames`. */
  function Cycles(p: PlaybackParams, time: real, numFrames: int): real
    requires p.speed != 0.0 && numFrames != 0
  {
    (time + p.offset / p.speed) * p.speed / numFrames as real
  }

  /** Position within the current cycle: the `fract` of the cycles played. */
  function CyclePosition(p: PlaybackParams, time: real, numFrames: int): (c: real)
    requires p.speed != 0.0 && numFrames != 0
    ensures 0.0 <= c < 1.0
  {
    Fract(Cycles(p, time, numFrames))
  }

  /** Frames played within the current cycle: `fract(...) * numFrames`. */
  function FramesIntoCycle(p: PlaybackParams, time: real, numFrames: int): (f: real)
    requires p.speed != 0.0 && numFrames != 0
    ensures numFrames >= 1 ==> 0.0 <= f < numFrames as real
  {
    var c := CyclePosition(p, time, numFrames);
    assert numFrames >= 1 ==> 0.0 <= c * numFrames as real < numFrames as real by {
      if numFrames >= 1 {
        Scale(0.0, c, numFrames as real);
        ScaleStrict(c, 1.0, numFrames as real);
      }
    }
    c * numFrames as real
  }

  // ---------------------------------------------------------------------
  // src/vat_v2.ts: numFrames = end - start + 1, rounded up with ceil
  // ---------------------------------------------------------------------

  function NumFramesV2(p: PlaybackParams): int {
    p.end - p.start + 1
  }

  /** The frame the vat_v2 shader selects, as written (`ceil`). */
  function FrameNumV2(p: PlaybackParams, time: real): (r: Option<int>)
    ensures r.Some? <==> p.speed != 0.0 && NumFramesV2(p) != 0
  {
    var n := NumFramesV2(p);
    if p.speed == 0.0 || n == 0 then None
    else Some(p.start + Ceil(FramesIntoCycle(p, time, n)))
  }

  /**
    Scaling the cycle position back by `numFrames` gives the elapsed frames
    less the whole cycles already played.
   */
  lemma {:induction false} CycleFrames(p: PlaybackParams, time: real, n: int)
    requires p.speed != 0.0 && n >= 1
    ensures FramesIntoCycle(p, time, n)
            == Elapsed(p, time) - ((Elapsed(p, time).Floor / n) * n) as real
  {
    var e := Elapsed(p, time);
    assert Cycles(p, time, n) == e / n as real;
    FractScaled(e, n);
  }

  /**
    What the vat_v2 shader computes, stated without `fract`: the start frame
    plus the whole frames elapsed modulo the clip length, plus one more
    whenever the elapsed time is not on a frame boundary.
   */
  lemma {:induction false} FrameNumV2Elapsed(p: PlaybackParams, time: real)
    requires p.speed != 0.0 && NumFramesV2(p) >= 1
    ensures FrameNumV2(p, time)
            == Some(p.start + Elapsed(p, time).Floor % NumFramesV2(p)
                    + (if IsIntegral(Elapsed(p, time)) then 0 else 1))
  {
    var n := NumFramesV2(p);
    CycleFrames(p, time, n);
    WithinCycle(FramesIntoCycle(p, time, n), Elapsed(p, time), n);
  }

  /** Rounding the frames played within the current cycle, up or down. */
  lemma WithinCycle(c: real, e: real, n: int)
    requires n >= 1 && c == e - ((e.Floor / n) * n) as real
    ensures c.Floor == e.Floor % n
    ensures Ceil(c) == e.Floor % n + (if IsIntegral(e) then 0 else 1)
  {
    var w := (e.Floor / n) * n;
    assert c.Floor == e.Floor - w;
    CeilFloor(c);
  }

  /**
    For a non-empty range the vat_v2 shader selects a frame in
    [start, end + 1]: because of `ceil`, one past the end is reachable.
   */
  lemma FrameNumV2Range(p: PlaybackParams, time: real)
    requires p.speed != 0.0 && p.start <= p.end
    ensures FrameNumV2(p, time).Some?
    ensures p.start <= FrameNumV2(p, time).value <= p.end + 1
  {
    FrameNumV2Elapsed(p, time);
  }

  /** The vat_v2 selection repeats after `numFrames / speed` seconds. */
  lemma FrameNumV2Periodic(p: PlaybackParams, time: real)
    requires p.speed != 0.0 && NumFramesV2(p) != 0
    ensures FrameNumV2(p, time + NumFramesV2(p) as real / p.speed) == FrameNumV2(p, time)
  {
    var t' := time + NumFramesV2(p) as real / p.speed;
    CycleShift(p, time, NumFramesV2(p));
    assert FramesIntoCycle(p, t', NumFramesV2(p)) == FramesIntoCycle(p, time, NumFramesV2(p));
  }

  /** Advancing time by `n / speed` advances the cycle argument by exactly one. */
  lemma CycleShift(p: PlaybackParams, time: real, n: int)
    requires p.speed != 0.0 && n != 0
    ensures CyclePosition(p, time + n as real / p.speed, n) == CyclePosition(p, time, n)
  {
    CycleArgumentShift(time, p.offset, p.speed, n as real);
    assert Cycles(p, time + n as real / p.speed, n) == Cycles(p, time, n) + 1 as real;
    FractShift(Cycles(p, time, n), 1);
  }

  lemma CycleArgumentShift(time: real, offset: real, s: real, nr: real)
    requires s != 0.0 && nr != 0.0
    ensures (time + nr / s + offset / s) * s / nr == (time + offset / s) * s / nr + 1.0
  {
    var a := (time + offset / s) * s;
    assert (time + nr / s + offset / s) * s == a + nr;
    assert (a / nr + 1.0) * nr == a + nr;
    DivideExact(a + nr, nr, a / nr + 1.0);
  }

  /**
    An input on which the vat_v2 shader selects one past the end frame: a
    45-frame clip 0..44 at 30 frames per second, half a frame before the
    cycle closes, selects row 45.
   */
  lemma FrameNumV2Overshoots()
    ensures FrameNumV2(PlaybackParams(0, 44, 0.0, 30.0), 89.0 / 60.0) == Some(45)
  {
    var p := PlaybackParams(0, 44, 0.0, 30.0);
    assert (89.0 / 60.0 + p.offset / p.speed) * p.speed / 45.0 == 89.0 / 90.0;
    assert (89.0 / 90.0).Floor == 0;
    assert Fract(89.0 / 90.0) * 45.0 == 44.5;
    assert Ceil(44.5) == 45;
  }

  /**
    The frame selection as evidently intended (rounding down): the start
    frame plus the whole frames elapsed modulo the clip length, so it never
    leaves [start, end].
   */
  function FrameNum(p: PlaybackParams, time: real): (r: Option<int>)
    ensures r.Some? <==> p.speed != 0.0 && NumFramesV2(p) != 0
    ensures r.Some? && NumFramesV2(p) >= 1
            ==> r.value == p.start + Elapsed(p, time).Floor % NumFramesV2(p)
                && p.start <= r.value <= p.end
  {
    var n := NumFramesV2(p);
    if p.speed == 0.0 || n == 0 then None
    else
      var r := p.start + FramesIntoCycle(p, time, n).Floor;
      assert n >= 1 ==> r == p.start + Elapsed(p, time).Floor % n by {
        if n >= 1 {
          CycleFrames(p, time, n);
          WithinCycle(FramesIntoCycle(p, time, n), Elapsed(p, time), n);
        }
      }
      Some(r)
  }

  /** The corrected selection repeats after `numFrames / speed` seconds too. */
  lemma FrameNumPeriodic(p: PlaybackParams, time: real)
    requires p.speed != 0.0 && NumFramesV2(p) != 0
    ensures FrameNum(p, time + NumFramesV2(p) as real / p.speed) == FrameNum(p, time)
  {
    var t' := time + NumFramesV2(p) as real / p.speed;
    CycleShift(p, time, NumFramesV2(p));
    assert FramesIntoCycle(p, t', NumFramesV2(p)) == FramesIntoCycle(p, time, NumFramesV2(p));
  }

  /**
    The as-written vat_v2 selection is the corrected one, plus one exactly
    when the elapsed time is off a frame boundary.
   */
  lemma FrameNumV2VersusFrameNum(p: PlaybackParams, time: real)
    requires p.speed != 0.0 && NumFramesV2(p) >= 1
    ensures FrameNumV2(p, time).value
            == FrameNum(p, time).value + (if IsIntegral(Elapsed(p, time)) then 0 else 1)
  {
    FrameNumV2Elapsed(p, time);
  }

  // ---------------------------------------------------------------------
  // src/vat.ts: numFrames = end - start, rounded up with ceil
  // ---------------------------------------------------------------------

  function NumFramesV1(p: PlaybackParams): int {
    p.end - p.start
  }

  /** The frame the vat.ts shader selects. */
  function FrameNumV1(p: PlaybackParams, time: real): (r: Option<int>)
    ensures r.Some? <==> p.speed != 0.0 && NumFramesV1(p) != 0
  {
    var n := NumFramesV1(p);
    if p.speed == 0.0 || n == 0 then None
    else Some(p.start + Ceil(FramesIntoCycle(p, time, n)))
  }

  /** For `end > start` the vat.ts shader selects a frame in [start, end]. */
  lemma FrameNumV1Range(p: PlaybackParams, time: real)
    requires p.speed != 0.0 && p.start < p.end
    ensures FrameNumV1(p, time).Some?
    ensures p.start <= FrameNumV1(p, time).value <= p.end
  {
    var n := NumFramesV1(p);
    CeilBelowWhole(FramesIntoCycle(p, time, n), n);
  }

  /** The vat.ts selection repeats after `numFrames / speed` seconds. */
  lemma FrameNumV1Periodic(p: PlaybackParams, time: real)
    requires p.speed != 0.0 && NumFramesV1(p) != 0
    ensures FrameNumV1(p, time + NumFramesV1(p) as real / p.speed) == FrameNumV1(p, time)
  {
    var t' := time + NumFramesV1(p) as real / p.speed;
    CycleShift(p, time, NumFramesV1(p));
    assert FramesIntoCycle(p, t', NumFramesV1(p)) == FramesIntoCycle(p, time, NumFramesV1(p));
  }
}
