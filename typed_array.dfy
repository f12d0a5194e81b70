/**
  The one `Float32Array` operation the baker uses to fill its buffer:
  `target.set(source, offset)` copies `source` into `target` starting at
  `offset`, and raises a RangeError instead when the copy would not fit.
 */
module TypedArray {

  /** `target` with `source` written over it from `offset` on. */
  function Overwrite(target: seq<real>, source: seq<real>, offset: nat): (r: seq<real>)
    requires offset + |source| <= |target|
    ensures |r| == |target|
  {
    target[..offset] + source + target[offset + |source|..]
  }

  /** The copy lands at `offset` and every other element keeps its value. */
  lemma OverwriteContents(target: seq<real>, source: seq<real>, offset: nat)
    requires offset + |source| <= |target|
    ensures Overwrite(target, source, offset)[offset..offset + |source|] == source
    ensures forall k :: 0 <= k < |target| && !(offset <= k < offset + |source|) ==>
              Overwrite(target, source, offset)[k] == target[k]
  {
  }

  /** A buffer of `n` zeros, as `new Float32Array(n)` allocates it. */
  function Zeros(n: nat): (r: seq<real>)
    ensures |r| == n && forall k :: 0 <= k < n ==> r[k] == 0.0
  {
    seq(n, _ => 0.0)
  }

  /**
    `target.set(source, offset)`: `ok` is false exactly when the typed array
    would raise a RangeError (a negative offset, or a source that runs past
    the end), and then nothing is written.
   */
  method Set(target: array<real>, source: seq<real>, offset: int) returns (ok: bool)
    modifies target
    ensures ok <==> 0 <= offset && offset + |source| <= target.Length
    ensures ok ==> target[..] == Overwrite(old(target[..]), source, offset)
    ensures !ok ==> target[..] == old(target[..])
  {
    if offset < 0 || offset + |source| > target.Length {
      return false;
    }
    var i := 0;
    while i < |source|
      invariant 0 <= i <= |source|
      invariant forall k :: 0 <= k < offset ==> target[k] == old(target[k])
      invariant forall k :: offset <= k < offset + i ==> target[k] == source[k - offset]
      invariant forall k :: offset + i <= k < target.Length ==> target[k] == old(target[k])
    {
      target[offset + i] := source[i];
      i := i + 1;
    }
    assert target[..] == Overwrite(old(target[..]), source, offset);
    return true;
  }
}
