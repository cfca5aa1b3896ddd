/**
 * The burn-in / sample-interval display masks built by `interactive` and by its
 * slider callback (plot.py). Each mask is a boolean array of length
 * n_proposals that numpy allocates filled and then changes in place by slice
 * assignment; the two are then combined elementwise.
 */
module Plot {
  import opened Wrappers
  import Mcmc

  /** numpy refuses a slice whose step is zero. */
  datatype SliceError = ZeroStep

  /** Where Python's slice `a[:stop]` ends on a sequence of length n. */
  function SliceStop(stop: int, n: nat): (e: nat)
    ensures e <= n
    ensures 0 <= stop ==> e == if stop < n then stop else n
  {
    if stop < 0 then (if n + stop < 0 then 0 else n + stop)
    else if stop < n then stop
    else n
  }

  /**
   * Whether Python's slice `a[::step]` visits index i of a sequence of length
   * n: every step-th index from the front for a positive step, from the back
   * for a negative one.
   */
  predicate OnStride(i: int, n: nat, step: int)
  {
    if step > 0 then i % step == 0
    else step < 0 && (n - 1 - i) % -step == 0
  }

  /** `np.ones(n).astype(bool)` (value true) or `np.zeros(n).astype(bool)` (value false). */
  function Filled(n: nat, value: bool): seq<bool>
  {
    seq(n, _ => value)
  }

  /** The contents of `mask` after `mask[:stop] = False`. */
  function ClearedPrefix(mask: seq<bool>, stop: int): seq<bool>
  {
    seq(|mask|, i requires 0 <= i < |mask| => if i < SliceStop(stop, |mask|) then false else mask[i])
  }

  /** The contents of `mask` after `mask[::step] = True`, for a non-zero step. */
  function StrideSet(mask: seq<bool>, step: int): seq<bool>
  {
    seq(|mask|, i requires 0 <= i < |mask| => OnStride(i, |mask|, step) || mask[i])
  }

  /** numpy's elementwise `a & b` on two boolean arrays of one length. */
  function AndMasks(a: seq<bool>, b: seq<bool>): seq<bool>
    requires |a| == |b|
  {
    seq(|a|, i requires 0 <= i < |a| => a[i] && b[i])
  }

  /** The combined mask plot.py:63-69 builds from the slider values, or the error it raises. */
  function DisplayMask(n: nat, burnIn: int, interval: int): Result<seq<bool>, SliceError>
  {
    if interval == 0 then Failure(ZeroStep)
    else Success(AndMasks(ClearedPrefix(Filled(n, true), burnIn), StrideSet(Filled(n, false), interval)))
  }

  /**
   * The combined mask keeps exactly the indices past the burn-in that lie on
   * the sample-interval stride, and only a zero interval makes it fail.
   */
  lemma DisplayMaskKeeps(n: nat, burnIn: int, interval: int)
    ensures DisplayMask(n, burnIn, interval).Failure? <==> interval == 0
    ensures DisplayMask(n, burnIn, interval).Success? ==>
      var m := DisplayMask(n, burnIn, interval).value;
      |m| == n && forall i :: 0 <= i < n ==> (m[i] <==> SliceStop(burnIn, n) <= i && OnStride(i, n, interval))
  {
  }

  /**
   * For a non-negative burn-in and an interval of at least 1 (which covers
   * every value the sliders produce), an index is kept exactly when it is at
   * least the burn-in and a multiple of the interval.
   */
  lemma SliderMaskKeeps(n: nat, burnIn: int, interval: int, i: nat)
    requires 0 <= burnIn && 1 <= interval
    requires i < n
    ensures DisplayMask(n, burnIn, interval).Success?
    ensures DisplayMask(n, burnIn, interval).value[i] <==> burnIn <= i && i % interval == 0
  {
    DisplayMaskKeeps(n, burnIn, interval);
  }

  /** A burn-in that covers the whole chain hides every sample. */
  lemma LongBurnInHidesAll(n: nat, burnIn: int, interval: int)
    requires n <= burnIn && interval != 0
    ensures forall i :: 0 <= i < n ==> !DisplayMask(n, burnIn, interval).value[i]
  {
    DisplayMaskKeeps(n, burnIn, interval);
  }

  /**
   * The mask has n_proposals entries while a returned chain has
   * n_proposals + 1 states, so the last state has no mask entry.
   */
  lemma MaskOmitsLastSample(inp: Mcmc.Inputs, c: seq<Mcmc.Vector>, burnIn: int, interval: int)
    requires Mcmc.Chain(inp) == Wrappers.Success(c)
    requires 0 <= inp.nProposals && interval != 0
    ensures |DisplayMask(inp.nProposals, burnIn, interval).value| + 1 == |c|
  {
  }

  /** `mask[:stop] = False`, in place. */
  method ClearPrefix(mask: array<bool>, stop: int)
    modifies mask
    ensures mask[..] == ClearedPrefix(old(mask[..]), stop)
  {
    var end := SliceStop(stop, mask.Length);
    for i := 0 to end
      invariant forall j :: 0 <= j < mask.Length ==> mask[j] == (j >= i && old(mask[j]))
    {
      mask[i] := false;
    }
  }

  /** `mask[::step] = True`, in place; a zero step raises and leaves the mask as it was. */
  method SetStride(mask: array<bool>, step: int) returns (ok: bool)
    modifies mask
    ensures ok <==> step != 0
    ensures mask[..] == if ok then StrideSet(old(mask[..]), step) else old(mask[..])
  {
    if step == 0 {
      return false;
    }
    for i := 0 to mask.Length
      invariant forall j :: 0 <= j < mask.Length ==>
        mask[j] == ((j < i && OnStride(j, mask.Length, step)) || old(mask[j]))
    {
      if OnStride(i, mask.Length, step) {
        mask[i] := true;
      }
    }
    ok := true;
  }

  /** `a & b`: a new array holding the elementwise conjunction. */
  method And(a: array<bool>, b: array<bool>) returns (c: array<bool>)
    requires a.Length == b.Length
    ensures fresh(c)
    ensures c.Length == a.Length
    ensures forall i :: 0 <= i < c.Length ==> (c[i] <==> a[i] && b[i])
  {
    c := new bool[a.Length];
    for i := 0 to a.Length
      invariant forall j :: 0 <= j < i ==> (c[j] <==> a[j] && b[j])
    {
      c[i] := a[i] && b[i];
    }
  }

  /**
   * The mask construction of plot.py:63-69, run again unchanged by the slider
   * callback at plot.py:85-91: the burn-in mask, the sample-interval mask and
   * their conjunction.
   */
  method BuildMask(n: nat, burnIn: int, interval: int) returns (r: Result<array<bool>, SliceError>)
    ensures r.Success? ==> fresh(r.value)
    ensures r.Success? ==> DisplayMask(n, burnIn, interval) == Success(r.value[..])
    ensures r.Failure? ==> DisplayMask(n, burnIn, interval) == Failure(r.error)
  {
    var burnInMask := new bool[n](_ => true);
    ClearPrefix(burnInMask, burnIn);
    var sampleIntervalMask := new bool[n](_ => false);
    var ok := SetStride(sampleIntervalMask, interval);
    if !ok {
      return Failure(ZeroStep);
    }
    assert burnInMask[..] == ClearedPrefix(Filled(n, true), burnIn);
    assert sampleIntervalMask[..] == StrideSet(Filled(n, false), interval);
    var combined := And(burnInMask, sampleIntervalMask);
    assert combined[..] == AndMasks(burnInMask[..], sampleIntervalMask[..]);
    r := Success(combined);
  }
}
