/** Colormap validators: the gradient and limits of a continuous colormap,
    the lengths and ordering of a discrete colormap (and the interval a value
    falls in, as its documentation describes it), and the lengths of a
    category colormap. Attribute values, limits and end points are reals;
    colours are opaque. */
module Colormap {
  import opened Results
  import opened ArrayCodec
  import opened Subblocks

  datatype ColormapError =
    | GradientOutOfRange   // a gradient entry changes under the `uint8` cast
    | LimitsLength         // `limits` does not have exactly two entries
    | LimitsOrder          // `limits[0] > limits[1]`
    | DiscreteLengths      // end points, inclusivity flags and colours disagree
    | EndPointsDecrease    // an end point is below its predecessor
    | CategoryLengths      // indices, values and colours disagree

  /** `astype("uint8")` of one integer: numpy keeps the low byte. */
  function CastUint8(v: int): (r: int)
    ensures 0 <= r < 256
    ensures (r == v) <==> 0 <= v < 256
  {
    v % 256
  }

  /** `ContinuousColormap._check_gradient_values`. An unset gradient passes
      unchanged. Otherwise the cast to `uint8` must not change any entry, and
      the gradient is then stored as `uint8` with the same values. */
  function CheckGradient(gradient: ArrayInstance): (r: Result<ArrayInstance, ColormapError>)
    requires gradient.data.Some? ==> IsInteger(gradient.data.value.dtype)
    ensures r.Ok? <==>
              (gradient.data.None? ||
               forall i :: 0 <= i < |gradient.data.value.elems| ==> 0 <= gradient.data.value.elems[i].i < 256)
    ensures r.Ok? && gradient.data.None? ==> r.value == gradient
    ensures r.Ok? && gradient.data.Some? ==>
              && r.value.data.Some?
              && r.value.data.value.dtype == Uint8
              && r.value.data.value.shape == gradient.data.value.shape
              && r.value.data.value.elems == gradient.data.value.elems
  {
    match gradient.data
    case None => Ok(gradient)
    case Some(a) =>
      var cast := seq(|a.elems|, i requires 0 <= i < |a.elems| => IntVal(CastUint8(a.elems[i].i)));
      if cast != a.elems then
        assert exists i :: 0 <= i < |a.elems| && cast[i] != a.elems[i];
        Err(GradientOutOfRange)
      else
        var b := NdArray(Uint8, a.shape, cast);
        assert forall i :: 0 <= i < |cast| ==> Fits(Uint8, cast[i]) by {
          Subblocks.RadixValues();
        }
        Ok(ArrayInstance(Some(b)))
  }

  /** `ContinuousColormap.limits` (a list of exactly two floats) and its
      validator `_check_limits_on_change`. */
  function ValidateLimits(limits: seq<real>): (r: Outcome<ColormapError>)
    ensures r.Pass? <==> |limits| == 2 && limits[0] <= limits[1]
    ensures r == Fail(LimitsOrder) <==> |limits| == 2 && limits[0] > limits[1]
  {
    if |limits| != 2 then Fail(LimitsLength)
    else if limits[0] > limits[1] then Fail(LimitsOrder)
    else Pass
  }

  /** `DiscreteColormap._validate_lengths`: as many flags as end points and
      one more colour than end points. */
  function ValidateDiscreteLengths<C>(endPoints: seq<real>, endInclusive: seq<bool>, colors: seq<C>): (r: Outcome<ColormapError>)
    ensures r.Pass? <==> |endPoints| == |endInclusive| && |colors| == |endPoints| + 1
    ensures r.Pass? ==> |colors| >= 1
  {
    if |endPoints| != |endInclusive| then Fail(DiscreteLengths)
    else if |colors| == |endPoints| + 1 then Pass
    else Fail(DiscreteLengths)
  }

  /** No end point is below the one before it. */
  predicate AdjacentNonDecreasing(xs: seq<real>)
  {
    forall i :: 0 <= i < |xs| - 1 ==> xs[i] <= xs[i + 1]
  }

  /** Sorted: every earlier end point is at most every later one. */
  predicate Sorted(xs: seq<real>)
  {
    forall i, j :: 0 <= i <= j < |xs| ==> xs[i] <= xs[j]
  }

  /** `DiscreteColormap._validate_end_points_monotonic`: each difference of
      neighbours must be non-negative, so equal neighbours are accepted. */
  function ValidateEndPoints(endPoints: seq<real>): (r: Outcome<ColormapError>)
    ensures r.Pass? <==> Sorted(endPoints)
  {
    if forall i :: 0 <= i < |endPoints| - 1 ==> endPoints[i + 1] - endPoints[i] >= 0.0 then
      AdjacentSorted(endPoints);
      Pass
    else Fail(EndPointsDecrease)
  }

  /** Checking neighbours is checking every pair. */
  lemma AdjacentSorted(xs: seq<real>)
    ensures AdjacentNonDecreasing(xs) <==> Sorted(xs)
  {
    if AdjacentNonDecreasing(xs) {
      forall i, j | 0 <= i <= j < |xs| ensures xs[i] <= xs[j] {
        AdjacentChain(xs, i, j);
      }
    }
  }

  lemma {:induction false} AdjacentChain(xs: seq<real>, i: nat, j: nat)
    requires AdjacentNonDecreasing(xs) && i <= j < |xs|
    ensures xs[i] <= xs[j]
    decreases j - i
  {
    if i < j {
      AdjacentChain(xs, i + 1, j);
    }
  }

  /** `_validate_end_points_monotonic` as the source writes it: one loop over
      neighbours, stopping at the first negative difference. */
  method CheckEndPoints(endPoints: seq<real>) returns (ok: bool)
    ensures ok <==> Sorted(endPoints)
  {
    var i := 0;
    while i + 1 < |endPoints|
      invariant 0 <= i <= |endPoints|
      invariant forall k :: 0 <= k < i && k + 1 < |endPoints| ==> endPoints[k] <= endPoints[k + 1]
    {
      if endPoints[i + 1] - endPoints[i] < 0.0 {
        assert !AdjacentNonDecreasing(endPoints);
        AdjacentSorted(endPoints);
        return false;
      }
      i := i + 1;
    }
    AdjacentSorted(endPoints);
    return true;
  }

  /** The value is past end point `k`: above it, or on it when the end point
      belongs to the upper interval (`end_inclusive` false). */
  predicate PastEndPoint(endPoints: seq<real>, endInclusive: seq<bool>, k: nat, v: real)
    requires k < |endPoints| && |endInclusive| == |endPoints|
  {
    v > endPoints[k] || (v == endPoints[k] && !endInclusive[k])
  }

  /** Number of end points among the first `n` that `v` is past. */
  function CountPast(endPoints: seq<real>, endInclusive: seq<bool>, n: nat, v: real): (r: nat)
    requires n <= |endPoints| && |endInclusive| == |endPoints|
    ensures r <= n
  {
    if n == 0 then 0
    else CountPast(endPoints, endInclusive, n - 1, v) + (if PastEndPoint(endPoints, endInclusive, n - 1, v) then 1 else 0)
  }

  /** The colour interval of an attribute value, as the discrete colormap's
      documentation describes it: values up to the first end point take
      colour 0, each end point passed moves one colour up. */
  function IntervalIndex(endPoints: seq<real>, endInclusive: seq<bool>, v: real): (r: nat)
    requires |endInclusive| == |endPoints|
    ensures r <= |endPoints|
  {
    CountPast(endPoints, endInclusive, |endPoints|, v)
  }

  lemma {:induction false} CountPastMonotone(endPoints: seq<real>, endInclusive: seq<bool>, n: nat, v: real, w: real)
    requires n <= |endPoints| && |endInclusive| == |endPoints| && v <= w
    ensures CountPast(endPoints, endInclusive, n, v) <= CountPast(endPoints, endInclusive, n, w)
  {
    if n > 0 {
      CountPastMonotone(endPoints, endInclusive, n - 1, v, w);
    }
  }

  /** In a colormap that passed the length rule, every value has a colour,
      and larger values never get an earlier colour. */
  lemma IntervalIndexInRange<C>(endPoints: seq<real>, endInclusive: seq<bool>, colors: seq<C>, v: real, w: real)
    requires ValidateDiscreteLengths(endPoints, endInclusive, colors).Pass?
    requires v <= w
    ensures IntervalIndex(endPoints, endInclusive, v) < |colors|
    ensures IntervalIndex(endPoints, endInclusive, v) <= IntervalIndex(endPoints, endInclusive, w)
  {
    CountPastMonotone(endPoints, endInclusive, |endPoints|, v, w);
  }

  /** Below every end point the first colour applies, above every end point
      the last. */
  lemma {:induction false} IntervalIndexExtremes(endPoints: seq<real>, endInclusive: seq<bool>, v: real, n: nat)
    requires |endInclusive| == |endPoints| && n <= |endPoints|
    ensures (forall k :: 0 <= k < |endPoints| ==> v < endPoints[k]) ==> CountPast(endPoints, endInclusive, n, v) == 0
    ensures (forall k :: 0 <= k < |endPoints| ==> v > endPoints[k]) ==> CountPast(endPoints, endInclusive, n, v) == n
  {
    if n > 0 {
      IntervalIndexExtremes(endPoints, endInclusive, v, n - 1);
    }
  }

  /** Strictly increasing: no two end points are equal. */
  predicate StrictlySorted(xs: seq<real>)
  {
    forall i, j :: 0 <= i < j < |xs| ==> xs[i] < xs[j]
  }

  /** Counting at end point `k` itself: every earlier end point is passed, no
      later one is, and end point `k` is passed exactly when it is not
      inclusive. */
  lemma {:induction false} CountPastAtEndPoint(endPoints: seq<real>, endInclusive: seq<bool>, k: nat, n: nat)
    requires |endInclusive| == |endPoints| && k < |endPoints| && n <= |endPoints|
    requires StrictlySorted(endPoints)
    ensures CountPast(endPoints, endInclusive, n, endPoints[k]) ==
              if n <= k then n else k + (if endInclusive[k] then 0 else 1)
  {
    if n > 0 {
      CountPastAtEndPoint(endPoints, endInclusive, k, n - 1);
      if n - 1 < k {
        assert endPoints[n - 1] < endPoints[k];
      } else if n - 1 > k {
        assert endPoints[k] < endPoints[n - 1];
      }
    }
  }

  /** A value equal to end point `k` takes the interval below it (index `k`)
      when `end_inclusive[k]` holds, and the interval above it (`k + 1`)
      otherwise. */
  lemma EndInclusiveDecidesTies(endPoints: seq<real>, endInclusive: seq<bool>, k: nat)
    requires |endInclusive| == |endPoints| && k < |endPoints|
    requires StrictlySorted(endPoints)
    ensures IntervalIndex(endPoints, endInclusive, endPoints[k]) == if endInclusive[k] then k else k + 1
  {
    CountPastAtEndPoint(endPoints, endInclusive, k, |endPoints|);
  }

  /** `CategoryColormap._validate_lengths`: one value per index, and colours,
      when present, one per value. */
  function ValidateCategoryLengths<C>(indices: seq<int>, values: seq<string>, colors: Option<seq<C>>): (r: Outcome<ColormapError>)
    ensures r.Pass? <==> |indices| == |values| && (colors.None? || |colors.value| == |values|)
  {
    if |indices| != |values| then Fail(CategoryLengths)
    else if colors.None? || |colors.value| == |values| then Pass
    else Fail(CategoryLengths)
  }
}
