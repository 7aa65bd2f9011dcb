/** Reductions and scans over sequences shared by the validators: `min()` /
    `max()` of a non-empty array, and the first entry a check rejects (the
    validators raise on the first bad entry of a loop). */
module SeqOps {
  import opened Results

  /** `max()` of a non-empty array. */
  function MaxOf(xs: seq<int>): (r: int)
    requires |xs| > 0
    ensures forall i :: 0 <= i < |xs| ==> xs[i] <= r
    ensures exists i :: 0 <= i < |xs| && xs[i] == r
  {
    if |xs| == 1 then xs[0]
    else
      var m := MaxOf(xs[1..]);
      assert forall i :: 1 <= i < |xs| ==> xs[i] == xs[1..][i - 1];
      if xs[0] >= m then xs[0] else m
  }

  /** `min()` of a non-empty array. */
  function MinOf(xs: seq<int>): (r: int)
    requires |xs| > 0
    ensures forall i :: 0 <= i < |xs| ==> r <= xs[i]
    ensures exists i :: 0 <= i < |xs| && xs[i] == r
  {
    if |xs| == 1 then xs[0]
    else
      var m := MinOf(xs[1..]);
      assert forall i :: 1 <= i < |xs| ==> xs[i] == xs[1..][i - 1];
      if xs[0] <= m then xs[0] else m
  }

  /** Position of the first entry of `xs` from `start` on that fails `ok`. */
  function FirstFailure<T>(xs: seq<T>, ok: T -> bool, start: nat): (r: Option<nat>)
    requires start <= |xs|
    ensures r.None? <==> forall i :: start <= i < |xs| ==> ok(xs[i])
    ensures r.Some? ==> start <= r.value < |xs| && !ok(xs[r.value])
                        && forall i :: start <= i < r.value ==> ok(xs[i])
    decreases |xs| - start
  {
    if start == |xs| then None
    else if !ok(xs[start]) then Some(start)
    else FirstFailure(xs, ok, start + 1)
  }
}
