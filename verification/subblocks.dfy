/** Sub-block containers of a block model: the validators of regular and
    free-form sub-blocks, the unsigned narrowing they apply to their index
    arrays, and the row geometry the regular sub-block documentation asks for
    but `_validate` never checks. */
module Subblocks {
  import opened Results
  import opened Bits
  import opened FixedWidth
  import opened ArrayCodec
  import opened SeqOps

  predicate IsInteger(d: DType)
  {
    IsSigned(d) || IsUnsigned(d)
  }

  /** The integer values of an integer array's elements. */
  function IntsOf(es: seq<Scalar>): (r: seq<int>)
    requires forall i :: 0 <= i < |es| ==> es[i].IntVal?
    ensures |r| == |es| && forall i :: 0 <= i < |es| ==> r[i] == es[i].i
  {
    seq(|es|, i requires 0 <= i < |es| && es[i].IntVal? => es[i].i)
  }

  lemma RadixValues()
    ensures Radix(1) == 0x100 && Radix(2) == 0x1_0000
    ensures Radix(4) == 0x1_0000_0000 && Radix(8) == 0x1_0000_0000_0000_0000
  {
    assert Radix(3) == 0x100_0000;
    assert Radix(5) == 0x100_0000_0000;
    assert Radix(6) == 0x1_0000_0000_0000;
    assert Radix(7) == 0x100_0000_0000_0000;
  }

  /** `np.min_scalar_type(m)` for a non-negative integer below 2**64: the
      narrowest unsigned type that holds it. */
  function SmallestUnsigned(m: nat): (r: DType)
    requires m < 0x1_0000_0000_0000_0000
    ensures IsUnsigned(r) && UnsignedFits(m, ItemSize(r))
    ensures forall u :: IsUnsigned(u) && UnsignedFits(m, ItemSize(u)) ==> ItemSize(r) <= ItemSize(u)
  {
    RadixValues();
    if m < 0x100 then Uint8
    else if m < 0x1_0000 then Uint16
    else if m < 0x1_0000_0000 then Uint32
    else Uint64
  }

  /** The unsigned type of the same width as an integer type. */
  function SameWidthUnsigned(d: DType): (r: DType)
    requires IsInteger(d)
    ensures IsUnsigned(r) && ItemSize(r) == ItemSize(d)
  {
    match d
    case Int8 => Uint8
    case Uint8 => Uint8
    case Int16 => Uint16
    case Uint16 => Uint16
    case Int32 => Uint32
    case Uint32 => Uint32
    case Int64 => Uint64
    case Uint64 => Uint64
  }

  lemma {:induction false} RadixGrows(a: nat, b: nat)
    requires a <= b
    ensures Radix(a) <= Radix(b)
    decreases b
  {
    if a < b {
      RadixGrows(a, b - 1);
    }
  }

  /** Every element of an integer array fits the unsigned type of the same width
      once none is negative, so its maximum is below 2**64. */
  lemma NonNegativeFitsSameWidth(a: ValidArray)
    requires IsInteger(a.dtype) && |a.elems| > 0
    requires forall i :: 0 <= i < |a.elems| ==> a.elems[i].i >= 0
    ensures forall i :: 0 <= i < |a.elems| ==> UnsignedFits(a.elems[i].i, ItemSize(a.dtype))
    ensures MaxOf(IntsOf(a.elems)) < 0x1_0000_0000_0000_0000
  {
    RadixValues();
    RadixGrows(ItemSize(a.dtype), 8);
    var xs := IntsOf(a.elems);
    var k :| 0 <= k < |xs| && xs[k] == MaxOf(xs);
    assert Fits(a.dtype, a.elems[k]);
  }

  /** A condition `_shrink_uint` relies on holding for the array: the type is
      unsigned, or signed with no negative element. */
  predicate Narrowable(a: ValidArray)
  {
    && IsInteger(a.dtype)
    && (IsSigned(a.dtype) ==> forall i :: 0 <= i < |a.elems| ==> a.elems[i].i >= 0)
  }

  datatype ShrinkError =
    | Unset            // the array is `None`, so `arr.array.dtype` raises
    | EmptyReduction   // `min()` / `max()` of an empty integer array raises

  /** The narrowed array: the same elements, typed by the narrowest unsigned
      type that holds the largest. */
  function Narrowed(a: ValidArray): (r: ValidArray)
    requires Narrowable(a) && |a.elems| > 0
    ensures r.shape == a.shape && r.elems == a.elems && IsUnsigned(r.dtype)
    ensures ItemSize(r.dtype) <= ItemSize(a.dtype)
  {
    NonNegativeFitsSameWidth(a);
    var xs := IntsOf(a.elems);
    var d := SmallestUnsigned(MaxOf(xs));
    assert UnsignedFits(MaxOf(xs), ItemSize(SameWidthUnsigned(a.dtype)));
    var b := NdArray(d, a.shape, a.elems);
    assert forall i :: 0 <= i < |b.elems| ==> Fits(d, b.elems[i]) by {
      forall i | 0 <= i < |b.elems| ensures Fits(d, b.elems[i]) {
        assert xs[i] <= MaxOf(xs);
      }
    }
    b
  }

  /** `_shrink_uint`: an unsigned array, or a signed one whose minimum is not
      negative, is recast to `np.min_scalar_type(max)`; any other array is left
      as it is. The reductions raise on an empty integer array. */
  function ShrinkUint(inst: ArrayInstance): (r: Result<ArrayInstance, ShrinkError>)
    ensures r.Err? <==> inst.data.None? || (IsInteger(inst.data.value.dtype) && |inst.data.value.elems| == 0)
    ensures r.Ok? ==> r.value.data.Some?
                      && r.value.data.value.shape == inst.data.value.shape
                      && r.value.data.value.elems == inst.data.value.elems
                      && ItemSize(r.value.data.value.dtype) <= ItemSize(inst.data.value.dtype)
    ensures r.Ok? && !Narrowable(inst.data.value) ==> r.value == inst
    ensures r.Ok? && Narrowable(inst.data.value) ==>
              && IsUnsigned(r.value.data.value.dtype)
              && forall u :: IsUnsigned(u) && (forall i :: 0 <= i < |inst.data.value.elems| ==> Fits(u, inst.data.value.elems[i]))
                             ==> ItemSize(r.value.data.value.dtype) <= ItemSize(u)
  {
    match inst.data
    case None => Err(Unset)
    case Some(a) =>
      if !IsInteger(a.dtype) then Ok(inst)
      else if |a.elems| == 0 then Err(EmptyReduction)
      else if IsSigned(a.dtype) && MinOf(IntsOf(a.elems)) < 0 then Ok(inst)
      else
        var b := Narrowed(a);
        ShrinkMinimal(a);
        Ok(ArrayInstance(Some(b)))
  }

  /** The chosen type is the narrowest unsigned type that holds every element. */
  lemma ShrinkMinimal(a: ValidArray)
    requires Narrowable(a) && |a.elems| > 0
    ensures forall u :: IsUnsigned(u) && (forall i :: 0 <= i < |a.elems| ==> Fits(u, a.elems[i]))
                        ==> ItemSize(Narrowed(a).dtype) <= ItemSize(u)
  {
    NonNegativeFitsSameWidth(a);
    var xs := IntsOf(a.elems);
    var k :| 0 <= k < |xs| && xs[k] == MaxOf(xs);
    forall u | IsUnsigned(u) && (forall i :: 0 <= i < |a.elems| ==> Fits(u, a.elems[i]))
      ensures ItemSize(Narrowed(a).dtype) <= ItemSize(u)
    {
      assert Fits(u, a.elems[k]);
    }
  }

  /** Narrowing twice is narrowing once. */
  lemma ShrinkUintIdempotent(inst: ArrayInstance)
    requires ShrinkUint(inst).Ok?
    ensures ShrinkUint(ShrinkUint(inst).value) == ShrinkUint(inst)
  {
    var a := inst.data.value;
    if Narrowable(a) && IsInteger(a.dtype) && |a.elems| > 0 {
      var b := ShrinkUint(inst).value.data.value;
      assert b == Narrowed(a);
      assert Narrowable(b);
      assert IntsOf(b.elems) == IntsOf(a.elems);
    }
  }

  /** A signed array with a negative element keeps its type. */
  lemma ShrinkUintKeepsNegative()
    ensures var a := NdArray(Int16, [2], [IntVal(-1), IntVal(300)]);
            WellFormed(a) && ShrinkUint(ArrayInstance(Some(a))) == Ok(ArrayInstance(Some(a)))
  {
    var a := NdArray(Int16, [2], [IntVal(-1), IntVal(300)]);
    RadixValues();
    assert Product([2]) == 2;
    assert WellFormed(a);
    assert MinOf(IntsOf(a.elems)) <= -1;
  }

  /** A non-negative `int64` array whose largest element is 300 becomes `uint16`. */
  lemma ShrinkUintNarrowsToUint16()
    ensures var a := NdArray(Int64, [2], [IntVal(0), IntVal(300)]);
            && WellFormed(a)
            && var r := ShrinkUint(ArrayInstance(Some(a)));
               r.Ok? && r.value.data.value.dtype == Uint16
  {
    var a := NdArray(Int64, [2], [IntVal(0), IntVal(300)]);
    RadixValues();
    RadixGrows(2, 8);
    assert Product([2]) == 2;
    assert WellFormed(a);
    var xs := IntsOf(a.elems);
    assert MaxOf(xs) == 300 by {
      assert MaxOf(xs[1..]) == 300;
    }
    assert MinOf(xs) == 0 by {
      assert MinOf(xs[1..]) == 300;
    }
  }

  /** Exact powers of two: 1, 2, 4, .... */
  predicate IsPowerOfTwo(n: int)
    decreases if n < 0 then 0 else n
  {
    n == 1 || (n > 1 && n % 2 == 0 && IsPowerOfTwo(n / 2))
  }

  /** `n` is `2**k` for some `k`. */
  ghost predicate IsPow2(n: int)
  {
    exists k: nat :: Pow2(k) == n
  }

  lemma {:induction false} PowerOfTwoIsPow2(n: int)
    requires IsPowerOfTwo(n)
    ensures IsPow2(n)
    decreases if n < 0 then 0 else n
  {
    if n == 1 {
      assert Pow2(0) == 1;
    } else {
      PowerOfTwoIsPow2(n / 2);
      var k: nat :| Pow2(k) == n / 2;
      assert Pow2(k + 1) == n;
    }
  }

  lemma {:induction false} Pow2IsPowerOfTwo(k: nat)
    ensures IsPowerOfTwo(Pow2(k))
  {
    if k > 0 {
      Pow2IsPowerOfTwo(k - 1);
      assert Pow2(k) / 2 == Pow2(k - 1);
    }
  }

  /** The recursive test agrees with the definition `n == 2**k`. */
  lemma PowerOfTwoCharacterization(n: int)
    ensures IsPowerOfTwo(n) <==> IsPow2(n)
  {
    if IsPowerOfTwo(n) {
      PowerOfTwoIsPow2(n);
    }
    if IsPow2(n) {
      var k: nat :| Pow2(k) == n;
      Pow2IsPowerOfTwo(k);
    }
  }

  /** Every count passes the octree test. */
  predicate AllOctreeCountsOk(counts: seq<int>)
  {
    forall i :: 0 <= i < |counts| ==> OctreeCountOk(counts[i])
  }

  /** The octree test on one count, `np.trunc(np.log2(n)) == np.log2(n)` on
      exact arithmetic: `log2(0)` is minus infinity, which equals its own
      truncation, so 0 passes; a negative count gives NaN and fails. */
  predicate OctreeCountOk(n: int)
  {
    n == 0 || IsPowerOfTwo(n)
  }

  datatype Mode = Octree | Full

  datatype SubblockError =
    | CountBelowOne(index: nat)      // `_validate_subblock_count`
    | NotPowerOfTwo(index: nat)      // `_validate` in octree mode
    | ShrinkFailed(err: ShrinkError)

  /** `RegularSubblocks._validate_subblock_count`: the first count below one
      is reported. */
  function ValidateSubblockCount(counts: seq<int>): (r: Outcome<SubblockError>)
    ensures r.Pass? <==> forall i :: 0 <= i < |counts| ==> counts[i] >= 1
    ensures r.Fail? ==> r.error.CountBelowOne? && r.error.index < |counts| && counts[r.error.index] < 1
                        && forall i :: 0 <= i < r.error.index ==> counts[i] >= 1
  {
    match FirstFailure(counts, n => n >= 1, 0)
    case None => Pass
    case Some(i) => Fail(CountBelowOne(i))
  }

  /** Regular sub-blocks. `subblockCount` holds the three counts of the parent
      grid; the index arrays are `None` until they are set. */
  datatype RegularSubblocks = RegularSubblocks(
    subblockCount: seq<int>,
    mode: Option<Mode>,
    parentIndices: Option<ArrayInstance>,
    corners: Option<ArrayInstance>)

  function ShrinkField(field: Option<ArrayInstance>): (r: Result<ArrayInstance, SubblockError>)
    ensures r.Ok? <==> field.Some? && ShrinkUint(field.value).Ok?
    ensures r.Ok? ==> r.value == ShrinkUint(field.value).value
  {
    match field
    case None => Err(ShrinkFailed(Unset))
    case Some(inst) =>
      match ShrinkUint(inst)
      case Err(e) => Err(ShrinkFailed(e))
      case Ok(narrow) => Ok(narrow)
  }

  /** `RegularSubblocks._validate`: both index arrays are narrowed, then in
      octree mode every count must be a power of two. `full` mode and no mode
      add nothing. */
  function ValidateRegular(rs: RegularSubblocks): (r: Result<RegularSubblocks, SubblockError>)
    ensures r.Ok? <==>
              && ShrinkField(rs.parentIndices).Ok? && ShrinkField(rs.corners).Ok?
              && (rs.mode == Some(Octree) ==> AllOctreeCountsOk(rs.subblockCount))
    ensures r.Ok? ==>
              && r.value.subblockCount == rs.subblockCount && r.value.mode == rs.mode
              && r.value.parentIndices == Some(ShrinkField(rs.parentIndices).value)
              && r.value.corners == Some(ShrinkField(rs.corners).value)
    ensures r.Err? && r.error.NotPowerOfTwo? ==>
              && rs.mode == Some(Octree) && r.error.index < |rs.subblockCount|
              && !OctreeCountOk(rs.subblockCount[r.error.index])
  {
    var parents :- ShrinkField(rs.parentIndices);
    var corners :- ShrinkField(rs.corners);
    if rs.mode == Some(Octree) then
      match FirstFailure(rs.subblockCount, OctreeCountOk, 0)
      case Some(i) => Err(NotPowerOfTwo(i))
      case None => Ok(rs.(parentIndices := Some(parents), corners := Some(corners)))
    else Ok(rs.(parentIndices := Some(parents), corners := Some(corners)))
  }

  /** Every count is a power of two. */
  ghost predicate AllPowersOfTwo(counts: seq<int>)
  {
    forall i :: 0 <= i < |counts| ==> IsPow2(counts[i])
  }

  /** On counts of at least one, the octree test is the power-of-two test. */
  lemma OctreeTestOnPositiveCounts(counts: seq<int>)
    requires forall i :: 0 <= i < |counts| ==> counts[i] >= 1
    ensures AllOctreeCountsOk(counts) <==> AllPowersOfTwo(counts)
  {
    forall i | 0 <= i < |counts|
      ensures OctreeCountOk(counts[i]) <==> IsPow2(counts[i])
    {
      PowerOfTwoCharacterization(counts[i]);
    }
  }

  /** Counts that passed `_validate_subblock_count` pass the octree test
      exactly when all of them are powers of two. */
  lemma OctreeAcceptsPowersOfTwo(rs: RegularSubblocks)
    requires ValidateSubblockCount(rs.subblockCount).Pass?
    requires rs.mode == Some(Octree)
    requires ShrinkField(rs.parentIndices).Ok? && ShrinkField(rs.corners).Ok?
    ensures ValidateRegular(rs).Ok? <==> AllPowersOfTwo(rs.subblockCount)
  {
    OctreeTestOnPositiveCounts(rs.subblockCount);
  }

  /** `(8, 4, 2)` passes in octree mode and `(8, 5, 2)` does not; in `full`
      mode or without a mode, `(8, 5, 2)` passes. */
  lemma OctreeExamples(parents: ArrayInstance, corners: ArrayInstance)
    requires ShrinkUint(parents).Ok? && ShrinkUint(corners).Ok?
    ensures ValidateRegular(RegularSubblocks([8, 4, 2], Some(Octree), Some(parents), Some(corners))).Ok?
    ensures ValidateRegular(RegularSubblocks([8, 5, 2], Some(Full), Some(parents), Some(corners))).Ok?
    ensures ValidateRegular(RegularSubblocks([8, 5, 2], None, Some(parents), Some(corners))).Ok?
  {
    SmallPowers();
    assert AllOctreeCountsOk([8, 4, 2]);
  }

  /** The counts the examples use. */
  lemma SmallPowers()
    ensures IsPowerOfTwo(2) && IsPowerOfTwo(4) && IsPowerOfTwo(8) && !IsPowerOfTwo(5)
  {
    assert IsPowerOfTwo(1);
    assert IsPowerOfTwo(2) by { assert 2 / 2 == 1; }
    assert IsPowerOfTwo(4) by { assert 4 / 2 == 2; }
    assert IsPowerOfTwo(8) by { assert 8 / 2 == 4; }
    assert 5 % 2 == 1;
  }

  /** In octree mode, `[8, 5, 2]` fails at its second count. */
  lemma OctreeRejectsFive(parents: ArrayInstance, corners: ArrayInstance)
    requires ShrinkUint(parents).Ok? && ShrinkUint(corners).Ok?
    ensures ValidateRegular(RegularSubblocks([8, 5, 2], Some(Octree), Some(parents), Some(corners)))
            == Err(NotPowerOfTwo(1))
  {
    SmallPowers();
    assert FirstFailure([8, 5, 2], OctreeCountOk, 1) == Some(1);
  }

  /** The total number of sub-blocks, `len(corners)`; `None` when the corners
      are unset. `len` of an `Array` whose array is unset raises. */
  function NumSubblocks(corners: Option<ArrayInstance>): (r: Result<Option<nat>, ArrayError>)
    ensures r == Ok(None) <==> corners.None?
    ensures r.Err? <==> corners.Some? && corners.value.data.None?
    ensures r.Ok? && r.value.Some? ==> r.value.value == corners.value.data.value.shape[0]
  {
    match corners
    case None => Ok(None)
    case Some(inst) =>
      var n :- Length(inst);
      Ok(Some(n))
  }

  /** Free-form sub-blocks; their corners are floating-point. */
  datatype FreeformSubblocks = FreeformSubblocks(
    parentIndices: Option<ArrayInstance>,
    corners: Option<ArrayInstance>)

  /** `FreeformSubblocks._validate`: only the parent indices are narrowed. */
  function ValidateFreeform(fs: FreeformSubblocks): (r: Result<FreeformSubblocks, SubblockError>)
    ensures r.Ok? <==> ShrinkField(fs.parentIndices).Ok?
    ensures r.Ok? ==> r.value.corners == fs.corners
                      && r.value.parentIndices == Some(ShrinkField(fs.parentIndices).value)
  {
    var parents :- ShrinkField(fs.parentIndices);
    Ok(fs.(parentIndices := Some(parents)))
  }

  /** Regular validation narrows integer corners; free-form validation leaves
      the corners alone even when they could be narrowed. */
  lemma CornersNarrowedOnlyWhenRegular(parents: ArrayInstance, corners: ArrayInstance)
    requires ShrinkUint(parents).Ok?
    requires corners.data.Some? && corners.data.value.dtype == Int64
    requires |corners.data.value.elems| > 0 && Narrowable(corners.data.value)
    ensures var r := ValidateRegular(RegularSubblocks([1, 1, 1], None, Some(parents), Some(corners)));
            r.Ok? && r.value.corners.value.data.value.dtype != Int64
    ensures var f := ValidateFreeform(FreeformSubblocks(Some(parents), Some(corners)));
            f.Ok? && f.value.corners == Some(corners)
  {
  }

  /** Rows of a two-dimensional integer array, row-major. */
  function Rows(a: ValidArray): (r: seq<seq<int>>)
    requires |a.shape| == 2 && IsInteger(a.dtype)
    ensures |r| == a.shape[0]
    ensures forall i :: 0 <= i < |r| ==> |r[i]| == a.shape[1]
  {
    var h, w := a.shape[0], a.shape[1];
    assert Product(a.shape) == h * w by {
      assert a.shape[1..] == [w];
      assert Product([w]) == w;
    }
    seq(h, i requires 0 <= i < h =>
      seq(w, j requires 0 <= j < w =>
        RowMajorIndex(i, j, h, w);
        a.elems[i * w + j].i))
  }

  lemma RowMajorIndex(i: nat, j: nat, h: nat, w: nat)
    requires i < h && j < w
    ensures i * w + j < h * w
  {
    assert (i + 1) * w <= h * w;
  }

  /** A corners row lies in its parent with non-zero size on every axis:
      `0 <= min < max <= count`. */
  predicate RowWithinParent(counts: seq<int>, row: seq<int>)
    requires |counts| == 3 && |row| == 6
  {
    forall k :: 0 <= k < 3 ==> 0 <= row[k] < row[k + 3] <= counts[k]
  }

  /** A corners row covering the whole parent. */
  predicate CoversParent(counts: seq<int>, row: seq<int>)
    requires |counts| == 3 && |row| == 6
  {
    row == [0, 0, 0, counts[0], counts[1], counts[2]]
  }

  /** What `full` mode asks of a row: the whole parent or a single cell. */
  predicate FullModeRow(counts: seq<int>, row: seq<int>)
    requires |counts| == 3 && |row| == 6
  {
    CoversParent(counts, row) || forall k :: 0 <= k < 3 ==> row[k + 3] - row[k] == 1
  }

  /** Rows with the same parent are contiguous in the arrays. */
  predicate ParentsContiguous(parents: seq<seq<int>>)
  {
    forall i, k :: 0 <= i < k < |parents| && parents[i] == parents[k] ==>
      forall j :: i < j < k ==> parents[j] == parents[i]
  }

  /** Contiguity in one pass: a parent that differs from the previous row's
      must not have been seen before. */
  method CheckContiguous(parents: seq<seq<int>>) returns (ok: bool)
    ensures ok <==> ParentsContiguous(parents)
  {
    if |parents| == 0 {
      return true;
    }
    var seen: set<seq<int>> := {parents[0]};
    var n := 1;
    while n < |parents|
      invariant 1 <= n <= |parents|
      invariant seen == set i | 0 <= i < n :: parents[i]
      invariant ParentsContiguous(parents[..n])
    {
      var p := parents[n];
      if p != parents[n - 1] && p in seen {
        var i :| 0 <= i < n && parents[i] == p;
        assert parents[..n + 1][i] == parents[..n + 1][n];
        assert parents[..n + 1][n - 1] != parents[..n + 1][i];
        PrefixNotContiguous(parents, n + 1);
        return false;
      }
      ContiguousStep(parents, n, seen);
      seen := seen + {p};
      n := n + 1;
    }
    assert parents[..n] == parents;
    return true;
  }

  lemma ContiguousStep(parents: seq<seq<int>>, n: nat, seen: set<seq<int>>)
    requires 1 <= n < |parents|
    requires seen == set i | 0 <= i < n :: parents[i]
    requires ParentsContiguous(parents[..n])
    requires parents[n] == parents[n - 1] || parents[n] !in seen
    ensures ParentsContiguous(parents[..n + 1])
  {
    var q := parents[..n + 1];
    forall i, k | 0 <= i < k < |q| && q[i] == q[k]
      ensures forall j :: i < j < k ==> q[j] == q[i]
    {
      if k == n {
        assert parents[i] in seen;
        assert parents[n] == parents[n - 1];
        if i < n - 1 {
          assert parents[..n][i] == parents[..n][n - 1];
        }
      } else {
        assert parents[..n][i] == parents[..n][k];
      }
    }
  }

  lemma PrefixNotContiguous(parents: seq<seq<int>>, m: nat)
    requires m <= |parents| && !ParentsContiguous(parents[..m])
    ensures !ParentsContiguous(parents)
  {
    var q := parents[..m];
    var i, k, j :| 0 <= i < k < |q| && q[i] == q[k] && i < j < k && q[j] != q[i];
    assert parents[i] == parents[k] && parents[j] != parents[i];
  }

  /** One parent block at the origin of the grid. */
  function OneParent(): (r: ValidArray)
    ensures r.shape == [1, 3] && r.dtype == Int64 && |r.elems| == 3
  {
    RadixValues();
    var a := NdArray(Int64, [1, 3], [IntVal(0), IntVal(0), IntVal(0)]);
    assert Product([1, 3]) == 3 by {
      assert [1, 3][1..] == [3];
      assert Product([3]) == 3;
    }
    a
  }

  /** One corners row `(0, 0, 0, 9, 9, 9)`. */
  function FarCorners(): (r: ValidArray)
    ensures r.shape == [1, 6] && r.dtype == Int64 && |r.elems| == 6
    ensures r.elems[0] == IntVal(0) && r.elems[3] == IntVal(9)
  {
    RadixValues();
    var a := NdArray(Int64, [1, 6], [IntVal(0), IntVal(0), IntVal(0), IntVal(9), IntVal(9), IntVal(9)]);
    assert Product([1, 6]) == 6 by {
      assert [1, 6][1..] == [6];
      assert Product([6]) == 6;
    }
    a
  }

  /** `_validate` checks none of the documented row geometry: a corners row
      reaching far outside a 2 x 2 x 2 parent grid is accepted in `full` mode,
      although it neither lies in the parent nor is a `full` mode row. */
  lemma GeometryNotValidated()
    ensures var rs := RegularSubblocks([2, 2, 2], Some(Full), Some(ArrayInstance(Some(OneParent()))),
                                       Some(ArrayInstance(Some(FarCorners()))));
            && ValidateRegular(rs).Ok?
            && !RowWithinParent([2, 2, 2], Rows(FarCorners())[0])
            && !FullModeRow([2, 2, 2], Rows(FarCorners())[0])
  {
    var row := Rows(FarCorners())[0];
    assert row[0] == 0 && row[3] == 9 by {
      assert row[0] == FarCorners().elems[0 * 6 + 0].i;
      assert row[3] == FarCorners().elems[0 * 6 + 3].i;
    }
    assert !(0 <= row[0] < row[0 + 3] <= [2, 2, 2][0]);
    assert row[3] - row[0] != 1;
    assert row != [0, 0, 0, 2, 2, 2] by {
      assert [0, 0, 0, 2, 2, 2][3] == 2;
    }
  }

  /** Three parent rows `(0, 0, 0), (1, 0, 0), (0, 0, 0)`: the first parent
      comes back after another one. */
  function SplitParents(): (r: ValidArray)
    ensures r.shape == [3, 3] && r.dtype == Int64 && |r.elems| == 9
    ensures r.elems[0] == IntVal(0) && r.elems[1] == IntVal(0) && r.elems[2] == IntVal(0)
    ensures r.elems[3] == IntVal(1)
    ensures r.elems[6] == IntVal(0) && r.elems[7] == IntVal(0) && r.elems[8] == IntVal(0)
  {
    RadixValues();
    var a := NdArray(Int64, [3, 3], [IntVal(0), IntVal(0), IntVal(0),
                                     IntVal(1), IntVal(0), IntVal(0),
                                     IntVal(0), IntVal(0), IntVal(0)]);
    assert Product([3, 3]) == 9 by {
      assert [3, 3][1..] == [3];
      assert Product([3]) == 3;
    }
    a
  }

  /** Three corners rows, each the whole of a 1 x 1 x 1 parent. */
  function WholeCorners(): (r: ValidArray)
    ensures r.shape == [3, 6] && r.dtype == Int64 && |r.elems| == 18
  {
    RadixValues();
    var row := [IntVal(0), IntVal(0), IntVal(0), IntVal(1), IntVal(1), IntVal(1)];
    var a := NdArray(Int64, [3, 6], row + row + row);
    assert Product([3, 6]) == 18 by {
      assert [3, 6][1..] == [6];
      assert Product([6]) == 6;
    }
    a
  }

  /** `_validate` does not check that rows of one parent are contiguous: rows
      whose parents are `p, q, p` are accepted. */
  lemma ContiguityNotValidated()
    ensures var rs := RegularSubblocks([1, 1, 1], None, Some(ArrayInstance(Some(SplitParents()))),
                                       Some(ArrayInstance(Some(WholeCorners()))));
            && ValidateRegular(rs).Ok?
            && !ParentsContiguous(Rows(SplitParents()))
  {
    var rows := Rows(SplitParents());
    assert rows[1][0] == 1 && rows[0][0] == 0 by {
      assert rows[1][0] == SplitParents().elems[1 * 3 + 0].i;
      assert rows[0][0] == SplitParents().elems[0 * 3 + 0].i;
    }
    assert rows[0] == rows[2] by {
      assert rows[0][1] == SplitParents().elems[0 * 3 + 1].i;
      assert rows[0][2] == SplitParents().elems[0 * 3 + 2].i;
      assert rows[2][0] == SplitParents().elems[2 * 3 + 0].i;
      assert rows[2][1] == SplitParents().elems[2 * 3 + 1].i;
      assert rows[2][2] == SplitParents().elems[2 * 3 + 2].i;
    }
    assert rows[1] != rows[0];
  }
}
