/** Status validation of attributes: the `status_messages` rules, the
    whole-attribute check of the `status` array against the messages and the
    values, and the valid-value mask and filter built from the status. A
    status of 0 marks a valid value, 1 a null one, and a higher status points
    at a message saying why the value is invalid. Boolean status arrays are
    their 0 / 1 values. */
module Attribute {
  import opened Results
  import opened SeqOps

  /** `str.isspace()` for one character: the characters `str.strip()` removes. */
  predicate IsPythonSpace(c: char)
  {
    || ('\t' <= c <= '\r')
    || (0x1C <= c as int <= 0x20)
    || c as int == 0x85 || c as int == 0xA0 || c as int == 0x1680
    || (0x2000 <= c as int <= 0x200A)
    || c as int == 0x2028 || c as int == 0x2029 || c as int == 0x202F
    || c as int == 0x205F || c as int == 0x3000
  }

  /** `not message.strip()`: the message is empty or only whitespace. */
  predicate IsBlank(message: string)
  {
    forall i :: 0 <= i < |message| ==> IsPythonSpace(message[i])
  }

  datatype StatusError =
    | ReservedValid                   // a message for status 0
    | ReservedNull                    // a message for status 1
    | NegativeKey                     // a message for a negative status
    | BlankMessage(key: int)          // an empty or whitespace-only message
    | EmptyStatus                     // `min()` of an empty status array raises
    | NegativeStatus                  // a negative status value
    | MissingMessages(missing: seq<int>)  // statuses above 1 without a message
    | LengthMismatch(expected: nat, actual: nat)
    | MaskLengthMismatch              // boolean indexing with a mask of another length

  /** The status messages in the dictionary's insertion order. */
  type Messages = seq<(int, string)>

  /** The rule one `status_messages` entry breaks, checked in the source's order. */
  function EntryError(entry: (int, string)): (r: Option<StatusError>)
    ensures r.None? <==> entry.0 >= 2 && !IsBlank(entry.1)
  {
    if entry.0 == 0 then Some(ReservedValid)
    else if entry.0 == 1 then Some(ReservedNull)
    else if entry.0 < 0 then Some(NegativeKey)
    else if IsBlank(entry.1) then Some(BlankMessage(entry.0))
    else None
  }

  /** `Attribute._validate_status_messages`: every key is at least 2 and every
      message has a non-whitespace character; the first bad entry is reported. */
  function ValidateStatusMessages(msgs: Messages): (r: Outcome<StatusError>)
    ensures r.Pass? <==> forall i :: 0 <= i < |msgs| ==> msgs[i].0 >= 2 && !IsBlank(msgs[i].1)
    ensures r.Fail? ==> exists i :: 0 <= i < |msgs| && EntryError(msgs[i]) == Some(r.error)
                                    && forall j :: 0 <= j < i ==> EntryError(msgs[j]).None?
  {
    match FirstFailure(msgs, e => EntryError(e).None?, 0)
    case None => Pass
    case Some(i) => Fail(EntryError(msgs[i]).value)
  }

  /** The keys of the messages: the statuses that have a message. */
  function Keys(msgs: Messages): (r: set<int>)
    ensures forall k :: k in r <==> exists i :: 0 <= i < |msgs| && msgs[i].0 == k
  {
    set i | 0 <= i < |msgs| :: msgs[i].0
  }

  /** Status values with a meaning: 0, 1, or a key of the messages. */
  predicate IsKnown(v: int, msgs: Messages)
  {
    v == 0 || v == 1 || v in Keys(msgs)
  }

  /** Sorted without repeats, as `np.unique` returns its values. */
  predicate StrictlyIncreasing(xs: seq<int>)
  {
    forall i, j :: 0 <= i < j < |xs| ==> xs[i] < xs[j]
  }

  /** Inserts `x` into a strictly increasing sequence. */
  function Insert(sorted: seq<int>, x: int): (r: seq<int>)
    requires StrictlyIncreasing(sorted)
    ensures StrictlyIncreasing(r)
    ensures forall v :: v in r <==> v in sorted || v == x
  {
    if |sorted| == 0 then [x]
    else if x < sorted[0] then [x] + sorted
    else if x == sorted[0] then sorted
    else
      var rest := Insert(sorted[1..], x);
      assert forall v :: v in sorted <==> v == sorted[0] || v in sorted[1..];
      assert forall k :: 0 <= k < |rest| ==> sorted[0] < rest[k] by {
        forall k | 0 <= k < |rest| ensures sorted[0] < rest[k] {
          assert rest[k] in rest;
        }
      }
      [sorted[0]] + rest
  }

  /** The distinct values of `xs` that `keep` accepts, in increasing order. */
  function UniqueSorted(xs: seq<int>, keep: int -> bool): (r: seq<int>)
    ensures StrictlyIncreasing(r)
    ensures forall v :: v in r <==> v in xs && keep(v)
  {
    if |xs| == 0 then []
    else
      var rest := UniqueSorted(xs[..|xs| - 1], keep);
      var last := xs[|xs| - 1];
      assert forall v :: v in xs <==> v in xs[..|xs| - 1] || v == last;
      if keep(last) then Insert(rest, last) else rest
  }

  /** `Attribute._validate_all_status_attrs`. With no status there is nothing to
      check. Otherwise, in order: the array must be non-empty (for `min()`),
      have no negative value, have a message for every status above 1, and
      be as long as the values array. */
  function ValidateAllStatus(status: Option<seq<int>>, msgs: Messages, arrayLength: nat): (r: Outcome<StatusError>)
    ensures r.Pass? <==>
              || status.None?
              || (&& |status.value| > 0
                  && (forall i :: 0 <= i < |status.value| ==> IsKnown(status.value[i], msgs) && status.value[i] >= 0)
                  && |status.value| == arrayLength)
    ensures r == Fail(EmptyStatus) <==> status == Some([])
    ensures r == Fail(NegativeStatus) <==>
              status.Some? && exists i :: 0 <= i < |status.value| && status.value[i] < 0
    ensures r.Fail? && r.error.MissingMessages? ==>
              && status.Some?
              && (forall i :: 0 <= i < |status.value| ==> status.value[i] >= 0)
              && |r.error.missing| > 0 && StrictlyIncreasing(r.error.missing)
              && forall v :: v in r.error.missing <==> v in status.value && !IsKnown(v, msgs)
    ensures r.Fail? ==>
              r.error.EmptyStatus? || r.error.NegativeStatus? || r.error.MissingMessages? || r.error.LengthMismatch?
    ensures (r.Fail? && r.error.MissingMessages?) <==>
              && status.Some? && |status.value| > 0
              && (forall i :: 0 <= i < |status.value| ==> status.value[i] >= 0)
              && exists i :: 0 <= i < |status.value| && !IsKnown(status.value[i], msgs)
    ensures r.Fail? && r.error.LengthMismatch? ==>
              && r.error == LengthMismatch(arrayLength, |status.value|) && arrayLength != |status.value|
              && forall i :: 0 <= i < |status.value| ==> IsKnown(status.value[i], msgs) && status.value[i] >= 0
  {
    match status
    case None => Pass
    case Some(s) =>
      if |s| == 0 then Fail(EmptyStatus)
      else if MinOf(s) < 0 then Fail(NegativeStatus)
      else
        var missing := UniqueSorted(s, v => !IsKnown(v, msgs));
        assert forall i :: 0 <= i < |s| ==> s[i] in s;
        if |missing| > 0 then
          assert missing[0] in s;
          Fail(MissingMessages(missing))
        else if |s| != arrayLength then Fail(LengthMismatch(arrayLength, |s|))
        else
          Pass
  }

  /** `status.array == 0`, element by element. */
  function ZeroMask(status: seq<int>): (r: seq<bool>)
    ensures |r| == |status| && forall i :: 0 <= i < |status| ==> r[i] == (status[i] == 0)
  {
    seq(|status|, i requires 0 <= i < |status| => status[i] == 0)
  }

  /** `Attribute.valid_mask`: `None` with no status or when every value is
      valid, otherwise the mask that is true exactly at the valid values. */
  function ValidMask(status: Option<seq<int>>): (r: Option<seq<bool>>)
    ensures r.None? <==> status.None? || forall i :: 0 <= i < |status.value| ==> status.value[i] == 0
    ensures r.Some? ==> |r.value| == |status.value|
                        && forall i :: 0 <= i < |status.value| ==> r.value[i] == (status.value[i] == 0)
  {
    match status
    case None => None
    case Some(s) =>
      var mask := ZeroMask(s);
      if forall i :: 0 <= i < |mask| ==> mask[i] then None else Some(mask)
  }

  /** The attribute's values: a Python list (the strings of a `StringList`) or
      a numpy array (rows of a vector attribute count as single values). */
  datatype Values<T> = ListValues(items: seq<T>) | ArrayValues(items: seq<T>)

  /** The values whose mask entry is true, in their original order, pairing
      values and mask entries as `zip` does (up to the shorter length). */
  function Select<T>(xs: seq<T>, mask: seq<bool>): (r: seq<T>)
    ensures |r| <= |xs| && |r| <= |mask|
    decreases |xs|
  {
    if |xs| == 0 || |mask| == 0 then []
    else (if mask[0] then [xs[0]] else []) + Select(xs[1..], mask[1..])
  }

  /** Number of zero statuses: the values `valid_values` keeps. */
  function CountZero(status: seq<int>): (r: nat)
    ensures r <= |status|
  {
    if |status| == 0 then 0 else (if status[0] == 0 then 1 else 0) + CountZero(status[1..])
  }

  /** `Attribute.valid_values_and_mask`: the valid values and the mask. An
      unset values array gives neither; a mask of `None` keeps every value.
      A list is filtered through `zip`; a numpy array is indexed by the mask,
      which raises unless mask and array have the same length. */
  function ValidValuesAndMask<T>(values: Option<Values<T>>, status: Option<seq<int>>)
    : (r: Result<(Option<seq<T>>, Option<seq<bool>>), StatusError>)
    ensures values.None? ==> r == Ok((None, None))
    ensures r.Err? <==> && values.Some? && values.value.ArrayValues?
                        && ValidMask(status).Some? && |ValidMask(status).value| != |values.value.items|
    ensures r.Ok? && values.Some? ==>
              && r.value.1 == ValidMask(status)
              && r.value.0.Some?
              && (ValidMask(status).None? ==> r.value.0.value == values.value.items)
              && (ValidMask(status).Some? ==> r.value.0.value == Select(values.value.items, ValidMask(status).value))
  {
    match values
    case None => Ok((None, None))
    case Some(v) =>
      match ValidMask(status)
      case None => Ok((Some(v.items), None))
      case Some(mask) =>
        if v.ArrayValues? && |mask| != |v.items| then Err(MaskLengthMismatch)
        else Ok((Some(Select(v.items, mask)), Some(mask)))
  }

  /** `Attribute.valid_values`. */
  function ValidValues<T>(values: Option<Values<T>>, status: Option<seq<int>>): (r: Result<Option<seq<T>>, StatusError>)
    ensures r.Ok? <==> ValidValuesAndMask(values, status).Ok?
    ensures r.Ok? ==> r.value == ValidValuesAndMask(values, status).value.0
  {
    var (vs, _) :- ValidValuesAndMask(values, status);
    Ok(vs)
  }

  lemma {:induction false} SelectZeroMaskLength<T>(xs: seq<T>, status: seq<int>)
    requires |xs| == |status|
    ensures |Select(xs, ZeroMask(status))| == CountZero(status)
    decreases |xs|
  {
    if |xs| > 0 {
      var mask := ZeroMask(status);
      assert mask[1..] == ZeroMask(status[1..]);
      SelectZeroMaskLength(xs[1..], status[1..]);
    }
  }

  function Shift(idx: seq<nat>): (r: seq<nat>)
    ensures |r| == |idx| && forall k :: 0 <= k < |idx| ==> r[k] == idx[k] + 1
  {
    seq(|idx|, k requires 0 <= k < |idx| => idx[k] + 1)
  }

  /** The positions of the true entries, in increasing order. */
  function TrueIndices(mask: seq<bool>): (r: seq<nat>)
    ensures forall k :: 0 <= k < |r| ==> r[k] < |mask|
    decreases |mask|
  {
    if |mask| == 0 then []
    else (if mask[0] then [0] else []) + Shift(TrueIndices(mask[1..]))
  }

  /** Only true positions are listed. */
  lemma {:induction false} TrueIndicesMarked(mask: seq<bool>)
    ensures forall k :: 0 <= k < |TrueIndices(mask)| ==> mask[TrueIndices(mask)[k]]
    decreases |mask|
  {
    if |mask| > 0 {
      TrueIndicesMarked(mask[1..]);
      var tail := TrueIndices(mask[1..]);
      var head: seq<nat> := if mask[0] then [0] else [];
      var r := head + Shift(tail);
      forall k | 0 <= k < |r| ensures mask[r[k]] {
        if k >= |head| {
          var t := tail[k - |head|];
          assert mask[1..][t];
          assert r[k] == t + 1;
        }
      }
    }
  }

  /** The positions are listed in increasing order, so each once. */
  lemma {:induction false} TrueIndicesIncreasing(mask: seq<bool>)
    ensures forall i, j :: 0 <= i < j < |TrueIndices(mask)| ==> TrueIndices(mask)[i] < TrueIndices(mask)[j]
    decreases |mask|
  {
    if |mask| > 0 {
      TrueIndicesIncreasing(mask[1..]);
      var tail := TrueIndices(mask[1..]);
      var head: seq<nat> := if mask[0] then [0] else [];
      var r := head + Shift(tail);
      forall i, j | 0 <= i < j < |r| ensures r[i] < r[j] {
        if i >= |head| {
          assert tail[i - |head|] < tail[j - |head|];
        }
      }
    }
  }

  /** Every true position is listed. */
  lemma {:induction false} TrueIndicesComplete(mask: seq<bool>)
    ensures forall i :: 0 <= i < |mask| && mask[i] ==> i in TrueIndices(mask)
    decreases |mask|
  {
    if |mask| > 0 {
      TrueIndicesComplete(mask[1..]);
      var tail := TrueIndices(mask[1..]);
      var head: seq<nat> := if mask[0] then [0] else [];
      var r := head + Shift(tail);
      forall i | 0 <= i < |mask| && mask[i] ensures i in r {
        if i == 0 {
          assert r[0] == 0;
        } else {
          assert mask[1..][i - 1];
          var k :| 0 <= k < |tail| && tail[k] == i - 1;
          assert r[|head| + k] == i;
        }
      }
    }
  }

  /** A value at each of the indices, in order. */
  function Pick<T>(xs: seq<T>, idx: seq<nat>): (r: seq<T>)
    requires forall k :: 0 <= k < |idx| ==> idx[k] < |xs|
    ensures |r| == |idx| && forall k :: 0 <= k < |idx| ==> r[k] == xs[idx[k]]
  {
    seq(|idx|, k requires 0 <= k < |idx| => xs[idx[k]])
  }

  /** The filter keeps exactly the values at the true mask positions, in
      their original order: the masked-in values `arr[mask]` denotes. */
  lemma {:induction false} SelectIsPick<T>(xs: seq<T>, mask: seq<bool>)
    requires |xs| == |mask|
    ensures Select(xs, mask) == Pick(xs, TrueIndices(mask))
    decreases |xs|
  {
    if |xs| > 0 {
      SelectIsPick(xs[1..], mask[1..]);
      var tail := TrueIndices(mask[1..]);
      assert Pick(xs[1..], tail) == Pick(xs, Shift(tail));
    }
  }

  /** For a validated attribute, `valid_values` keeps exactly the values with
      status 0, in order, and as many as there are zero statuses, whether the
      values are a list or a numpy array. */
  lemma ValidValuesOfValidated<T>(values: Values<T>, status: seq<int>, msgs: Messages)
    requires ValidateAllStatus(Some(status), msgs, |values.items|).Pass?
    ensures var r := ValidValues(Some(values), Some(status));
            && r.Ok? && r.value.Some?
            && |r.value.value| == CountZero(status)
            && r.value.value == Pick(values.items, TrueIndices(ZeroMask(status)))
  {
    var xs := values.items;
    SelectZeroMaskLength(xs, status);
    SelectIsPick(xs, ZeroMask(status));
    if ValidMask(Some(status)).None? {
      assert Select(xs, ZeroMask(status)) == xs by {
        SelectAllTrue(xs, ZeroMask(status));
      }
    }
  }

  lemma {:induction false} SelectAllTrue<T>(xs: seq<T>, mask: seq<bool>)
    requires |xs| == |mask| && forall i :: 0 <= i < |mask| ==> mask[i]
    ensures Select(xs, mask) == xs
    decreases |xs|
  {
    if |xs| > 0 {
      SelectAllTrue(xs[1..], mask[1..]);
    }
  }

  /** A list is filtered up to the shorter of values and status, where a
      numpy array of another length is refused. */
  lemma ListAndArrayDifferOnLength()
    ensures ValidValues(Some(ListValues(["a", "b", "c"])), Some([0, 1])) == Ok(Some(["a"]))
    ensures ValidValues(Some(ArrayValues(["a", "b", "c"])), Some([0, 1])) == Err(MaskLengthMismatch)
  {
    var mask := ZeroMask([0, 1]);
    assert mask == [true, false];
    assert Select(["a", "b", "c"], mask) == ["a"] by {
      assert ["a", "b", "c"][1..] == ["b", "c"];
      assert mask[1..] == [false];
      assert Select(["b", "c"], [false]) == [] by {
        assert ["b", "c"][1..] == ["c"];
        assert [false][1..] == [];
      }
    }
  }
}
