/** `ProjectElement._validate_attributes`: every attribute of an element must
    sit on one of the element's locations and carry one value per item of that
    location. The element's geometry enters only through `locationLength`. */
module Element {
  import opened Results
  import opened SeqOps

  /** What validation reads of an attribute: its `location`, and the length of
      its array (`None` when the array is unset or has no first axis, where
      `len` raises). */
  datatype AttributeView = AttributeView(location: string, length: Option<nat>)

  datatype ElementError =
    | NoValidLocations                                   // the element class declares no locations
    | InvalidLocation(index: nat, location: string)      // the attribute's location is not allowed
    | LengthMismatch(index: nat, actual: Option<nat>, expected: nat)  // wrong number of values

  /** One attribute is acceptable: allowed location, and as many values as
      that location has items. */
  predicate AttributeOk(validLocations: seq<string>, locationLength: string -> nat, a: AttributeView)
  {
    a.location in validLocations && a.length == Some(locationLength(a.location))
  }

  /** The error for attribute `i`, whose check fails: the location test comes
      before the length test. */
  function AttributeError(validLocations: seq<string>, locationLength: string -> nat, attrs: seq<AttributeView>, i: nat): (r: ElementError)
    requires i < |attrs| && !AttributeOk(validLocations, locationLength, attrs[i])
    ensures r.InvalidLocation? <==> attrs[i].location !in validLocations
    ensures r.InvalidLocation? ==> r == InvalidLocation(i, attrs[i].location)
    ensures r.LengthMismatch? ==> r == LengthMismatch(i, attrs[i].length, locationLength(attrs[i].location))
                                  && attrs[i].length != Some(r.expected)
  {
    var a := attrs[i];
    if a.location !in validLocations then InvalidLocation(i, a.location)
    else LengthMismatch(i, a.length, locationLength(a.location))
  }

  /** `_validate_attributes`: an element class without locations fails outright;
      otherwise the attributes are checked in order and the first failing one
      is reported. */
  function ValidateAttributes(validLocations: seq<string>, locationLength: string -> nat, attrs: seq<AttributeView>): (r: Outcome<ElementError>)
    ensures r.Pass? <==>
              (|validLocations| > 0 &&
               forall i :: 0 <= i < |attrs| ==> attrs[i].location in validLocations &&
                                                  attrs[i].length == Some(locationLength(attrs[i].location)))
    ensures r == Fail(NoValidLocations) <==> |validLocations| == 0
    ensures r.Fail? && r.error.InvalidLocation? ==>
              && r.error.index < |attrs|
              && attrs[r.error.index].location !in validLocations
              && forall i :: 0 <= i < r.error.index ==> AttributeOk(validLocations, locationLength, attrs[i])
    ensures r.Fail? && r.error.LengthMismatch? ==>
              && r.error.index < |attrs|
              && attrs[r.error.index].location in validLocations
              && attrs[r.error.index].length != Some(locationLength(attrs[r.error.index].location))
              && forall i :: 0 <= i < r.error.index ==> AttributeOk(validLocations, locationLength, attrs[i])
  {
    if |validLocations| == 0 then Fail(NoValidLocations)
    else
      match FirstFailure(attrs, a => AttributeOk(validLocations, locationLength, a), 0)
      case None => Pass
      case Some(i) => Fail(AttributeError(validLocations, locationLength, attrs, i))
  }

  /** The reported failure is the first bad attribute: an element whose first
      `k` attributes are fine and whose attribute `k` is not reports index `k`,
      whatever follows. */
  lemma FirstBadAttributeReported(validLocations: seq<string>, locationLength: string -> nat, attrs: seq<AttributeView>, k: nat)
    requires |validLocations| > 0 && k < |attrs|
    requires forall i :: 0 <= i < k ==> AttributeOk(validLocations, locationLength, attrs[i])
    requires !AttributeOk(validLocations, locationLength, attrs[k])
    ensures var r := ValidateAttributes(validLocations, locationLength, attrs);
            r.Fail? && (r.error.InvalidLocation? || r.error.LengthMismatch?) &&
            r.error.index == k
  {
    var r := ValidateAttributes(validLocations, locationLength, attrs);
    assert !AttributeOk(validLocations, locationLength, attrs[r.error.index]);
  }

  /** Validation depends on each attribute alone: it passes for `xs + ys`
      exactly when it passes for both parts. */
  lemma ValidateAttributesAppend(validLocations: seq<string>, locationLength: string -> nat, xs: seq<AttributeView>, ys: seq<AttributeView>)
    ensures ValidateAttributes(validLocations, locationLength, xs + ys).Pass? <==>
              ValidateAttributes(validLocations, locationLength, xs).Pass? &&
              ValidateAttributes(validLocations, locationLength, ys).Pass?
  {
    var zs := xs + ys;
    if ValidateAttributes(validLocations, locationLength, xs).Pass? && ValidateAttributes(validLocations, locationLength, ys).Pass? {
      forall i | 0 <= i < |zs| ensures AttributeOk(validLocations, locationLength, zs[i]) {
        if i < |xs| {
          assert zs[i] == xs[i];
        } else {
          assert zs[i] == ys[i - |xs|];
        }
      }
    }
    if ValidateAttributes(validLocations, locationLength, zs).Pass? {
      forall i | 0 <= i < |xs| ensures AttributeOk(validLocations, locationLength, xs[i]) {
        assert zs[i] == xs[i];
      }
      forall i | 0 <= i < |ys| ensures AttributeOk(validLocations, locationLength, ys[i]) {
        assert zs[|xs| + i] == ys[i];
      }
    }
  }

  /** An element with no attributes validates as soon as its class has a
      location; one on a location its class lacks does not, and a point set
      with three vertices rejects a two-value attribute on `vertices`. */
  lemma ElementExamples(locationLength: string -> nat)
    requires locationLength("vertices") == 3
    ensures ValidateAttributes(["vertices"], locationLength, []) == Pass
    ensures ValidateAttributes([], locationLength, []) == Fail(NoValidLocations)
    ensures ValidateAttributes(["vertices"], locationLength, [AttributeView("faces", Some(3))])
            == Fail(InvalidLocation(0, "faces"))
    ensures ValidateAttributes(["vertices"], locationLength, [AttributeView("vertices", Some(3)), AttributeView("vertices", Some(2))])
            == Fail(LengthMismatch(1, Some(2), 3))
  {
    var good := AttributeView("vertices", Some(3));
    var bad := AttributeView("vertices", Some(2));
    assert AttributeOk(["vertices"], locationLength, good);
    assert !AttributeOk(["vertices"], locationLength, bad);
    assert !AttributeOk(["vertices"], locationLength, AttributeView("faces", Some(3)));
  }
}
