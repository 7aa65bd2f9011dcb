/** The numeric `Array` model: the closed table of eleven data types, the
    derived `data_type` / `shape` / `size` accessors, the binary payload
    (fixed-width little-endian integers, opaque float blocks, bit-packed
    booleans), and the serialize / deserialize envelope that moves the payload
    through a binary store under a fresh key. */
module ArrayCodec {
  import opened Results
  import opened Bits
  import opened FixedWidth
  import opened JsonValue
  import opened BinaryStore
  import Schema

  /** Element types a numpy array accepted by `Array` can have: the eleven of
      the lookup table, plus the float widths numpy has outside it. */
  datatype DType =
    | Int8 | Uint8 | Int16 | Uint16 | Int32 | Uint32 | Int64 | Uint64
    | Float32 | Float64 | Bool
    | Float16 | Float128

  function ItemSize(d: DType): (r: nat)
    ensures IsWidth(r)
  {
    match d
    case Int8 => 1
    case Uint8 => 1
    case Bool => 1
    case Int16 => 2
    case Uint16 => 2
    case Float16 => 2
    case Int32 => 4
    case Uint32 => 4
    case Float32 => 4
    case Int64 => 8
    case Uint64 => 8
    case Float64 => 8
    case Float128 => 16
  }

  /** The byte widths numpy element types have. */
  predicate IsWidth(w: nat)
  {
    w == 1 || w == 2 || w == 4 || w == 8 || w == 16
  }

  /** For a whole number of elements, the byte count is `n` elements exactly
      when dividing it by the width gives `n`. */
  lemma WholeElements(w: nat, m: nat, n: nat)
    requires IsWidth(w) && m % w == 0
    ensures m == n * w <==> m / w == n
  {
    if w == 1 {
      assert (m == n * 1 <==> m / 1 == n);
    } else if w == 2 {
      assert (m == n * 2 <==> m / 2 == n);
    } else if w == 4 {
      assert (m == n * 4 <==> m / 4 == n);
    } else if w == 8 {
      assert (m == n * 8 <==> m / 8 == n);
    } else {
      assert w == 16;
      assert (m == n * 16 <==> m / 16 == n);
    }
  }

  lemma MultipleOfWidth(w: nat, n: nat)
    requires IsWidth(w)
    ensures (n * w) % w == 0
  {
    if w == 1 {
      assert (n * 1) % 1 == 0;
    } else if w == 2 {
      assert (n * 2) % 2 == 0;
    } else if w == 4 {
      assert (n * 4) % 4 == 0;
    } else if w == 8 {
      assert (n * 8) % 8 == 0;
    } else {
      assert w == 16;
      assert (n * 16) % 16 == 0;
    }
  }

  /** Dropping one element's bytes from a non-empty whole number of elements
      leaves a whole number of elements, one fewer. */
  lemma DropOneElement(w: nat, m: nat)
    requires IsWidth(w) && m > 0 && m % w == 0
    ensures m >= w && (m - w) % w == 0 && (m - w) / w + 1 == m / w
  {
    if w == 1 {
      assert m % 1 == 0 && m >= 1 && (m - 1) % 1 == 0 && (m - 1) / 1 + 1 == m / 1;
    } else if w == 2 {
      assert m % 2 == 0 && m >= 2 && (m - 2) % 2 == 0 && (m - 2) / 2 + 1 == m / 2;
    } else if w == 4 {
      assert m % 4 == 0 && m >= 4 && (m - 4) % 4 == 0 && (m - 4) / 4 + 1 == m / 4;
    } else if w == 8 {
      assert m % 8 == 0 && m >= 8 && (m - 8) % 8 == 0 && (m - 8) / 8 + 1 == m / 8;
    } else {
      assert w == 16;
      assert m % 16 == 0 && m >= 16 && (m - 16) % 16 == 0 && (m - 16) / 16 + 1 == m / 16;
    }
  }

  /** Adding one element's bytes to a whole number of elements. */
  lemma AddWidthKeepsMultiple(w: nat, n: nat)
    requires IsWidth(w) && n % w == 0
    ensures (w + n) % w == 0
  {
    if w == 1 {
      assert n % 1 == 0 && (1 + n) % 1 == 0;
    } else if w == 2 {
      assert n % 2 == 0 && (2 + n) % 2 == 0;
    } else if w == 4 {
      assert n % 4 == 0 && (4 + n) % 4 == 0;
    } else if w == 8 {
      assert n % 8 == 0 && (8 + n) % 8 == 0;
    } else {
      assert w == 16;
      assert n % 16 == 0 && (16 + n) % 16 == 0;
    }
  }

  /** One more element takes one more width. */
  lemma WidthTimesSucc(w: nat, k: nat)
    requires IsWidth(w)
    ensures (k + 1) * w == k * w + w
  {
    if w == 1 {
      assert (k + 1) * 1 == k * 1 + 1;
    } else if w == 2 {
      assert (k + 1) * 2 == k * 2 + 2;
    } else if w == 4 {
      assert (k + 1) * 4 == k * 4 + 4;
    } else if w == 8 {
      assert (k + 1) * 8 == k * 8 + 8;
    } else {
      assert w == 16;
      assert (k + 1) * 16 == k * 16 + 16;
    }
  }

  predicate IsSigned(d: DType)
  {
    d.Int8? || d.Int16? || d.Int32? || d.Int64?
  }

  predicate IsUnsigned(d: DType)
  {
    d.Uint8? || d.Uint16? || d.Uint32? || d.Uint64?
  }

  predicate IsFloat(d: DType)
  {
    d.Float16? || d.Float32? || d.Float64? || d.Float128?
  }

  /** `DATA_TYPE_LOOKUP_TO_STRING.get(dtype)`: the tag of a supported type. */
  function TagOf(d: DType): Option<string>
  {
    match d
    case Int8 => Some("Int8Array")
    case Uint8 => Some("Uint8Array")
    case Int16 => Some("Int16Array")
    case Uint16 => Some("Uint16Array")
    case Int32 => Some("Int32Array")
    case Uint32 => Some("Uint32Array")
    case Int64 => Some("Int64Array")
    case Uint64 => Some("Uint64Array")
    case Float32 => Some("Float32Array")
    case Float64 => Some("Float64Array")
    case Bool => Some("BooleanArray")
    case Float16 => None
    case Float128 => None
  }

  /** `DATA_TYPE_LOOKUP_TO_NUMPY[tag]`, with a missing key as `None`. */
  function DTypeOf(tag: string): Option<DType>
  {
    if tag == "Int8Array" then Some(Int8)
    else if tag == "Uint8Array" then Some(Uint8)
    else if tag == "Int16Array" then Some(Int16)
    else if tag == "Uint16Array" then Some(Uint16)
    else if tag == "Int32Array" then Some(Int32)
    else if tag == "Uint32Array" then Some(Uint32)
    else if tag == "Int64Array" then Some(Int64)
    else if tag == "Uint64Array" then Some(Uint64)
    else if tag == "Float32Array" then Some(Float32)
    else if tag == "Float64Array" then Some(Float64)
    else if tag == "BooleanArray" then Some(Bool)
    else None
  }

  const DataTypeTags: seq<string> := [
    "Int8Array", "Uint8Array", "Int16Array", "Uint16Array", "Int32Array", "Uint32Array",
    "Int64Array", "Uint64Array", "Float32Array", "Float64Array", "BooleanArray"
  ]

  predicate Supported(d: DType)
  {
    TagOf(d).Some?
  }

  /** The two lookup tables are exact inverses of each other: a supported
      type's tag looks up that type ... */
  lemma TagLooksUpType()
    ensures forall d :: Supported(d) ==> DTypeOf(TagOf(d).value) == Some(d)
  {
    forall d | Supported(d) ensures DTypeOf(TagOf(d).value) == Some(d) {
      match d
      case Int8 =>
      case Uint8 =>
      case Int16 =>
      case Uint16 =>
      case Int32 =>
      case Uint32 =>
      case Int64 =>
      case Uint64 =>
      case Float32 =>
      case Float64 =>
      case Bool =>
    }
  }

  /** ... and every tag's type has that tag. */
  lemma TypeHasTag()
    ensures forall tag :: DTypeOf(tag).Some? ==> TagOf(DTypeOf(tag).value) == Some(tag)
  {
  }

  /** Eleven distinct tags name eleven distinct types; nothing else is a tag. */
  lemma DataTypeTableIsEleven()
    ensures |DataTypeTags| == 11
    ensures forall i, j :: 0 <= i < j < |DataTypeTags| ==> DataTypeTags[i] != DataTypeTags[j]
    ensures forall tag :: DTypeOf(tag).Some? <==> tag in DataTypeTags
    ensures forall d1, d2 :: Supported(d1) && TagOf(d1) == TagOf(d2) ==> d1 == d2
  {
  }

  /** One element of an array: an integer, a boolean, or the raw bytes of a
      float (floats are not interpreted). */
  datatype Scalar = IntVal(i: int) | BoolVal(b: bool) | FloatVal(raw: seq<Byte>)

  /** The element can be stored in an array of type `d`. */
  predicate Fits(d: DType, s: Scalar)
  {
    if d.Bool? then s.BoolVal?
    else if IsFloat(d) then s.FloatVal? && |s.raw| == ItemSize(d)
    else if IsSigned(d) then s.IntVal? && SignedFits(s.i, ItemSize(d))
    else s.IntVal? && UnsignedFits(s.i, ItemSize(d))
  }

  function Product(shape: seq<nat>): nat
  {
    if |shape| == 0 then 1 else shape[0] * Product(shape[1..])
  }

  /** A numpy array: type, shape and the elements in row-major order. */
  datatype NdArray = NdArray(dtype: DType, shape: seq<nat>, elems: seq<Scalar>)

  /** An array `Array.array` accepts: one or two dimensions, as many elements
      as the shape holds, each of the array's type. */
  predicate WellFormed(a: NdArray)
  {
    && (|a.shape| == 1 || |a.shape| == 2)
    && Product(a.shape) == |a.elems|
    && forall i :: 0 <= i < |a.elems| ==> Fits(a.dtype, a.elems[i])
  }

  type ValidArray = a: NdArray | WellFormed(a) witness NdArray(Int8, [0], [])

  /** An `Array` object; `data` is `None` while its array is unset. */
  datatype ArrayInstance = ArrayInstance(data: Option<ValidArray>)

  datatype ArrayError =
    | NoArray           // an attribute of an unset array was used
    | BadDataType       // `_validate_data_type`: dtype outside the table
    | UnknownDataType   // deserialize: `data_type` is not one of the eleven tags
    | BadShape          // deserialize: `shape` is not a list of sizes
    | ShapeMismatch     // deserialize: payload length does not fit type and shape
    | BadRank           // deserialize: the decoded array is not 1D or 2D
    | UnhashableKey     // deserialize: the `array` entry cannot be a store key

  const ArraySchema := "org.omf.v2.array.numeric"

  /** `Array._validate_data_type`. */
  function ValidateDataType(inst: ArrayInstance): (r: Outcome<ArrayError>)
    ensures r.Pass? <==> inst.data.Some? && Supported(inst.data.value.dtype)
  {
    match inst.data
    case None => Fail(NoArray)
    case Some(a) => if Supported(a.dtype) then Pass else Fail(BadDataType)
  }

  /** `Array.data_type`. */
  function DataType(inst: ArrayInstance): (r: Option<string>)
    ensures r.Some? <==> inst.data.Some? && Supported(inst.data.value.dtype)
    ensures r.Some? ==> r.value in DataTypeTags && DTypeOf(r.value) == Some(inst.data.value.dtype)
  {
    match inst.data
    case None => None
    case Some(a) => TagOf(a.dtype)
  }

  /** `Array.shape`. */
  function Shape(inst: ArrayInstance): (r: Option<seq<nat>>)
    ensures r.Some? <==> inst.data.Some?
    ensures r.Some? ==> (|r.value| == 1 || |r.value| == 2) && Product(r.value) == |inst.data.value.elems|
  {
    match inst.data
    case None => None
    case Some(a) => Some(a.shape)
  }

  /** `Array.__len__`: the number of rows. */
  function Length(inst: ArrayInstance): (r: Result<nat, ArrayError>)
    ensures r.Ok? <==> inst.data.Some?
    ensures r.Ok? ==> r.value == inst.data.value.shape[0]
  {
    match inst.data
    case None => Err(NoArray)
    case Some(a) => Ok(a.shape[0])
  }

  /** `Array.size`, from type and shape alone: `ceil(n / 8)` bytes for a boolean
      array, `n * itemsize` otherwise. */
  function Size(inst: ArrayInstance): (r: Option<nat>)
    ensures r.None? <==> inst.data.None?
    ensures r.Some? && inst.data.value.dtype.Bool? ==> r.value == (Product(inst.data.value.shape) + 7) / 8
    ensures r.Some? && !inst.data.value.dtype.Bool? ==>
              r.value == Product(inst.data.value.shape) * ItemSize(inst.data.value.dtype)
  {
    match inst.data
    case None => None
    case Some(a) =>
      BooleanTag(a.dtype);
      var n := Product(a.shape);
      if DataType(inst) == Some("BooleanArray") then Some((n + 7) / 8)
      else Some(n * ItemSize(a.dtype))
  }

  /** Only the boolean type has the tag `BooleanArray`. */
  lemma BooleanTag(d: DType)
    ensures TagOf(d) == Some("BooleanArray") <==> d.Bool?
  {
    match d
    case Bool =>
    case Int8 =>
    case Uint8 =>
    case Int16 =>
    case Uint16 =>
    case Int32 =>
    case Uint32 =>
    case Int64 =>
    case Uint64 =>
    case Float32 =>
    case Float64 =>
    case Float16 =>
    case Float128 =>
  }

  /** Bytes of one element as `tobytes` writes it. */
  function EncodeScalar(d: DType, s: Scalar): (r: seq<Byte>)
    requires Fits(d, s)
    ensures |r| == ItemSize(d)
  {
    match s
    case IntVal(i) => if IsSigned(d) then EncodeSigned(i, ItemSize(d)) else EncodeUnsigned(i, ItemSize(d))
    case BoolVal(b) => [if b then 1 else 0]
    case FloatVal(raw) => raw
  }

  /** Element of type `d` read back from `ItemSize(d)` bytes by `frombuffer`. */
  function DecodeScalar(d: DType, bytes: seq<Byte>): (r: Scalar)
    requires !d.Bool? && |bytes| == ItemSize(d)
    ensures Fits(d, r)
  {
    if IsFloat(d) then FloatVal(bytes)
    else if IsSigned(d) then IntVal(DecodeSigned(bytes))
    else IntVal(DecodeUnsigned(bytes))
  }

  lemma DecodeEncodeScalar(d: DType, s: Scalar)
    requires !d.Bool? && Fits(d, s)
    ensures DecodeScalar(d, EncodeScalar(d, s)) == s
  {
    if IsSigned(d) {
      SignedRoundTrip(s.i, ItemSize(d));
    } else if !IsFloat(d) {
      DecodeEncodeUnsigned(s.i, ItemSize(d));
    }
  }

  /** `tobytes` of a non-boolean array: the elements' bytes, contiguous. */
  function EncodeElems(d: DType, es: seq<Scalar>): (r: seq<Byte>)
    requires forall i :: 0 <= i < |es| ==> Fits(d, es[i])
    ensures |r| == |es| * ItemSize(d)
  {
    if |es| == 0 then []
    else
      WidthTimesSucc(ItemSize(d), |es| - 1);
      EncodeScalar(d, es[0]) + EncodeElems(d, es[1..])
  }

  /** `frombuffer(bytes, dtype)`: one element per `ItemSize(d)` bytes. */
  function DecodeElems(d: DType, bytes: seq<Byte>): (r: seq<Scalar>)
    requires !d.Bool? && |bytes| % ItemSize(d) == 0
    ensures |r| == |bytes| / ItemSize(d)
    ensures forall i :: 0 <= i < |r| ==> Fits(d, r[i])
    decreases |bytes|
  {
    var w := ItemSize(d);
    if |bytes| == 0 then []
    else
      DropOneElement(w, |bytes|);
      [DecodeScalar(d, bytes[..w])] + DecodeElems(d, bytes[w..])
  }

  lemma {:induction false} DecodeElemsCons(d: DType, head: seq<Byte>, tail: seq<Byte>)
    requires !d.Bool? && |head| == ItemSize(d) && |tail| % ItemSize(d) == 0
    ensures (|head + tail|) % ItemSize(d) == 0
    ensures DecodeElems(d, head + tail) == [DecodeScalar(d, head)] + DecodeElems(d, tail)
  {
    var w := ItemSize(d);
    var all := head + tail;
    assert |all| == w + |tail|;
    AddWidthKeepsMultiple(w, |tail|);
    assert all[..w] == head;
    assert all[w..] == tail;
  }

  lemma {:induction false} DecodeEncodeElems(d: DType, es: seq<Scalar>)
    requires !d.Bool? && forall i :: 0 <= i < |es| ==> Fits(d, es[i])
    ensures |EncodeElems(d, es)| % ItemSize(d) == 0
    ensures DecodeElems(d, EncodeElems(d, es)) == es
  {
    var w := ItemSize(d);
    if |es| > 0 {
      var head := EncodeScalar(d, es[0]);
      var tail := EncodeElems(d, es[1..]);
      assert EncodeElems(d, es) == head + tail;
      DecodeEncodeElems(d, es[1..]);
      DecodeElemsCons(d, head, tail);
      DecodeEncodeScalar(d, es[0]);
      assert es == [es[0]] + es[1..];
    } else {
      assert EncodeElems(d, es) == [];
    }
  }

  function BoolsOf(es: seq<Scalar>): (r: seq<bool>)
    requires forall i :: 0 <= i < |es| ==> es[i].BoolVal?
    ensures |r| == |es|
    ensures forall i :: 0 <= i < |es| ==> r[i] == es[i].b
  {
    seq(|es|, i requires 0 <= i < |es| => es[i].b)
  }

  /** The bytes `Array.serialize` stores: `packbits` of a boolean array,
      `tobytes` of any other. Its length is exactly `size`, so the size is
      known before encoding. */
  function Payload(a: ValidArray): (r: seq<Byte>)
    ensures Some(|r|) == Size(ArrayInstance(Some(a)))
  {
    if a.dtype.Bool? then PackBits(BoolsOf(a.elems))
    else EncodeElems(a.dtype, a.elems)
  }

  /** What the properties library serializes for an `Array` (class name and
      the dynamic properties that are not `None`), before the schema is added. */
  function PropertyFields(inst: ArrayInstance): (r: Object)
    ensures Schema.SchemaKey !in r && "array" !in r
    ensures inst.data.Some? ==>
              && "shape" in r && r["shape"] == IntList(inst.data.value.shape)
              && ("data_type" in r <==> Supported(inst.data.value.dtype))
              && (Supported(inst.data.value.dtype) ==> r["data_type"] == JStr(TagOf(inst.data.value.dtype).value))
  {
    var base := map[Schema.ClassKey := JStr("Array")];
    match inst.data
    case None => base
    case Some(a) =>
      var withShape := base["shape" := IntList(a.shape)]["size" := JInt(Size(inst).value)];
      match DataType(inst)
      case Some(tag) => withShape["data_type" := JStr(tag)]
      case None => withShape
  }

  /** `Array.serialize`. With a store, the payload is added under `freshKey`
      (a new uuid4, so absent from the store) and the output points at it;
      without one, nothing is stored. Serializing an unset array into a store
      fails, because the source calls `tobytes` on `None`. */
  function Serialize(inst: ArrayInstance, store: Option<Store>, freshKey: string): (r: Result<Serialized, ArrayError>)
    requires store.Some? ==> freshKey !in store.value
    ensures r.Ok? <==> store.None? || inst.data.Some?
    ensures r.Ok? ==> Schema.SchemaKey in r.value.output && r.value.output[Schema.SchemaKey] == JStr(ArraySchema)
    ensures r.Ok? && store.None? ==> r.value.store.None? && "array" !in r.value.output
    ensures r.Ok? && store.Some? ==>
              && r.value.store.Some?
              && r.value.store.value.Keys == store.value.Keys + {freshKey}
              && (forall k :: k in store.value ==> r.value.store.value[k] == store.value[k])
              && "array" in r.value.output && r.value.output["array"] == JStr(freshKey)
              && Size(inst) == Some(|r.value.store.value[freshKey]|)
    ensures r.Ok? && inst.data.Some? ==>
              && "shape" in r.value.output && r.value.output["shape"] == IntList(inst.data.value.shape)
              && ("data_type" in r.value.output <==> Supported(inst.data.value.dtype))
  {
    var output := Schema.Serialize(PropertyFields(inst), ArraySchema);
    match store
    case None => Ok(Serialized(output, None))
    case Some(s) =>
      match inst.data
      case None => Err(NoArray)
      case Some(a) => Ok(Serialized(output["array" := JStr(freshKey)], Some(Put(s, freshKey, Payload(a)))))
  }

  /** A `shape` entry of an envelope: a list of non-negative integers. */
  function ParseShape(j: Json): (r: Result<seq<nat>, ArrayError>)
    ensures r.Ok? <==> j.JList? && forall i :: 0 <= i < |j.items| ==> j.items[i].JInt? && j.items[i].i >= 0
    ensures r.Ok? ==> IntList(r.value) == j
  {
    match j
    case JList(items) =>
      if forall i :: 0 <= i < |items| ==> items[i].JInt? && items[i].i >= 0 then
        var shape: seq<nat> := seq(|items|, i requires 0 <= i < |items| && items[i].JInt? && items[i].i >= 0 => items[i].i);
        assert IntList(shape).items == items;
        Ok(shape)
      else Err(BadShape)
    case _ => Err(BadShape)
  }

  function Min(a: int, b: int): int
  {
    if a <= b then a else b
  }

  /** Boolean payload: `unpackbits`, cut to the first `n` bits; there must be
      enough bits for the reshape to succeed. */
  function DecodeBools(n: nat, bytes: seq<Byte>): (r: Result<seq<Scalar>, ArrayError>)
    ensures r.Ok? <==> n <= 8 * |bytes|
    ensures r.Ok? ==> |r.value| == n && (forall i :: 0 <= i < n ==> Fits(Bool, r.value[i]))
    ensures r.Ok? ==> BoolsOf(r.value) == UnpackBits(bytes)[..n]
  {
    var bits := UnpackBits(bytes)[..Min(n, 8 * |bytes|)];
    if |bits| != n then Err(ShapeMismatch)
    else Ok(seq(n, i requires 0 <= i < n => BoolVal(bits[i])))
  }

  /** Other payloads: `frombuffer` needs a whole number of elements and the
      reshape needs exactly `n` of them. */
  function DecodeFixed(d: DType, n: nat, bytes: seq<Byte>): (r: Result<seq<Scalar>, ArrayError>)
    requires !d.Bool?
    ensures r.Ok? <==> |bytes| == n * ItemSize(d)
    ensures r.Ok? ==> |r.value| == n && (forall i :: 0 <= i < n ==> Fits(d, r.value[i]))
    ensures r.Ok? ==> r.value == DecodeElems(d, bytes)
  {
    var w := ItemSize(d);
    if |bytes| % w != 0 then
      MultipleOfWidth(w, n);
      Err(ShapeMismatch)
    else
      WholeElements(w, |bytes|, n);
      var es := DecodeElems(d, bytes);
      if |es| != n then Err(ShapeMismatch) else Ok(es)
  }

  /** The decoding half of `Array.deserialize` once the payload is found:
      decode by type, reshape, and the result must be an array `Array`
      accepts. */
  function DecodePayload(d: DType, shape: seq<nat>, bytes: seq<Byte>): (r: Result<ValidArray, ArrayError>)
    requires Supported(d)
    ensures r.Ok? <==>
              && (|shape| == 1 || |shape| == 2)
              && (d.Bool? ==> Product(shape) <= 8 * |bytes|)
              && (!d.Bool? ==> |bytes| == Product(shape) * ItemSize(d))
    ensures r.Ok? ==> r.value.dtype == d && r.value.shape == shape
    ensures r.Ok? && d.Bool? ==> BoolsOf(r.value.elems) == UnpackBits(bytes)[..Product(shape)]
    ensures r.Ok? && !d.Bool? ==> |bytes| % ItemSize(d) == 0 && r.value.elems == DecodeElems(d, bytes)
  {
    var n := Product(shape);
    var elems :- if d.Bool? then DecodeBools(n, bytes) else DecodeFixed(d, n, bytes);
    if |shape| != 1 && |shape| != 2 then Err(BadRank)
    else
      var a := NdArray(d, shape, elems);
      assert WellFormed(a);
      Ok(a)
  }

  /** `DATA_TYPE_LOOKUP_TO_NUMPY[value["data_type"]]`. */
  function LookupDataType(j: Json): (r: Result<DType, ArrayError>)
    ensures r.Ok? <==> j.JStr? && j.s in DataTypeTags
    ensures r.Ok? ==> Supported(r.value) && j == JStr(TagOf(r.value).value)
  {
    DataTypeTableIsEleven();
    TypeHasTag();
    if j.JStr? && DTypeOf(j.s).Some? then Ok(DTypeOf(j.s).value) else Err(UnknownDataType)
  }

  /** Reading the payload of an envelope whose `array` key is in the store. */
  function DecodeEnvelope(fields: Object, bytes: seq<Byte>): (r: Result<ValidArray, ArrayError>)
    requires "shape" in fields && "data_type" in fields
    ensures r.Ok? ==> Supported(r.value.dtype) && fields["data_type"] == JStr(TagOf(r.value.dtype).value)
    ensures r.Ok? ==> fields["shape"] == IntList(r.value.shape)
  {
    var d :- LookupDataType(fields["data_type"]);
    var shape :- ParseShape(fields["shape"]);
    DecodePayload(d, shape, bytes)
  }

  /** `Array.deserialize`. A value that is not an object, lacks one of `shape`,
      `data_type`, `array`, or names a key absent from the store gives an empty
      `Array`, not an error; a payload that does not decode is one. */
  function Deserialize(value: Json, store: Store): (r: Result<ArrayInstance, ArrayError>)
    ensures !HasEnvelopeKeys(value) ==> r == Ok(ArrayInstance(None))
    ensures value.JObj? && "array" in value.fields && value.fields["array"].JStr? && value.fields["array"].s !in store
            ==> r == Ok(ArrayInstance(None))
    ensures r == Err(UnhashableKey) <==>
              HasEnvelopeKeys(value) && (value.fields["array"].JList? || value.fields["array"].JObj?)
    ensures HasEnvelopeKeys(value) && value.fields["array"].JStr? && value.fields["array"].s in store
            && !(value.fields["data_type"].JStr? && value.fields["data_type"].s in DataTypeTags)
            ==> r == Err(UnknownDataType)
    ensures HasEnvelopeKeys(value) && !value.fields["array"].JStr?
            && !value.fields["array"].JList? && !value.fields["array"].JObj?
            ==> r == Ok(ArrayInstance(None))
    ensures HasEnvelopeKeys(value) && value.fields["array"].JStr? && value.fields["array"].s in store ==>
              var e := DecodeEnvelope(value.fields, store[value.fields["array"].s]);
              && (r.Ok? <==> e.Ok?)
              && (r.Ok? ==> r.value.data == Some(e.value))
              && (r.Err? ==> r.error == e.error)
    ensures r.Ok? && r.value.data.Some? ==>
              && value.JObj? && "array" in value.fields && value.fields["array"].JStr?
              && value.fields["array"].s in store
              && Supported(r.value.data.value.dtype)
              && "data_type" in value.fields && value.fields["data_type"] == JStr(TagOf(r.value.data.value.dtype).value)
              && "shape" in value.fields && value.fields["shape"] == IntList(r.value.data.value.shape)
  {
    match Locate(value, store)
    case Err(_) => Err(UnhashableKey)
    case Ok(Absent) => Ok(ArrayInstance(None))
    case Ok(Found(fields, bytes)) =>
      var a :- DecodeEnvelope(fields, bytes);
      Ok(ArrayInstance(Some(a)))
  }

  /** Boolean payloads decode to the packed booleans: truncating the unpacked
      bits to the element count removes exactly the padding. */
  lemma DecodePackedBools(a: ValidArray)
    requires a.dtype.Bool?
    ensures DecodePayload(Bool, a.shape, Payload(a)) == Ok(a)
  {
    DecodeBoolsOfPacked(a.elems);
    assert Payload(a) == PackBits(BoolsOf(a.elems));
  }

  /** Unpacking the packed booleans of boolean elements, cut to their count,
      gives the elements back. */
  lemma DecodeBoolsOfPacked(es: seq<Scalar>)
    requires forall i :: 0 <= i < |es| ==> es[i].BoolVal?
    ensures DecodeBools(|es|, PackBits(BoolsOf(es))) == Ok(es)
  {
    var bools := BoolsOf(es);
    UnpackPackPrefix(bools);
    var r := DecodeBools(|es|, PackBits(bools));
    assert r.Ok?;
    assert BoolsOf(r.value) == bools;
    assert forall i :: 0 <= i < |es| ==> r.value[i] == es[i] by {
      forall i | 0 <= i < |es| ensures r.value[i] == es[i] {
        assert BoolsOf(r.value)[i] == bools[i];
      }
    }
    assert r.value == es;
  }

  /** The other payloads decode element by element to the original elements. */
  lemma DecodeFixedWidth(a: ValidArray)
    requires Supported(a.dtype) && !a.dtype.Bool?
    ensures DecodePayload(a.dtype, a.shape, Payload(a)) == Ok(a)
  {
    DecodeEncodeElems(a.dtype, a.elems);
  }

  /** A written shape parses back to itself. */
  lemma ParseShapeIntList(shape: seq<nat>)
    ensures ParseShape(IntList(shape)) == Ok(shape)
  {
    var r := ParseShape(IntList(shape));
    assert r.Ok?;
    forall i | 0 <= i < |shape| ensures r.value[i] == shape[i] {
      assert IntList(r.value).items[i] == IntList(shape).items[i];
    }
    assert r.value == shape;
  }

  /** Round trip through a store: deserializing what `serialize` wrote, against
      the store it wrote into, gives back the same type, shape and elements. */
  lemma SerializeDeserialize(a: ValidArray, store: Store, freshKey: string)
    requires Supported(a.dtype) && freshKey !in store
    ensures var r := Serialize(ArrayInstance(Some(a)), Some(store), freshKey);
            && r.Ok?
            && Deserialize(JObj(r.value.output), r.value.store.value) == Ok(ArrayInstance(Some(a)))
  {
    var inst := ArrayInstance(Some(a));
    var r := Serialize(inst, Some(store), freshKey);
    var out := r.value.output;
    var s := r.value.store.value;
    assert out["array"] == JStr(freshKey) && s[freshKey] == Payload(a);
    assert out["data_type"] == JStr(TagOf(a.dtype).value);
    assert out["shape"] == IntList(a.shape);
    if a.dtype.Bool? {
      DecodePackedBools(a);
    } else {
      DecodeFixedWidth(a);
    }
    DeserializeWritten(out, s, freshKey, a);
  }

  /** An envelope naming a stored payload, a tag of the table and a written
      shape deserializes to whatever that payload decodes to. */
  lemma DeserializeWritten(out: Object, s: Store, key: string, a: ValidArray)
    requires Supported(a.dtype)
    requires EnvelopeKeys <= out.Keys && out["array"] == JStr(key) && key in s
    requires out["data_type"] == JStr(TagOf(a.dtype).value) && out["shape"] == IntList(a.shape)
    requires DecodePayload(a.dtype, a.shape, s[key]) == Ok(a)
    ensures Deserialize(JObj(out), s) == Ok(ArrayInstance(Some(a)))
  {
    ParseShapeIntList(a.shape);
    TagLooksUpType();
    assert LookupDataType(out["data_type"]) == Ok(a.dtype);
    assert DecodeEnvelope(out, s[key]) == Ok(a);
  }

  /** An array whose type is outside the table serializes without `data_type`,
      so reading it back gives an empty `Array`. */
  lemma UnsupportedTypeDoesNotRoundTrip(a: ValidArray, store: Store, freshKey: string)
    requires !Supported(a.dtype) && freshKey !in store
    ensures var r := Serialize(ArrayInstance(Some(a)), Some(store), freshKey);
            && r.Ok?
            && Deserialize(JObj(r.value.output), r.value.store.value) == Ok(ArrayInstance(None))
  {
  }

  /** Examples of the size rule: 13 booleans take 2 bytes, a 4 x 3 float64
      array takes 96. */
  lemma SizeExamples(bools: ValidArray, floats: ValidArray)
    requires bools.dtype.Bool? && bools.shape == [13]
    requires floats.dtype.Float64? && floats.shape == [4, 3]
    ensures Size(ArrayInstance(Some(bools))) == Some(2)
    ensures Size(ArrayInstance(Some(floats))) == Some(96)
  {
    assert Product([13]) == 13;
    assert Product([4, 3]) == 12 by {
      assert Product([3]) == 3;
      assert [4, 3][1..] == [3];
    }
  }
}
