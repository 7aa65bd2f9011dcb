# OMF v2 object model: array codec, schema dispatch and validators

A Dafny model of the core of the Open Mining Format v2 Python object model:

- **Array codec** (`omf/array.py`):
  - the table of eleven numpy dtypes and their tag strings;
  - the `data_type`, `shape` and `size` properties of `Array`;
  - bit packing of boolean arrays, most significant bit first;
  - fixed-width encoding of integer arrays, in numpy's native byte order, modelled as little-endian;
  - the `serialize` / `deserialize` envelope, which writes the payload under a fresh key of the binary store and reads it back;
  - the same for `StringList`, whose payload is the UTF-8 bytes of `json.dumps` of the list.
- **Schema dispatch** (`omf/base.py`): every serialized object carries its class's `schema` tag. On the way back the tag is removed and resolved through the class registry. The resolved class overrides any `__class__` hint.
- **Sub-blocks** (`omf/blockmodel/subblocks.py`):
  - the sub-block count rules, including the power-of-two rule of octree mode;
  - the unsigned narrowing `_shrink_uint`;
  - `num_subblocks`;
  - the row geometry the documentation describes and the code does not check.
- **Attribute status** (`omf/attribute.py`):
  - the `status_messages` rules;
  - the whole-attribute status check;
  - `valid_mask` and `valid_values`.
- **Colormaps** (`omf/colormap.py`): the gradient, limits, discrete-length, end-point and category-length validators, and the colour interval of a value as the discrete colormap documents it.
- **Elements** (`omf/element.py`): the attribute location and length check.

Python exceptions become `Err` / `Fail` values carrying a module-specific error. Each property of the `properties` library that the core reads is a field of an immutable datatype. An unset property is `None`.

Modules:

| file | module | contents |
|---|---|---|
| results.dfy | Results | `Option`, `Result`, `Outcome` |
| seq_ops.dfy | SeqOps | `min` / `max`, the first entry a check rejects |
| bits.dfy | Bits | bytes, `packbits` / `unpackbits` |
| fixed_width.dfy | FixedWidth | fixed-width two's-complement integers, least significant byte first |
| json_value.dfy | JsonValue | the serialized tree |
| json_text.dfy | JsonText | `json.dumps` of a list of strings and the matching part of `json.loads` |
| binary_store.dfy | BinaryStore | the binary store and the envelope lookup |
| schema.dfy | Schema | `BaseModel` schema dispatch |
| array_codec.dfy | ArrayCodec | `Array` |
| string_list.dfy | StringListCodec | `StringList` |
| subblocks.dfy | Subblocks | regular and free-form sub-blocks |
| attribute.dfy | Attribute | status validation and valid values |
| colormap.dfy | Colormap | colormap validators |
| element.dfy | Element | `ProjectElement._validate_attributes` |

Where the documentation and the code disagree, the model follows the code:

- `end_points` are documented as "monotonically increasing". The validator only refuses a negative difference, so equal neighbours pass (`Colormap.ValidateEndPoints`). With two equal end points the documented interval rule no longer names a single interval. `Colormap.IntervalIndex` counts the end points a value has passed, and `Colormap.EndInclusiveDecidesTies` states the documented rule for strictly increasing end points only.
- The sub-block documentation asks rows to stay within their parent, to have non-zero size and to be contiguous per parent. `_validate` checks none of this (`Subblocks.GeometryNotValidated`, `Subblocks.ContiguityNotValidated`).

Two consequences of the code that the documentation does not mention:

- The data type of an empty `StringList` is `DateTimeArray`, because no element fails the date-time test.
- `Array.serialize` with a store but an unset array calls `tobytes` on `None` and raises. The model returns an error there.

## Model

| member | source | states |
|---|---|---|
| ArrayCodec.TagLooksUpType | omf/array.py:11-24 | The string-to-dtype table inverts the dtype-to-string table: each of the eleven supported dtypes' tags looks up that dtype. |
| ArrayCodec.DataTypeTableIsEleven | omf/array.py:11-24 | There are eleven tags and they are pairwise distinct. A string is a tag exactly when it is one of them. Two supported dtypes with the same tag are equal. |
| ArrayCodec.LookupDataType | omf/array.py:118 | A `data_type` entry resolves exactly when it is one of the eleven tag strings. It resolves to the dtype whose tag it is. |
| ArrayCodec.ValidateDataType | omf/array.py:59-68 | Validation passes exactly when the array is set and its dtype is one of the eleven. Float16 and Float128 are refused. |
| ArrayCodec.DataType | omf/array.py:70-75 | `data_type` is present exactly for a set array of a supported dtype. It is then a tag in the table that looks up the array's own dtype. |
| ArrayCodec.Shape | omf/array.py:77-85 | `shape` is present exactly when the array is set. It has one or two entries, and its product is the element count. |
| ArrayCodec.Size | omf/array.py:87-94 | The size is `None` for an unset array. Otherwise it is `ceil(n/8)` for booleans and `n * itemsize` for the other dtypes, from type and shape alone. |
| ArrayCodec.Payload | omf/array.py:92-104 | The stored bytes of every array are exactly `size` bytes long, so `size` is the stored byte length. |
| ArrayCodec.Serialize | omf/array.py:96-107 | The output always has the array schema, and `shape` plus, for a supported dtype, `data_type`. With a store, exactly one fresh key is added, the old entries are kept, `array` names the new key, and the stored length equals `size`. Without a store nothing is stored. An unset array with a store is an error. |
| ArrayCodec.ParseShape | omf/array.py:121-125 | A `shape` entry is accepted exactly when it is a list of non-negative integers. It then parses to the list it came from. |
| ArrayCodec.DecodeBools | omf/array.py:119-125 | Boolean decode succeeds exactly when the bytes hold at least `n` bits. The result is the first `n` unpacked bits. |
| ArrayCodec.DecodeFixed | omf/array.py:124-125 | Non-boolean decode succeeds exactly when the byte count is `n * itemsize`. The result is the element-by-element decoding. |
| ArrayCodec.DecodePayload | omf/array.py:117-126 | A found payload decodes exactly when the shape has rank 1 or 2 and the bytes suffice: enough bits for booleans, an exact length otherwise. The result has the requested dtype and shape. |
| ArrayCodec.Deserialize | omf/array.py:109-127 | Each of these gives an empty `Array` and not an error: a non-object, a missing `shape` / `data_type` / `array`, or a key absent from the store. A list or object key cannot be looked up. A key that is neither a string nor a list or object is absent too. A found payload with a `data_type` outside the table is an error. Otherwise a found payload gives exactly what decoding the envelope gives: the decoded array, or the decoding error where `frombuffer` or `reshape` raise. A decoded array comes from a stored payload, and its tag and shape are the envelope's. |
| ArrayCodec.DecodeEncodeScalar | omf/array.py:104-124 | One element of a non-boolean type reads back from its `itemsize` bytes unchanged. |
| ArrayCodec.DecodeEncodeElems | omf/array.py:104-124 | `frombuffer` of `tobytes` gives back the elements, for every non-boolean dtype. |
| ArrayCodec.DecodeBoolsOfPacked | omf/array.py:101-122 | Unpacking the packed booleans and cutting to their count gives the booleans back, for any count. |
| ArrayCodec.DecodePackedBools | omf/array.py:101-125 | A boolean array's payload decodes, with its own shape, to the same array. |
| ArrayCodec.DecodeFixedWidth | omf/array.py:104-125 | A non-boolean supported array's payload decodes, with its own shape, to the same array. |
| ArrayCodec.ParseShapeIntList | omf/array.py:121-125 | A written shape parses back to itself. |
| ArrayCodec.DeserializeWritten | omf/array.py:109-126 | An envelope naming a stored payload, a table tag and a written shape deserializes to whatever that payload decodes to. |
| ArrayCodec.SerializeDeserialize | omf/array.py:96-126 | Round trip: deserializing what `serialize` wrote, against the store it wrote into, gives the same dtype, shape and elements. |
| ArrayCodec.UnsupportedTypeDoesNotRoundTrip | omf/array.py:70-127 | An array of an unsupported dtype serializes without `data_type`, so it reads back as an empty `Array`. |
| Bits.PackBits | omf/array.py:102 | Packing `n` booleans gives exactly `ceil(n/8)` bytes. |
| Bits.UnpackPackBits | omf/array.py:102-121 | Unpacking packed booleans gives the booleans followed by the zero padding of the final byte. |
| Bits.UnpackPackPrefix | omf/array.py:119-122 | Keeping the first `n` unpacked bits of `n` packed booleans recovers them exactly, also when `n` is not a multiple of 8. |
| Bits.PackBitsPaddingZero | omf/array.py:102 | Every padding bit after the last boolean is zero. |
| Bits.PackUnpackBits | omf/array.py:102-121 | Packing an unpacked byte string restores it. |
| Bits.PackBitsMostSignificantFirst | omf/array.py:102 | The bit order is big-endian: `[true]` packs to 128, and seven `false` then one `true` packs to 1. |
| Bits.FromBitsToBits | omf/array.py:120-121 | The eight bits of a byte read back to that byte. |
| Bits.ToBitsFromBits | omf/array.py:102 | Eight bits made into a byte unpack to the same bits. |
| FixedWidth.DecodeEncodeUnsigned | omf/array.py:104-124 | An unsigned `w`-byte integer reads back from its little-endian bytes. |
| FixedWidth.EncodeDecodeUnsigned | omf/array.py:104-124 | Any `w` bytes are the encoding of the unsigned value they denote. |
| FixedWidth.DecodeSigned | omf/array.py:124 | A decoded signed element lies in the range of a signed `w`-byte integer. |
| FixedWidth.SignedRoundTrip | omf/array.py:104-124 | A signed integer in range reads back from its two's-complement bytes. |
| FixedWidth.SignedEncodeDecode | omf/array.py:104-124 | Any `w` bytes are the two's-complement encoding of the signed value they denote. |
| StringListCodec.DataType | omf/array.py:220-229 | `data_type` is `DateTimeArray` exactly when every element passes the date-time test, so also for `[]`. It is `StringArray` exactly when some element fails, and `None` when the list is unset. |
| StringListCodec.Shape | omf/array.py:231-241 | `shape` is the one-entry list of the number of strings, or `None` when the list is unset. |
| StringListCodec.Size | omf/array.py:243-248 | The size is set exactly for a set list. It is at least 2, and at least four characters per string. |
| StringListCodec.Serialize | omf/array.py:250-257 | The output has the string-list schema and, for a set list, `data_type`, `shape` and `size`. With a store, exactly one fresh key is added and the old entries are kept. The stored bytes decode to the JSON text, and their count equals `size`. Without a store nothing is stored. |
| StringListCodec.DecodePayload | omf/array.py:267 | A payload is read exactly when it is ASCII text that `json.loads` reads as `null` or as a list of strings. |
| StringListCodec.Deserialize | omf/array.py:259-269 | A non-object, a missing `shape` / `data_type` / `array`, an absent key, or a key that is neither a string nor a list or object gives an empty `StringList`. A list or object key cannot be looked up. A key in the store gives exactly the decoding of its stored payload, error included. |
| StringListCodec.DecodePayloadRoundTrip | omf/array.py:255-267 | The stored payload of any list, unset or not, reads back to that list. |
| StringListCodec.SerializeDeserialize | omf/array.py:250-269 | Round trip: deserializing what `serialize` wrote gives back the same list of strings. |
| StringListCodec.SerializeDeserializeUnset | omf/array.py:243-269 | An unset list stores the bytes of `null`. It serializes without `shape` and `data_type`, so it reads back unset. |
| StringListCodec.EmptyListIsDateTime | omf/array.py:220-248 | `[]` is a `DateTimeArray` of shape `[0]` and size 2. |
| JsonText.Dumps | omf/array.py:248-255 | `json.dumps` of a list of strings is ASCII, bracketed, and `[]` for the empty list. |
| JsonText.LoadsDumps | omf/array.py:255-267 | `json.loads` of `json.dumps` of a list of strings gives the same strings, whatever characters they hold. |
| JsonText.LoadsNull | omf/array.py:255-267 | `json.loads("null")` is `None`. |
| JsonText.DumpsLength | omf/array.py:248 | The dumped text has at least four characters per string. |
| JsonText.DecodeAscii | omf/array.py:267 | UTF-8 decoding succeeds on bytes below 128. The decoded text's bytes are the input. |
| JsonText.DecodeAsciiBytes | omf/array.py:255-267 | Decoding the UTF-8 bytes of an ASCII text gives the text back. |
| JsonText.ParseHex4Hex4 | omf/array.py:255-267 | A four-digit `\u` escape reads back to the code unit it encodes. |
| JsonText.ParseUnitEscapeChar | omf/array.py:255-267 | Every character, escaped as `json.dumps` escapes it, reads back as that character, surrogate pairs included. |
| BinaryStore.Locate | omf/array.py:112-266 | A payload is found exactly when the value is an object with `shape`, `data_type` and a string `array` key present in the store. A list or object key makes the lookup fail. |
| BinaryStore.Put | omf/array.py:105-255 | Storing under a fresh key adds exactly that key and keeps every other entry. |
| Schema.Serialize | omf/base.py:17-20 | The output holds `schema` equal to the class's tag. It keeps every other entry and adds no other key. |
| Schema.MatchFrom | omf/base.py:24-26 | The registry scan finds the first position declaring the tag, or reports that none does. |
| Schema.LookupClass | omf/base.py:22-27 | Lookup succeeds exactly when some registered class declares the tag, and gives the first such class's name. An unknown tag is a "schema not found" error. |
| Schema.Deserialize | omf/base.py:29-34 | Without `schema` the value is passed on unchanged. A null tag is only removed. Otherwise `schema` is removed, the other entries are kept and no key but `__class__` is added. A string tag succeeds exactly when it is registered, and then sets `__class__` to the first matching class, overriding any hint. Any other tag is an error. |
| Schema.SerializeDeserializeResolvesClass | omf/base.py:17-34 | With distinct registered schemas, deserializing a serialized object of the class at position `k` resolves to that class's name, whatever `__class__` it carried. |
| Subblocks.SmallestUnsigned | omf/blockmodel/subblocks.py:14 | `np.min_scalar_type` of a non-negative value is an unsigned type that holds it, and no narrower unsigned type does. |
| Subblocks.Narrowed | omf/blockmodel/subblocks.py:14 | The recast array has the same shape and elements, an unsigned type, and is no wider. |
| Subblocks.ShrinkUint | omf/blockmodel/subblocks.py:11-14 | Narrowing fails exactly on an unset array or an empty integer array. Otherwise the shape and elements are kept and the width never grows. Non-narrowable arrays are untouched. Narrowable ones become the narrowest unsigned type that holds every element. |
| Subblocks.ShrinkMinimal | omf/blockmodel/subblocks.py:14 | No unsigned type narrower than the chosen one holds every element. |
| Subblocks.ShrinkUintIdempotent | omf/blockmodel/subblocks.py:11-14 | Narrowing twice is narrowing once. |
| Subblocks.ShrinkUintKeepsNegative | omf/blockmodel/subblocks.py:13 | A signed array with a negative element keeps its type. |
| Subblocks.ShrinkUintNarrowsToUint16 | omf/blockmodel/subblocks.py:13-14 | A non-negative `int64` array with maximum 300 becomes `uint16`. |
| Subblocks.PowerOfTwoCharacterization | omf/blockmodel/subblocks.py:83-89 | The recursive power-of-two test holds exactly for the numbers `2**k`. |
| Subblocks.ValidateSubblockCount | omf/blockmodel/subblocks.py:73-77 | The counts pass exactly when every count is at least one. Otherwise the first count below one is reported. |
| Subblocks.ShrinkField | omf/blockmodel/subblocks.py:81-133 | An index array validates exactly when it is set and narrowing succeeds. It is replaced by its narrowed form. |
| Subblocks.ValidateRegular | omf/blockmodel/subblocks.py:79-89 | Regular validation succeeds exactly when both index arrays narrow and, in octree mode, every count passes the octree test. Both arrays are replaced by their narrowed forms, and a failing octree count is reported. |
| Subblocks.OctreeTestOnPositiveCounts | omf/blockmodel/subblocks.py:83-89 | On counts of at least one, the `log2` truncation test read in exact arithmetic is the power-of-two test. The source's float64 test differs from about 2^48 on. |
| Subblocks.OctreeAcceptsPowersOfTwo | omf/blockmodel/subblocks.py:73-89 | When the counts passed the count validator, octree validation succeeds exactly when every count is a power of two, with the test read in exact arithmetic. |
| Subblocks.OctreeExamples | omf/blockmodel/subblocks.py:44-89 | `(8, 4, 2)` passes in octree mode. `(8, 5, 2)` passes in `full` mode and without a mode. |
| Subblocks.OctreeRejectsFive | omf/blockmodel/subblocks.py:83-89 | `(8, 5, 2)` fails in octree mode, at its second count. |
| Subblocks.NumSubblocks | omf/blockmodel/subblocks.py:91-138 | The count is `None` exactly when the corners are unset. Otherwise it is the number of rows, and an unset corners array raises. |
| Subblocks.ValidateFreeform | omf/blockmodel/subblocks.py:131-133 | Free-form validation narrows only the parent indices and leaves the corners untouched. |
| Subblocks.CornersNarrowedOnlyWhenRegular | omf/blockmodel/subblocks.py:81-133 | The same narrowable `int64` corners are narrowed by regular validation and kept by free-form validation. |
| Subblocks.Rows | omf/blockmodel/subblocks.py:25-27 | The rows of a two-dimensional array: as many as its first axis, each as long as its second. |
| Subblocks.CheckContiguous | omf/blockmodel/subblocks.py:33-34 | The one-pass check answers true exactly when rows with the same parent are contiguous. |
| Subblocks.GeometryNotValidated | omf/blockmodel/subblocks.py:25-89 | A corners row far outside its parent passes `full` mode validation. It is neither within the parent nor a `full` mode row. |
| Subblocks.ContiguityNotValidated | omf/blockmodel/subblocks.py:33-89 | Rows whose parents are `p, q, p` pass validation, although their parents are not contiguous. |
| Attribute.EntryError | omf/attribute.py:80-94 | A status message entry is acceptable exactly when its key is at least 2 and its message is not blank. |
| Attribute.ValidateStatusMessages | omf/attribute.py:78-94 | The messages pass exactly when no key is 0, 1 or negative and no message is empty or whitespace. Otherwise the first bad entry's rule is reported. |
| Attribute.UniqueSorted | omf/attribute.py:108 | `np.unique` of the selected values: strictly increasing, and holding exactly the distinct selected values. |
| Attribute.ValidateAllStatus | omf/attribute.py:96-124 | An unset status passes. Otherwise it passes exactly when it is non-empty, non-negative, known (0, 1 or a message key) and as long as the values. Every failure is one of four errors, each exact: empty, negative, the sorted distinct unknown statuses, or the two lengths. The unknown statuses are reported exactly when the status is non-empty and non-negative and has an unknown value, so before a length mismatch: a length error means every status is known and non-negative. |
| Attribute.ValidMask | omf/attribute.py:126-131 | The mask is `None` exactly when the status is unset or all zero. Otherwise entry `i` is true exactly when status `i` is 0. |
| Attribute.ValidValuesAndMask | omf/attribute.py:141-154 | An unset array gives neither values nor mask. With no mask every value is kept. With a mask, a list is filtered through `zip`, and a numpy array of another length fails. |
| Attribute.ValidValues | omf/attribute.py:133-139 | `valid_values` is the first half of `valid_values_and_mask` and fails when it does. |
| Attribute.SelectIsPick | omf/attribute.py:151-153 | The filter keeps exactly the values at the true mask positions, in their original order. |
| Attribute.TrueIndicesComplete | omf/attribute.py:151-153 | Every true mask position is selected. |
| Attribute.TrueIndicesIncreasing | omf/attribute.py:151-153 | Selected positions are listed in increasing order, each once. |
| Attribute.TrueIndicesMarked | omf/attribute.py:151-153 | Only true mask positions are selected. |
| Attribute.SelectZeroMaskLength | omf/attribute.py:130-153 | Filtering by the zero-status mask keeps as many values as there are zero statuses. |
| Attribute.ValidValuesOfValidated | omf/attribute.py:96-154 | For a validated attribute, `valid_values` holds exactly the values with status 0, in order, as many as there are zero statuses, for a list and for an array. |
| Attribute.ListAndArrayDifferOnLength | omf/attribute.py:150-153 | With three values and two statuses, a list is filtered up to the shorter length, while a numpy array is refused. |
| Colormap.CastUint8 | omf/colormap.py:50-53 | The `uint8` cast keeps a value exactly when the value lies in 0..255. |
| Colormap.CheckGradient | omf/colormap.py:45-54 | A gradient is accepted exactly when it is unset or every entry lies in 0..255. It is then stored as `uint8` with the same shape and values. |
| Colormap.ValidateLimits | omf/colormap.py:37-60 | Limits pass exactly when there are two and `limits[0] <= limits[1]`. The order error is raised exactly for two limits out of order. |
| Colormap.ValidateDiscreteLengths | omf/colormap.py:92-117 | A discrete colormap passes exactly when it has as many flags as end points and one more colour than end points, so it has at least one colour. |
| Colormap.AdjacentSorted | omf/colormap.py:119-124 | Checking neighbours is checking every pair: neighbours in order exactly when the whole list is sorted. |
| Colormap.ValidateEndPoints | omf/colormap.py:119-124 | End points pass exactly when they are sorted. Equal neighbours are allowed. |
| Colormap.CheckEndPoints | omf/colormap.py:119-124 | The loop over neighbours, stopping at the first negative difference, answers true exactly when the end points are sorted. |
| Colormap.IntervalIndexInRange | omf/colormap.py:63-117 | In a colormap that passed the length rule, every value's interval names a colour, and a larger value never gets an earlier interval. |
| Colormap.IntervalIndexExtremes | omf/colormap.py:63-88 | A value below every end point takes the first interval. A value above every end point takes the last. |
| Colormap.CountPastAtEndPoint | omf/colormap.py:63-88 | With strictly increasing end points, a value equal to end point `k` has passed every earlier end point and no later one. It has passed end point `k` itself exactly when that point is not inclusive. |
| Colormap.EndInclusiveDecidesTies | omf/colormap.py:63-101 | With strictly increasing end points, a value equal to end point `k` takes interval `k` (the lower one) when `end_inclusive[k]` holds, otherwise interval `k + 1`. |
| Colormap.ValidateCategoryLengths | omf/colormap.py:149-170 | A category colormap passes exactly when it has one value per index and the colours are absent or one per value. |
| Element.AttributeError | omf/element.py:56-74 | For a failing attribute, the location is checked first. A bad location is reported as such, otherwise the length error carries the actual and expected lengths. |
| Element.ValidateAttributes | omf/element.py:52-75 | Validation passes exactly when the class has locations and every attribute has an allowed location and the right length. No locations is reported as such. Any other error names an attribute before which all were fine. |
| Element.FirstBadAttributeReported | omf/element.py:56-74 | Attributes are checked in order: the first bad one is the one reported, whatever follows. |
| Element.ValidateAttributesAppend | omf/element.py:56-74 | Validation depends on each attribute alone: `xs + ys` passes exactly when both parts pass. |
| Element.ElementExamples | omf/element.py:52-75 | No attributes pass when the class has a location. A wrong location and a two-value attribute on three vertices are each reported. |

## Left out

- Fresh keys: `uuid.uuid4()` is not modelled. The key is a parameter, and the precondition that it is absent from the store stands for its uniqueness.
- Float payloads: the bytes of float16/32/64/128 elements are opaque. IEEE 754 layout and NaN are not interpreted.
- Date-time parsing: the `properties.DateTime` test is a parameter of `StringListCodec.DataType` and `Serialize`.
- JsonText.Loads: only the part of `json.loads` that reads what `json.dumps` writes is modelled: `null` or a list of strings, with every escape. Numbers, objects, booleans, non-ASCII input and lone surrogates give `Malformed`. Such texts never come from `StringList.serialize`.
- Error messages: the text of every `ValidationError`, including the five-value listing of missing statuses, becomes a datatype value.
- Subblocks.ValidateRegular: the octree test is `trunc(log2(n)) == log2(n)` on float64 values. It is modelled in exact arithmetic, as "is a power of two". The float test also accepts some counts that are not powers of two, from about 2^48 on, because `log2` of a count next to a power of two rounds to a whole number. `2**60 + 1` converts to the float `2**60`, and `log2(2**50 - 1)` rounds to `50.0`. The model rejects such counts. `log2(0)` is minus infinity, which equals its truncation, so a zero count passes the octree test. The count validator rejects zero anyway.
- OctreeAcceptsPowersOfTwo and OctreeTestOnPositiveCounts (module Subblocks): both state the exact power-of-two test. They do not hold for the source's float test on the large non-powers of two above, which the source accepts in octree mode.
- Schema.Deserialize: `value.pop("schema", None)` removes the tag from the caller's dictionary, even when the lookup then raises. The model returns a new dictionary and leaves this side effect on its input out.
- Subblocks.ValidateRegular: the source narrows both index arrays in place before the octree test. When that test then fails, the arrays stay narrowed. The model returns only the error.
- The shape and dtype checks of the properties library (`shape=("*", 3)`, `dtype=int`, the three-entry `subblock_count`) are not modelled. Colormap.CheckGradient therefore requires an integer gradient, which the property declaration guarantees.
- Colormap.ValidateLimits: limits are reals, so NaN limits (for which `limits[0] > limits[1]` is false) are not modelled.
- Colormap.ValidateEndPoints: end points are reals, so NaN is not modelled. A difference involving NaN is not negative, so the source accepts an unsorted list such as `[1.0, nan, 0.0]`; the model's lists are sorted whenever they pass.
- FixedWidth, ArrayCodec.Payload: numpy's `tobytes` and `frombuffer` use the host's byte order. The model fixes least significant byte first, so the stored bytes are those a little-endian host writes; on a big-endian host each integer's bytes are reversed.
- JsonText.DecodeAscii: `bytes.decode("utf8")` is modelled only for bytes below 128. Other bytes are refused, although valid UTF-8 would decode; `StringList.serialize` never writes them, since `json.dumps` escapes every non-ASCII character.
- StringListCodec.DecodePayload: a stored payload with a non-ASCII byte gives `Malformed`, where the source would decode valid UTF-8 and could read a list from it.
- ArrayCodec.ParseShape: only a list of non-negative integers is read as a shape. `reshape` would also accept a bare integer such as `5`, read as a one-axis shape, and a `-1` entry, whose size it infers. `serialize` writes neither.
- Colour-string parsing of `properties.Color` is not modelled. Colours are opaque.
- Attribute: a status that is an `Array` with an unset array is not modelled. A boolean status array is its 0 / 1 values.
- Attribute: the `properties` library's mutation observation is not modelled. `ValidateStatusMessages` checks the dictionary as given.
- `ArbitraryMetadataDict`, `BaseMetadata`, `StringDateTime` and `ContentModel` in `omf/base.py` are thin wrappers over the properties library and are not modelled.
- The properties library's own `serialize` / `deserialize` are not modelled. `Schema.Deserialize` stops at the dictionary it hands on, and the array codecs start from the fields they read.
- omf/project.py, omf/pointset.py and omf/__init__.py are not part of this model: they hold declarations, a stale legacy class and re-exports.
