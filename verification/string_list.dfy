/** The `StringList` model: a list of strings whose derived `data_type`,
    `shape` and `size` come from the list itself, and whose payload is the
    UTF-8 bytes of its JSON text, stored under a fresh key of the binary
    store. */
module StringListCodec {
  import opened Results
  import opened Bits
  import opened JsonValue
  import opened JsonText
  import opened BinaryStore
  import Schema

  /** A `StringList` object; `data` is `None` while its `array` is unset. */
  datatype StringList = StringList(data: Option<seq<string>>)

  const StringListSchema := "org.omf.v2.array.string"
  const DateTimeTag := "DateTimeArray"
  const StringTag := "StringArray"

  /** Whether the `properties` library's `DateTime` property accepts a string
      (its date-time formats are outside the model, so this is a parameter). */
  type DateTimeTest = string -> bool

  /** `StringList.data_type`: `DateTimeArray` when every element is a date-time
      (so also for an empty list), otherwise `StringArray`; unset for an unset
      list. */
  function DataType(sl: StringList, isDateTime: DateTimeTest): (r: Option<string>)
    ensures r.None? <==> sl.data.None?
    ensures r == Some(DateTimeTag) <==>
              sl.data.Some? && forall i :: 0 <= i < |sl.data.value| ==> isDateTime(sl.data.value[i])
    ensures r == Some(StringTag) <==>
              sl.data.Some? && exists i :: 0 <= i < |sl.data.value| && !isDateTime(sl.data.value[i])
  {
    match sl.data
    case None => None
    case Some(xs) =>
      if forall i :: 0 <= i < |xs| ==> isDateTime(xs[i]) then Some(DateTimeTag) else Some(StringTag)
  }

  /** `StringList.shape`: a one-entry list holding the number of strings. */
  function Shape(sl: StringList): (r: Option<seq<nat>>)
    ensures r.None? <==> sl.data.None?
    ensures r.Some? ==> |r.value| == 1 && r.value[0] == |sl.data.value|
  {
    match sl.data
    case None => None
    case Some(xs) => Some([|xs|])
  }

  /** The JSON text `serialize` stores: `json.dumps` of the list, or of `None`. */
  function Text(sl: StringList): (r: string)
    ensures IsAscii(r)
  {
    match sl.data
    case None => DumpsNull
    case Some(xs) => Dumps(xs)
  }

  /** The stored bytes: the UTF-8 encoding of the JSON text. */
  function Payload(sl: StringList): (r: seq<Byte>)
    ensures |r| == |Text(sl)|
  {
    AsciiBytes(Text(sl))
  }

  /** `StringList.size`: the length of the JSON text of the list. */
  function Size(sl: StringList): (r: Option<nat>)
    ensures r.None? <==> sl.data.None?
    ensures r.Some? ==> r.value >= 2 && r.value >= 4 * |sl.data.value|
  {
    match sl.data
    case None => None
    case Some(xs) =>
      DumpsLength(xs);
      Some(|Dumps(xs)|)
  }

  /** What the properties library serializes for a `StringList` (class name
      and the derived properties that are not `None`), before the schema. */
  function PropertyFields(sl: StringList, isDateTime: DateTimeTest): (r: Object)
    ensures Schema.SchemaKey !in r && "array" !in r
    ensures sl.data.None? ==> "data_type" !in r && "shape" !in r && "size" !in r
    ensures sl.data.Some? ==>
              && "data_type" in r && r["data_type"] == JStr(DataType(sl, isDateTime).value)
              && "shape" in r && r["shape"] == IntList([|sl.data.value|])
              && "size" in r && r["size"] == JInt(Size(sl).value)
  {
    var base := map[Schema.ClassKey := JStr("StringList")];
    match sl.data
    case None => base
    case Some(xs) =>
      base["data_type" := JStr(DataType(sl, isDateTime).value)]
          ["shape" := IntList(Shape(sl).value)]
          ["size" := JInt(Size(sl).value)]
  }

  /** `StringList.serialize`. With a store, the JSON text's bytes are added
      under `freshKey` (a new uuid4) and the output points at it; an unset list
      is stored as `null`. Without a store nothing is stored. */
  function Serialize(sl: StringList, store: Option<Store>, freshKey: string, isDateTime: DateTimeTest): (r: Serialized)
    requires store.Some? ==> freshKey !in store.value
    ensures Schema.SchemaKey in r.output && r.output[Schema.SchemaKey] == JStr(StringListSchema)
    ensures store.None? ==> r.store.None? && "array" !in r.output
    ensures store.Some? ==>
              && r.store.Some?
              && r.store.value.Keys == store.value.Keys + {freshKey}
              && (forall k :: k in store.value ==> r.store.value[k] == store.value[k])
              && "array" in r.output && r.output["array"] == JStr(freshKey)
              && DecodeAscii(r.store.value[freshKey]) == Some(Text(sl))
              && (sl.data.Some? ==> Size(sl) == Some(|r.store.value[freshKey]|))
    ensures sl.data.Some? ==>
              && "data_type" in r.output && r.output["data_type"] == JStr(DataType(sl, isDateTime).value)
              && "shape" in r.output && r.output["shape"] == IntList([|sl.data.value|])
              && "size" in r.output && r.output["size"] == JInt(Size(sl).value)
    ensures sl.data.None? ==> "data_type" !in r.output && "shape" !in r.output && "size" !in r.output
  {
    var output := Schema.Serialize(PropertyFields(sl, isDateTime), StringListSchema);
    match store
    case None => Serialized(output, None)
    case Some(s) =>
      DecodeAsciiBytes(Text(sl));
      Serialized(output["array" := JStr(freshKey)], Some(Put(s, freshKey, Payload(sl))))
  }

  datatype StringListError =
    | UnhashableKey   // the `array` entry cannot be a store key
    | Malformed       // the stored text is not ASCII JSON `null` or a list of strings

  /** Reading a stored payload back: `json.loads(bytes.decode("utf8"))`; `null`
      leaves the list unset. */
  function DecodePayload(bytes: seq<Byte>): (r: Result<StringList, StringListError>)
    ensures r.Ok? <==> exists text :: DecodeAscii(bytes) == Some(text) && Loads(text).Some?
    ensures r.Ok? && r.value.data.Some? ==>
              exists text :: DecodeAscii(bytes) == Some(text) && Loads(text) == Some(StringItems(r.value.data.value))
  {
    match DecodeAscii(bytes)
    case None => Err(Malformed)
    case Some(text) =>
      match Loads(text)
      case None => Err(Malformed)
      case Some(NullValue) => Ok(StringList(None))
      case Some(StringItems(xs)) => Ok(StringList(Some(xs)))
  }

  /** `StringList.deserialize`: like `Array.deserialize`, a value that is not
      an object, lacks one of `shape`, `data_type`, `array`, or names a key
      absent from the store gives an empty `StringList`; a key in the store
      gives whatever its payload decodes to. */
  function Deserialize(value: Json, store: Store): (r: Result<StringList, StringListError>)
    ensures !HasEnvelopeKeys(value) ==> r == Ok(StringList(None))
    ensures HasEnvelopeKeys(value) && value.fields["array"].JStr? && value.fields["array"].s !in store
            ==> r == Ok(StringList(None))
    ensures r == Err(UnhashableKey) <==>
              HasEnvelopeKeys(value) && (value.fields["array"].JList? || value.fields["array"].JObj?)
    ensures HasEnvelopeKeys(value) && !value.fields["array"].JStr?
            && !value.fields["array"].JList? && !value.fields["array"].JObj?
            ==> r == Ok(StringList(None))
    ensures HasEnvelopeKeys(value) && value.fields["array"].JStr? && value.fields["array"].s in store
            ==> r == DecodePayload(store[value.fields["array"].s])
    ensures r.Ok? && r.value.data.Some? ==>
              && HasEnvelopeKeys(value) && value.fields["array"].JStr?
              && value.fields["array"].s in store
              && DecodePayload(store[value.fields["array"].s]) == r
  {
    match Locate(value, store)
    case Err(_) => Err(UnhashableKey)
    case Ok(Absent) => Ok(StringList(None))
    case Ok(Found(_, bytes)) => DecodePayload(bytes)
  }

  /** The stored payload of any list reads back to that list. */
  lemma DecodePayloadRoundTrip(sl: StringList)
    ensures DecodePayload(Payload(sl)) == Ok(sl)
  {
    DecodeAsciiBytes(Text(sl));
    match sl.data
    case None => LoadsNull();
    case Some(xs) => LoadsDumps(xs);
  }

  /** Round trip through a store: deserializing what `serialize` wrote, against
      the store it wrote into, gives back the same list of strings. */
  lemma SerializeDeserialize(xs: seq<string>, store: Store, freshKey: string, isDateTime: DateTimeTest)
    requires freshKey !in store
    ensures var r := Serialize(StringList(Some(xs)), Some(store), freshKey, isDateTime);
            Deserialize(JObj(r.output), r.store.value) == Ok(StringList(Some(xs)))
  {
    var sl := StringList(Some(xs));
    var r := Serialize(sl, Some(store), freshKey, isDateTime);
    assert HasEnvelopeKeys(JObj(r.output));
    assert r.store.value[freshKey] == Payload(sl);
    DecodePayloadRoundTrip(sl);
  }

  /** An unset list serializes without `shape` and `data_type`, so reading it
      back gives an unset list again, although `null` was stored. */
  lemma SerializeDeserializeUnset(store: Store, freshKey: string, isDateTime: DateTimeTest)
    requires freshKey !in store
    ensures var r := Serialize(StringList(None), Some(store), freshKey, isDateTime);
            && r.store.value[freshKey] == [110, 117, 108, 108]
            && Deserialize(JObj(r.output), r.store.value) == Ok(StringList(None))
  {
    var r := Serialize(StringList(None), Some(store), freshKey, isDateTime);
    assert r.store.value[freshKey] == AsciiBytes(DumpsNull);
  }

  /** Nothing fails the date-time test in an empty list, so its type is
      `DateTimeArray`; its JSON text is `[]`, two bytes. */
  lemma EmptyListIsDateTime(isDateTime: DateTimeTest)
    ensures DataType(StringList(Some([])), isDateTime) == Some(DateTimeTag)
    ensures Shape(StringList(Some([]))) == Some([0])
    ensures Size(StringList(Some([]))) == Some(2)
  {
  }
}
