/** The binary store both array classes serialize into (`binary_dict`: fresh
    string keys to byte strings), and the first half of their `deserialize`,
    which finds an envelope's payload in it. */
module BinaryStore {
  import opened Results
  import opened Bits
  import opened JsonValue

  type Store = map<string, seq<Byte>>

  /** A serialized object together with the store after serializing it. */
  datatype Serialized = Serialized(output: Object, store: Option<Store>)

  /** The entries an envelope must have for its payload to be looked up. */
  const EnvelopeKeys: set<string> := {"shape", "data_type", "array"}

  predicate HasEnvelopeKeys(value: Json)
  {
    value.JObj? && EnvelopeKeys <= value.fields.Keys
  }

  /** The payload of an envelope, or `Absent` when the class falls back to an
      empty instance. */
  datatype Located = Absent | Found(fields: Object, bytes: seq<Byte>)

  /** The `array` entry cannot be a dictionary key (a list or an object). */
  datatype LocateError = KeyNotHashable(key: Json)

  /** `value["array"] in binary_dict`, after the checks that the value is a
      dictionary holding `shape`, `data_type` and `array`. Only a string can be
      a key of the store; a list or an object makes the membership test raise. */
  function Locate(value: Json, store: Store): (r: Result<Located, LocateError>)
    ensures r.Err? <==> HasEnvelopeKeys(value) && (value.fields["array"].JList? || value.fields["array"].JObj?)
    ensures r.Ok? && r.value.Found? <==>
              HasEnvelopeKeys(value) && value.fields["array"].JStr? && value.fields["array"].s in store
    ensures r.Ok? && r.value.Found? ==>
              r.value.fields == value.fields && r.value.bytes == store[value.fields["array"].s]
  {
    if !HasEnvelopeKeys(value) then Ok(Absent)
    else
      var key := value.fields["array"];
      if key.JList? || key.JObj? then Err(KeyNotHashable(key))
      else if key.JStr? && key.s in store then Ok(Found(value.fields, store[key.s]))
      else Ok(Absent)
  }

  /** `binary_dict.update({uid: payload})` for a fresh `uid`: one entry is
      added and every other entry is kept. */
  function Put(store: Store, key: string, payload: seq<Byte>): (r: Store)
    requires key !in store
    ensures r.Keys == store.Keys + {key} && r[key] == payload
    ensures forall k :: k in store ==> r[k] == store[k]
  {
    store[key := payload]
  }
}
