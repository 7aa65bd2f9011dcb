/** Schema-tag dispatch of `BaseModel`: every serialized object carries its
    class's `schema` string, and on the way back the tag is resolved through
    the class registry to the class name that the properties library then
    instantiates. The tag wins over any `__class__` hint already present. */
module Schema {
  import opened Results
  import opened JsonValue

  /** One class of the properties library's registry, in registration order:
      its name and, when the class has one, its `schema` attribute. */
  datatype RegistryEntry = RegistryEntry(className: string, schema: Option<string>)

  type Registry = seq<RegistryEntry>

  datatype SchemaError = SchemaNotFound(tag: Json)

  /** Key of the type hint the properties library reads when deserializing. */
  const ClassKey := "__class__"
  const SchemaKey := "schema"

  /** `i` is the first registry position whose class declares schema `tag`. */
  predicate IsFirstMatch(reg: Registry, tag: string, i: int)
  {
    && 0 <= i < |reg|
    && reg[i].schema == Some(tag)
    && forall j :: 0 <= j < i ==> reg[j].schema != Some(tag)
  }

  /** No two registered classes declare the same schema. */
  predicate DistinctSchemas(reg: Registry)
  {
    forall i, j :: 0 <= i < j < |reg| && reg[i].schema.Some? ==> reg[i].schema != reg[j].schema
  }

  /** `BaseModel.serialize`: the object's own tag is written into the output,
      replacing any `schema` entry the properties library produced. */
  function Serialize(props: Object, schema: string): (r: Object)
    ensures SchemaKey in r && r[SchemaKey] == JStr(schema)
    ensures r.Keys == props.Keys + {SchemaKey}
    ensures forall k :: k in props && k != SchemaKey ==> r[k] == props[k]
  {
    props[SchemaKey := JStr(schema)]
  }

  /** Registry scan from position `start` on, in registration order. */
  function MatchFrom(reg: Registry, tag: string, start: nat): (r: Option<nat>)
    requires start <= |reg|
    requires forall j :: 0 <= j < start ==> reg[j].schema != Some(tag)
    ensures r.Some? ==> IsFirstMatch(reg, tag, r.value)
    ensures r.None? ==> forall j :: 0 <= j < |reg| ==> reg[j].schema != Some(tag)
    decreases |reg| - start
  {
    if start == |reg| then None
    else if reg[start].schema == Some(tag) then Some(start)
    else MatchFrom(reg, tag, start + 1)
  }

  /** `BaseModel.__lookup_class`: the name of the first registered class whose
      schema equals the tag; an unknown tag is an error. */
  function LookupClass(reg: Registry, tag: string): (r: Result<string, SchemaError>)
    ensures r.Ok? <==> exists i :: 0 <= i < |reg| && reg[i].schema == Some(tag)
    ensures r.Ok? ==> exists i :: IsFirstMatch(reg, tag, i) && reg[i].className == r.value
    ensures r.Err? ==> r.error == SchemaNotFound(JStr(tag))
  {
    match MatchFrom(reg, tag, 0)
    case Some(i) => Ok(reg[i].className)
    case None => Err(SchemaNotFound(JStr(tag)))
  }

  /** `BaseModel.deserialize`, up to the hand-over to the properties library:
      the object that library receives. A present tag is removed, and unless it
      is null it is resolved and written over `__class__`. */
  function Deserialize(value: Object, reg: Registry): (r: Result<Object, SchemaError>)
    ensures SchemaKey !in value ==> r == Ok(value)
    ensures SchemaKey in value && value[SchemaKey].JNull? ==> r == Ok(value - {SchemaKey})
    ensures r.Ok? ==> SchemaKey !in r.value
    ensures r.Ok? ==> r.value.Keys <= (value.Keys - {SchemaKey}) + {ClassKey}
    ensures r.Ok? ==> forall k :: k in value && k != SchemaKey && k != ClassKey ==> k in r.value && r.value[k] == value[k]
    ensures SchemaKey in value && value[SchemaKey].JStr? ==>
              (r.Ok? <==> exists i :: 0 <= i < |reg| && reg[i].schema == Some(value[SchemaKey].s))
    ensures SchemaKey in value && value[SchemaKey].JStr? && r.Ok? ==>
              ClassKey in r.value &&
              exists i :: IsFirstMatch(reg, value[SchemaKey].s, i) && r.value[ClassKey] == JStr(reg[i].className)
    ensures SchemaKey in value && !value[SchemaKey].JStr? && !value[SchemaKey].JNull? ==>
              r == Err(SchemaNotFound(value[SchemaKey]))
  {
    if SchemaKey !in value then Ok(value)
    else
      var rest := value - {SchemaKey};
      match value[SchemaKey]
      case JNull => Ok(rest)
      case JStr(tag) =>
        var name :- LookupClass(reg, tag);
        Ok(rest[ClassKey := JStr(name)])
      case _ => Err(SchemaNotFound(value[SchemaKey]))
  }

  /** Dispatch round trip: with distinct registered schemas, deserializing what
      an instance of the class at position `k` serialized resolves to that
      class, whatever `__class__` hint the serialized form carried. */
  lemma SerializeDeserializeResolvesClass(reg: Registry, k: nat, props: Object)
    requires DistinctSchemas(reg)
    requires k < |reg| && reg[k].schema.Some?
    ensures var r := Deserialize(Serialize(props, reg[k].schema.value), reg);
            && r.Ok?
            && r.value[ClassKey] == JStr(reg[k].className)
            && r.value.Keys == (props.Keys - {SchemaKey}) + {ClassKey}
  {
    var tag := reg[k].schema.value;
    var r := Deserialize(Serialize(props, tag), reg);
    assert r.Ok?;
    var i :| IsFirstMatch(reg, tag, i) && r.value[ClassKey] == JStr(reg[i].className);
    assert i == k;
  }
}
