/** The mapping generator of the `elasticmapper` library package.

    `GetElasticMapping` makes the document `{mappings: {<typeName>:
    {properties: …}}}` and hands the `properties` container to the walker
    `getElasticMappingImpl` (here `MapValue`), which dispatches on the kind
    of the value's type. Struct fields are handled one by one (`MapField`):
    a `-` option drops the field, `time.Time` becomes `date`, a struct
    becomes an `object` node, an array or slice is handled by
    `MapSequenceField`, and anything else gets a fresh node the walker
    fills in.
 */
module ElasticMapper {
  import opened Results
  import opened GoTypes
  import opened Gabs
  import opened Mapping

  /** The keys a walk of kind `k` may write into the container it is given. */
  function Touched(k: Kind): set<string> {
    if k.Struct? then MappedNames(k.fields) else {TypeKey}
  }

  /** getElasticMappingImpl: fill the container `node` with the mapping of
      a zero value of kind `k`. The text flag only matters for strings. */
  function MapValue(node: Json, k: Kind, isText: bool): (r: Result<Json>)
    ensures k.Interface? ==> r == Err(NilInterface)
    ensures IsSequence(k) ==> r == Ok(node)
    ensures node.Obj? && r.Ok? ==>
              && r.value.Obj?
              && node.members.Keys <= r.value.members.Keys
              && forall key :: key in node.members && key !in Touched(k) ==>
                                 r.value.members[key] == node.members[key]
    ensures ObjectMembers(node) && r.Err? ==> r.error == NilInterface
    decreases k
  {
    // time.Time is mapped through its Unix() value, an int64
    if k.Time? then Ok(MapScalar(node, Int64, false))
    else if IsSequence(k) then Ok(node)
    else if k.Struct? then MapFields(node, k.fields)
    // reflect.TypeOf(nil).Kind() panics
    else if k.Interface? then Err(NilInterface)
    // the scalar kinds; pointers and every other kind are only logged
    else Ok(MapScalar(node, k, isText))
  }

  /** The loop over a struct's fields, in declaration order; the first
      failure ends it. */
  function MapFields(node: Json, fs: seq<Field>): (r: Result<Json>)
    ensures node.Obj? && r.Ok? ==>
              && r.value.Obj?
              && node.members.Keys <= r.value.members.Keys
              && forall key :: key in node.members && key !in MappedNames(fs) ==>
                                 r.value.members[key] == node.members[key]
    ensures ObjectMembers(node) && r.Ok? ==> ObjectMembers(r.value)
    ensures ObjectMembers(node) && r.Err? ==> r.error == NilInterface
    decreases fs
  {
    if fs == [] then Ok(node)
    else
      var node' :- MapField(node, fs[0]);
      assert MappedNames(fs) == MappedNamesHead(fs) + MappedNames(fs[1..]) by {
        MappedNamesCons(fs);
      }
      MapFields(node', fs[1..])
  }

  /** One iteration of the field loop. */
  function MapField(node: Json, f: Field): (r: Result<Json>)
    ensures Skipped(f) ==> r == Ok(node)
    ensures node.Obj? && r.Ok? ==>
              && r.value.Obj?
              && node.members.Keys <= r.value.members.Keys
              && forall key :: key in node.members && key != f.name ==>
                                 r.value.members[key] == node.members[key]
    ensures ObjectMembers(node) && r.Ok? ==> ObjectMembers(r.value)
    ensures ObjectMembers(node) && r.Err? ==> r.error == NilInterface
    decreases f, 1
  {
    if Skipped(f) then Ok(node)
    else if f.typ.Time? then SetFieldType(node, f.name, "date")
    else if f.typ.Struct? then MapStructField(node, f)
    else if IsSequence(f.typ) then MapSequenceField(node, f)
    else
      match Object(node, [f.name])
      case Err(e) => Err(e)
      case Ok(node1) =>
        match MapValue(Empty, f.typ, Tags.RendersText(f.tag))
        case Err(e) => Err(e)
        case Ok(child) => Ok(Obj(node1.members[f.name := child]))
  }

  /** `jsonTree.Set(t, name, "type")`: a field node holding type `t`,
      made if missing. */
  function SetFieldType(node: Json, name: string, t: string): (r: Result<Json>)
    ensures node.Obj? && r.Ok? ==>
              && r.value.Obj?
              && node.members.Keys <= r.value.members.Keys
              && forall key :: key in node.members && key != name ==>
                                 r.value.members[key] == node.members[key]
    ensures ObjectMembers(node) ==> r.Ok? && ObjectMembers(r.value)
    ensures node.Obj? && name !in node.members ==> r == Ok(Obj(node.members[name := TypeOnly(t)]))
  {
    var r := Set(node, [name, TypeKey], Str(t));
    if node.Obj? && name in node.members && node.members[name].Obj? then
      assert !Blocked(node.members[name], [name, TypeKey][1..]);
      r
    else if node.Obj? && name !in node.members then
      SetFreshPair(node.members, name, TypeKey, Str(t));
      r
    else
      r
  }

  /** The struct branch of the field loop: an `object` node whose
      `properties` the walker fills in. */
  function MapStructField(node: Json, f: Field): (r: Result<Json>)
    requires f.typ.Struct?
    ensures node.Obj? && r.Ok? ==>
              && r.value.Obj?
              && node.members.Keys <= r.value.members.Keys
              && forall key :: key in node.members && key != f.name ==>
                                 r.value.members[key] == node.members[key]
    ensures ObjectMembers(node) && r.Ok? ==> ObjectMembers(r.value)
    ensures ObjectMembers(node) && r.Err? ==> r.error == NilInterface
    decreases f, 0
  {
    match Object(node, [f.name])
    case Err(e) => Err(e)
    case Ok(node1) =>
      match Set(Empty, [TypeKey], Str("object"))
      case Err(e) => Err(e)
      case Ok(child1) =>
        match Object(child1, [PropertiesKey])
        case Err(e) => Err(e)
        case Ok(child2) =>
          match MapValue(Empty, f.typ, false)
          case Err(e) => Err(e)
          case Ok(properties) =>
            Ok(Obj(node1.members[f.name := Obj(child2.members[PropertiesKey := properties])]))
  }

  /** The array and slice branch of the field loop. */
  function MapSequenceField(node: Json, f: Field): (r: Result<Json>)
    requires IsSequence(f.typ)
    ensures node.Obj? && r.Ok? ==>
              && r.value.Obj?
              && node.members.Keys <= r.value.members.Keys
              && forall key :: key in node.members && key != f.name ==>
                                 r.value.members[key] == node.members[key]
    ensures ObjectMembers(node) && r.Ok? ==> ObjectMembers(r.value)
    ensures ObjectMembers(node) && r.Err? ==> r.error == NilInterface
    decreases f, 0
  {
    var e := f.typ.elem;
    if e.Time? then SetFieldType(node, f.name, "date")
    else if e.Struct? then
      match Object(node, [f.name])
      case Err(err) => Err(err)
      case Ok(node1) =>
        // the error of this Set is discarded
        var child1 := SetType(Empty, "nested");
        match Object(child1, [PropertiesKey])
        case Err(err) => Err(err)
        case Ok(child2) =>
          match MapValue(Empty, e, false)
          case Err(err) => Err(err)
          case Ok(properties) =>
            Ok(Obj(node1.members[f.name := Obj(child2.members[PropertiesKey := properties])]))
    else
      match Object(node, [f.name])
      case Err(err) => Err(err)
      case Ok(node1) =>
        match MapValue(Empty, e, Tags.RendersText(f.tag))
        case Err(err) => Err(err)
        case Ok(child) => Ok(Obj(node1.members[f.name := child]))
  }

  /** The path of the root `properties` container. */
  function RootPath(typeName: string): seq<string> {
    ["mappings", typeName, PropertiesKey]
  }

  /** GetElasticMapping: the whole mapping document for a value of kind `k`.
      A failure of the walk is the caller's failure. */
  function GetElasticMapping(k: Kind, typeName: string): (r: Result<Json>)
    ensures MapValue(Empty, k, false).Err? ==> r == Err(MapValue(Empty, k, false).error)
    ensures MapValue(Empty, k, false).Ok? ==> r == Ok(Document(typeName, MapValue(Empty, k, false).value))
    ensures r.Ok? ==>
              && MapValue(Empty, k, false).Ok?
              && r.value == Document(typeName, MapValue(Empty, k, false).value)
    ensures r.Err? ==> r.error == NilInterface
  {
    match Object(Empty, RootPath(typeName))
    case Err(e) => Err(e)
    case Ok(tree) =>
      match MapValue(Empty, k, false)
      case Err(e) => Err(e)
      case Ok(properties) =>
        RootWriteBack(typeName, properties);
        Set(tree, RootPath(typeName), properties)
  }

  /** `{mappings: {<typeName>: {properties: <properties>}}}` */
  function Document(typeName: string, properties: Json): Json {
    Obj(map["mappings" := Obj(map[typeName := Obj(map[PropertiesKey := properties])])])
  }

  lemma RootWriteBack(typeName: string, properties: Json)
    ensures Object(Empty, RootPath(typeName)) == Ok(Document(typeName, Empty))
    ensures Set(Document(typeName, Empty), RootPath(typeName), properties)
            == Ok(Document(typeName, properties))
  {
    var p := RootPath(typeName);
    assert p[1..] == [typeName, PropertiesKey];
    assert p[1..][1..] == [PropertiesKey];
    var inner := Obj(map[PropertiesKey := Empty]);
    SetKey(map[], PropertiesKey, Empty);
    assert Set(Empty, [typeName, PropertiesKey], Empty) == Ok(Obj(map[typeName := inner]));
    assert Set(Empty, p, Empty) == Ok(Document(typeName, Empty));
    SetKey(map[PropertiesKey := Empty], PropertiesKey, properties);
    assert map[PropertiesKey := Empty][PropertiesKey := properties] == map[PropertiesKey := properties];
    var inner' := Obj(map[PropertiesKey := properties]);
    assert map[typeName := inner][typeName := inner'] == map[typeName := inner'];
    assert Set(Obj(map[typeName := inner]), [typeName, PropertiesKey], properties) == Ok(Obj(map[typeName := inner']));
    var outer := Obj(map[typeName := inner]);
    var outer' := Obj(map[typeName := inner']);
    assert map["mappings" := outer]["mappings" := outer'] == map["mappings" := outer'];
  }
}
