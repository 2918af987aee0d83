/** The earlier, standalone generator (`elastic-mapper/elastic-mapper.go`).

    Its `GetElasticMapping` writes straight into the container it is given
    and has no document wrapper. It differs from the library walker in three
    observable ways: every field that is not skipped gets its node before
    the kind switch, so unsupported fields leave an empty object; arrays and
    slices are handled by the value switch, which makes a second node named
    after the field inside the field's node; and `time.Time` is only special
    as a value, so a timestamp field takes the struct branch. Container
    failures end the process through `log.Fatal`, modelled as a failed walk.
 */
module StandaloneMapper {
  import opened Results
  import opened GoTypes
  import opened Gabs
  import opened Mapping
  import Tags

  /** The placeholder names the Go code passes along with struct values;
      the struct branch never reads them. */
  const ObjectPlaceholder: string := "asfdADAdASD"
  const NestedPlaceholder: string := "QWWEW5afasfsddfsf"

  /** GetElasticMapping: fill `node` with the mapping of a zero value of
      kind `k`; `structName` names the node an array or slice creates. */
  function Walk(node: Json, k: Kind, structName: string, isText: bool): (r: Result<Json>)
    ensures k.Interface? ==> r == Err(NilInterface)
    ensures node.Obj? && r.Ok? ==>
              && r.value.Obj?
              && node.members.Keys <= r.value.members.Keys
    ensures ObjectMembers(node) && r.Err? ==> r.error == NilInterface
    ensures node.Obj? && !k.Struct? && r.Err? ==> r.error == NilInterface
    decreases k
  {
    // time.Time is mapped through its Unix() value, an int64
    if k.Time? then Ok(MapScalar(node, Int64, false))
    else if IsSequence(k) then WalkSequence(node, k, structName)
    else if k.Struct? then WalkFields(node, k.fields)
    // reflect.TypeOf(nil).Kind() panics
    else if k.Interface? then Err(NilInterface)
    // the scalar kinds; pointers and every other kind are only logged
    else Ok(MapScalar(node, k, isText))
  }

  /** The array and slice branch: a node called `structName`, `nested`
      for struct elements, otherwise filled by the element's walk with the
      text flag off. */
  function WalkSequence(node: Json, k: Kind, structName: string): (r: Result<Json>)
    requires IsSequence(k)
    ensures node.Obj? && r.Ok? ==>
              && r.value.Obj?
              && node.members.Keys <= r.value.members.Keys
    ensures node.Obj? && r.Err? ==> r.error == NilInterface
    decreases k, 0
  {
    var e := k.elem;
    match Object(node, [structName])
    case Err(err) => Err(err)
    case Ok(node1) =>
      if IsGoStruct(e) then
        // the error of this Set is discarded
        var child1 := SetType(Empty, "nested");
        match Object(child1, [PropertiesKey])
        case Err(err) => Err(err)
        case Ok(child2) =>
          match Walk(Empty, e, NestedPlaceholder, false)
          case Err(err) => Err(err)
          case Ok(properties) =>
            Ok(Obj(node1.members[structName := Obj(child2.members[PropertiesKey := properties])]))
      else
        match Walk(Empty, e, structName, false)
        case Err(err) => Err(err)
        case Ok(child) => Ok(Obj(node1.members[structName := child]))
  }

  /** The loop over a struct's fields, in declaration order. */
  function WalkFields(node: Json, fs: seq<Field>): (r: Result<Json>)
    ensures node.Obj? && r.Ok? ==>
              && r.value.Obj?
              && node.members.Keys <= r.value.members.Keys
    ensures ObjectMembers(node) && r.Ok? ==> ObjectMembers(r.value)
    ensures ObjectMembers(node) && r.Err? ==> r.error == NilInterface
    decreases fs
  {
    if fs == [] then Ok(node)
    else
      var node' :- WalkField(node, fs[0]);
      WalkFields(node', fs[1..])
  }

  /** One iteration of the field loop: skip on `-`, otherwise make the
      field's node first and then dispatch on the field's kind. */
  function WalkField(node: Json, f: Field): (r: Result<Json>)
    ensures Skipped(f) ==> r == Ok(node)
    ensures node.Obj? && r.Ok? ==>
              && r.value.Obj?
              && node.members.Keys <= r.value.members.Keys
              && forall key :: key in node.members && key != f.name ==>
                                 r.value.members[key] == node.members[key]
    ensures ObjectMembers(node) && r.Ok? ==> ObjectMembers(r.value)
    ensures node.Obj? && r.Err? ==> r.error == NilInterface
    decreases f
  {
    if Skipped(f) then Ok(node)
    else
      match Object(node, [f.name])
      case Err(e) => Err(e)
      case Ok(node1) =>
        if IsGoStruct(f.typ) then
          match Set(Empty, [TypeKey], Str("object"))
          case Err(e) => Err(e)
          case Ok(child1) =>
            match Object(child1, [PropertiesKey])
            case Err(e) => Err(e)
            case Ok(child2) =>
              match Walk(Empty, f.typ, ObjectPlaceholder, false)
              case Err(e) => Err(e)
              case Ok(properties) =>
                Ok(Obj(node1.members[f.name := Obj(child2.members[PropertiesKey := properties])]))
        else
          match Walk(Empty, f.typ, f.name, Tags.RendersText(f.tag))
          case Err(e) => Err(e)
          case Ok(child) => Ok(Obj(node1.members[f.name := child]))
  }
}
