/** Vocabulary of an ElasticSearch mapping shared by both generators:
    the `type` and `properties` keys, the scalar type names, and the
    leaf switch both walkers end in.
 */
module Mapping {
  import opened Results
  import opened GoTypes
  import opened Gabs

  const TypeKey: string := "type"
  const PropertiesKey: string := "properties"

  /** The ElasticSearch type of a scalar kind: every integer width is
      `long`, a string is `text` or `keyword` by the text flag, a bool is
      `boolean`, either float width is `double`. Other kinds have none. */
  function ScalarType(k: Kind, isText: bool): Option<string> {
    if IsInteger(k) then Some("long")
    else if k.String? then Some(if isText then "text" else "keyword")
    else if k.Bool? then Some("boolean")
    else if IsFloat(k) then Some("double")
    else None
  }

  /** A node holding only a type designator. */
  function TypeOnly(t: string): Json {
    Obj(map[TypeKey := Str(t)])
  }

  /** A node with a type designator and a `properties` object. */
  function Described(t: string, properties: Json): Json {
    Obj(map[TypeKey := Str(t), PropertiesKey := properties])
  }

  /** `jsonTree.Set(t, "type")` with its error discarded, as the Go code does. */
  function SetType(node: Json, t: string): (r: Json)
    ensures node.Obj? ==> r == Obj(node.members[TypeKey := Str(t)])
    ensures node.Str? ==> r == node
  {
    match Set(node, [TypeKey], Str(t))
    case Ok(n) => SetKey(node.members, TypeKey, Str(t)); n
    case Err(_) => node
  }

  /** The scalar cases of the kind switch: write the scalar's type, and
      leave the node untouched for every other kind. */
  function MapScalar(node: Json, k: Kind, isText: bool): (r: Json)
    ensures ScalarType(k, isText).None? ==> r == node
    ensures node.Str? ==> r == node
    ensures node.Obj? ==>
              && r.Obj?
              && node.members.Keys <= r.members.Keys
              && forall key :: key in node.members && key != TypeKey ==> r.members[key] == node.members[key]
  {
    match ScalarType(k, isText)
    case Some(t) => SetType(node, t)
    case None => node
  }

  /** The leaf a scalar kind yields at a fresh node: its type alone, or
      nothing at all for a kind with no ElasticSearch type. */
  lemma FreshScalar(k: Kind, isText: bool)
    ensures ScalarType(k, isText).Some? ==> MapScalar(Empty, k, isText) == TypeOnly(ScalarType(k, isText).value)
    ensures ScalarType(k, isText).None? ==> MapScalar(Empty, k, isText) == Empty
  {
  }

  /** The container steps of the struct and struct-array branches. */
  lemma DescribedFresh(m: map<string, Json>, name: string, t: string, properties: Json)
    ensures Object(Obj(m), [name]) == Ok(Obj(m[name := Empty]))
    ensures Set(Empty, [TypeKey], Str(t)) == Ok(TypeOnly(t))
    ensures SetType(Empty, t) == TypeOnly(t)
    ensures Object(TypeOnly(t), [PropertiesKey]) == Ok(Obj(map[TypeKey := Str(t), PropertiesKey := Empty]))
    ensures var shell := map[TypeKey := Str(t), PropertiesKey := Empty];
            m[name := Empty][name := Obj(shell[PropertiesKey := properties])] == m[name := Described(t, properties)]
  {
    SetKey(m, name, Empty);
    SetKey(map[], TypeKey, Str(t));
    SetKey(map[TypeKey := Str(t)], PropertiesKey, Empty);
    var shell := map[TypeKey := Str(t), PropertiesKey := Empty];
    assert shell[PropertiesKey := properties] == map[TypeKey := Str(t), PropertiesKey := properties];
  }

  lemma LeafFresh(m: map<string, Json>, name: string, child: Json)
    ensures Object(Obj(m), [name]) == Ok(Obj(m[name := Empty]))
    ensures m[name := Empty][name := child] == m[name := child]
  {
  }
}
