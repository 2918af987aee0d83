/** The dynamic JSON container the generators build their output in.

    The Go code uses a third-party container (github.com/Jeffail/gabs)
    wrapping nested `map[string]interface{}` values. Only two of its
    operations are used: `Set(value, path...)`, which walks the path through
    nested maps, creating an empty map for every missing intermediate key,
    stores the value at the last key and fails with a path collision when the
    walk meets something that is not a map; and `Object(path...)`, which is
    `Set` of a fresh empty map (so it replaces whatever the path held).

    A container is modelled by the JSON value it wraps. The Go containers
    alias the maps they return, so a write through a child container shows
    up in its parent; the walkers model that by writing the child's final
    value back under its key.
 */
module Gabs {
  import opened Results

  /** The values the generators store: strings and string-keyed objects. */
  datatype Json = Str(s: string) | Obj(members: map<string, Json>)

  /** A freshly made `map[string]interface{}{}`. */
  const Empty: Json := Obj(map[])

  /** An object whose every member is itself an object (a `properties`
      container holding only field nodes). */
  predicate ObjectMembers(j: Json) {
    j.Obj? && forall key :: key in j.members ==> j.members[key].Obj?
  }

  /** The value at `path`, if every step finds an object holding the key. */
  function Get(j: Json, path: seq<string>): Option<Json>
    decreases |path|
  {
    if path == [] then Some(j)
    else if j.Obj? && path[0] in j.members then Get(j.members[path[0]], path[1..])
    else None
  }

  /** Following `path` meets a string before its last key is reached. */
  predicate Blocked(j: Json, path: seq<string>)
    decreases |path|
  {
    && |path| > 0
    && (j.Str? || (path[0] in j.members && Blocked(j.members[path[0]], path[1..])))
  }

  /** Container.Set: store `v` at `path`, creating missing intermediate objects. */
  function Set(j: Json, path: seq<string>, v: Json): (r: Result<Json>)
    ensures r.Err? <==> Blocked(j, path)
    ensures r.Err? ==> r.error == PathCollision
    ensures r.Ok? ==> Get(r.value, path) == Some(v)
    ensures r.Ok? && path != [] ==>
              && j.Obj? && r.value.Obj?
              && r.value.members.Keys == j.members.Keys + {path[0]}
              && forall k :: k in j.members && k != path[0] ==> r.value.members[k] == j.members[k]
    decreases |path|
  {
    if path == [] then Ok(v)
    else
      match j
      case Str(_) => Err(PathCollision)
      case Obj(m) =>
        var child := if path[0] in m then m[path[0]] else Empty;
        var child' :- Set(child, path[1..], v);
        Ok(Obj(m[path[0] := child']))
  }

  /** Container.Object: store a fresh empty object at `path`. */
  function Object(j: Json, path: seq<string>): (r: Result<Json>)
    ensures r.Err? <==> Blocked(j, path)
    ensures r.Ok? ==> Get(r.value, path) == Some(Empty)
  {
    Set(j, path, Empty)
  }

  /** Setting one key of an object always succeeds and changes only that key. */
  lemma SetKey(m: map<string, Json>, key: string, v: Json)
    ensures Set(Obj(m), [key], v) == Ok(Obj(m[key := v]))
  {
  }

  /** Setting a two-key path under a fresh key builds the intermediate object. */
  lemma SetFreshPair(m: map<string, Json>, key: string, inner: string, v: Json)
    requires key !in m
    ensures Set(Obj(m), [key, inner], v) == Ok(Obj(m[key := Obj(map[inner := v])]))
  {
  }

  /** Updating a key, then adding entries that avoid it, is adding the
      update along with them. */
  lemma UpdateThenUnion(m: map<string, Json>, rest: map<string, Json>, key: string, v: Json)
    requires key !in rest
    ensures m[key := v] + rest == m + rest[key := v]
  {
  }

  /** Adding entries to an empty object gives just those entries. */
  lemma EmptyUnion(m: map<string, Json>)
    ensures map[] + m == m
  {
  }
}
