/** What the standalone generator does, stated against a reference
    mapping without containers or failures, and proved of its walker for
    every walkable type.
 */
module StandaloneMapperSpec {
  import opened Results
  import opened GoTypes
  import opened Gabs
  import opened Mapping
  import opened StandaloneMapper
  import Tags

  /** The reference mapping of a value of kind `k` in a fresh container.
      An array or slice makes one node named `structName`: `nested` for
      struct (and timestamp) elements, else the element's own mapping with
      the text flag off. */
  function ExpectedNode(k: Kind, structName: string, isText: bool): Json
    decreases k
  {
    if k.Time? then TypeOnly("long")
    else if IsSequence(k) then
      var inner :=
        if IsGoStruct(k.elem) then Described("nested", ExpectedNode(k.elem, NestedPlaceholder, false))
        else ExpectedNode(k.elem, structName, false);
      Obj(map[structName := inner])
    else if k.Struct? then Obj(ExpectedFieldNodes(k.fields))
    else match ScalarType(k, isText)
      case Some(t) => TypeOnly(t)
      case None => Empty
  }

  /** The reference node of one field: `object` around the walk of a struct
      (or timestamp) kind, otherwise the walk of the field's kind named
      after the field, with the field's `text` option. */
  function ExpectedFieldNode(f: Field): Json
    decreases f
  {
    if IsGoStruct(f.typ) then Described("object", ExpectedNode(f.typ, ObjectPlaceholder, false))
    else ExpectedNode(f.typ, f.name, Tags.RendersText(f.tag))
  }

  /** One node per field that is not skipped. */
  function ExpectedFieldNodes(fs: seq<Field>): (m: map<string, Json>)
    ensures m.Keys == MappedNames(fs)
    decreases fs
  {
    if fs == [] then map[]
    else
      MappedNamesCons(fs);
      var rest := ExpectedFieldNodes(fs[1..]);
      if Skipped(fs[0]) then rest else rest[fs[0].name := ExpectedFieldNode(fs[0])]
  }

  /** The node the walker gives the field called `name` of struct `fs`. */
  function FieldNode(fs: seq<Field>, name: string): Option<Json> {
    match Walk(Empty, Struct(fs), ObjectPlaceholder, false)
    case Ok(Obj(m)) => if name in m then Some(m[name]) else None
    case _ => None
  }

  /** The walker, started on a fresh container, builds the reference mapping. */
  lemma {:induction false} WalkFresh(k: Kind, structName: string, isText: bool)
    requires Walkable(k)
    ensures Walk(Empty, k, structName, isText) == Ok(ExpectedNode(k, structName, isText))
    decreases k
  {
    if k.Struct? {
      WalkStructFresh(k, structName, isText);
    } else if k.Time? {
      FreshScalar(Int64, false);
    } else if IsSequence(k) {
      WalkSequenceFresh(k, structName);
    } else {
      WalkScalarFresh(k, structName, isText);
    }
  }

  lemma {:induction false} WalkStructFresh(k: Kind, structName: string, isText: bool)
    requires k.Struct? && Walkable(k)
    ensures Walk(Empty, k, structName, isText) == Ok(ExpectedNode(k, structName, isText))
    decreases k, 1
  {
    FieldsFromEmpty(k.fields);
  }

  /** The field loop of a walkable struct, started on a fresh container. */
  lemma FieldsFromEmpty(fs: seq<Field>)
    requires Walkable(Struct(fs))
    ensures WalkFields(Empty, fs) == Ok(Obj(ExpectedFieldNodes(fs)))
    decreases Struct(fs), 0
  {
    WalkFieldsFresh(map[], fs);
    EmptyUnion(ExpectedFieldNodes(fs));
  }

  lemma WalkScalarFresh(k: Kind, structName: string, isText: bool)
    requires !k.Struct? && !k.Time? && !IsSequence(k) && !k.Interface?
    ensures Walk(Empty, k, structName, isText) == Ok(ExpectedNode(k, structName, isText))
  {
  }

  lemma {:induction false} WalkSequenceFresh(k: Kind, structName: string)
    requires IsSequence(k) && Walkable(k)
    ensures WalkSequence(Empty, k, structName) == Ok(ExpectedNode(k, structName, false))
    decreases k, 1
  {
    var e := k.elem;
    if IsGoStruct(e) {
      WalkFresh(e, NestedPlaceholder, false);
      DescribedFresh(map[], structName, "nested", ExpectedNode(e, NestedPlaceholder, false));
    } else {
      WalkFresh(e, structName, false);
      LeafFresh(map[], structName, ExpectedNode(e, structName, false));
    }
  }

  /** The field loop adds the reference nodes of its fields. */
  lemma {:induction false} WalkFieldsFresh(m: map<string, Json>, fs: seq<Field>)
    requires DistinctNames(fs)
    requires forall i :: 0 <= i < |fs| ==> Skipped(fs[i]) || Walkable(fs[i].typ)
    requires MappedNames(fs) !! m.Keys
    ensures WalkFields(Obj(m), fs) == Ok(Obj(m + ExpectedFieldNodes(fs)))
    decreases fs
  {
    if fs == [] {
      assert m + map[] == m;
    } else {
      var f := fs[0];
      var rest := fs[1..];
      TailWellFormed(fs);
      WalkFieldFresh(m, f);
      var m' := if Skipped(f) then m else m[f.name := ExpectedFieldNode(f)];
      WalkFieldsStep(Obj(m), fs, Obj(m'));
      WalkFieldsFresh(m', rest);
      NodesStep(m, fs);
    }
  }

  /** One field adds exactly its reference node. */
  lemma {:induction false} WalkFieldFresh(m: map<string, Json>, f: Field)
    requires !Skipped(f) ==> Walkable(f.typ) && f.name !in m
    ensures WalkField(Obj(m), f) == Ok(Obj(if Skipped(f) then m else m[f.name := ExpectedFieldNode(f)]))
    decreases f
  {
    if Skipped(f) {
    } else if IsGoStruct(f.typ) {
      WalkFresh(f.typ, ObjectPlaceholder, false);
      DescribedFresh(m, f.name, "object", ExpectedNode(f.typ, ObjectPlaceholder, false));
    } else {
      WalkFresh(f.typ, f.name, Tags.RendersText(f.tag));
      LeafFresh(m, f.name, ExpectedNode(f.typ, f.name, Tags.RendersText(f.tag)));
    }
  }

  /** The field loop after its first iteration. */
  lemma WalkFieldsHead(node: Json, fs: seq<Field>)
    requires fs != []
    ensures WalkField(node, fs[0]).Err? ==> WalkFields(node, fs) == Err(WalkField(node, fs[0]).error)
    ensures WalkField(node, fs[0]).Ok? ==> WalkFields(node, fs) == WalkFields(WalkField(node, fs[0]).value, fs[1..])
  {
  }

  lemma WalkFieldsStep(node: Json, fs: seq<Field>, node': Json)
    requires fs != [] && WalkField(node, fs[0]) == Ok(node')
    ensures WalkFields(node, fs) == WalkFields(node', fs[1..])
  {
  }

  lemma NodesStep(m: map<string, Json>, fs: seq<Field>)
    requires fs != [] && fs[0].name !in MappedNames(fs[1..])
    ensures var m' := if Skipped(fs[0]) then m else m[fs[0].name := ExpectedFieldNode(fs[0])];
            m' + ExpectedFieldNodes(fs[1..]) == m + ExpectedFieldNodes(fs)
  {
    var rest := ExpectedFieldNodes(fs[1..]);
    var f := fs[0];
    NodesCons(fs);
    if !Skipped(f) {
      UpdateThenUnion(m, rest, f.name, ExpectedFieldNode(f));
    }
  }

  lemma NodesCons(fs: seq<Field>)
    requires fs != []
    ensures var rest := ExpectedFieldNodes(fs[1..]);
            ExpectedFieldNodes(fs) == if Skipped(fs[0]) then rest else rest[fs[0].name := ExpectedFieldNode(fs[0])]
  {
  }

  /** The reference nodes of a struct hold every field that is not
      skipped under its own name. */
  lemma ExpectedNodeEntry(fs: seq<Field>, i: int)
    requires DistinctNames(fs) && 0 <= i < |fs| && !Skipped(fs[i])
    ensures fs[i].name in ExpectedFieldNodes(fs)
    ensures ExpectedFieldNodes(fs)[fs[i].name] == ExpectedFieldNode(fs[i])
  {
    EntryOf(fs, i, fs[i]);
  }

  /** The induction behind ExpectedNodeEntry, with the field held apart from its
      position so that the step only moves the index. */
  lemma {:induction false} EntryOf(fs: seq<Field>, i: int, f: Field)
    requires DistinctNames(fs) && 0 <= i < |fs| && !Skipped(f) && f == fs[i]
    ensures f.name in ExpectedFieldNodes(fs)
    ensures ExpectedFieldNodes(fs)[f.name] == ExpectedFieldNode(f)
    decreases fs
  {
    if i == 0 {
      NodesHead(fs);
    } else {
      var rest := fs[1..];
      assert rest[i - 1] == f;
      TailDistinct(fs);
      EntryOf(rest, i - 1, f);
      NodesLater(fs, f.name);
    }
  }

  /** The head field, when not skipped, has its own entry. */
  lemma NodesHead(fs: seq<Field>)
    requires fs != [] && !Skipped(fs[0])
    ensures fs[0].name in ExpectedFieldNodes(fs)
    ensures ExpectedFieldNodes(fs)[fs[0].name] == ExpectedFieldNode(fs[0])
  {
    NodesCons(fs);
  }

  /** A name other than the head field's keeps its node from the tail. */
  lemma NodesLater(fs: seq<Field>, name: string)
    requires fs != [] && name != fs[0].name && name in ExpectedFieldNodes(fs[1..])
    ensures name in ExpectedFieldNodes(fs)
    ensures ExpectedFieldNodes(fs)[name] == ExpectedFieldNodes(fs[1..])[name]
  {
    NodesCons(fs);
  }

  /** The walker's node for a field of a walkable struct is its reference
      node, and a skipped field has none. */
  lemma FieldNodeIsExpected(fs: seq<Field>, i: int)
    requires Walkable(Struct(fs)) && 0 <= i < |fs|
    ensures Walk(Empty, Struct(fs), ObjectPlaceholder, false).Ok?
    ensures FieldNode(fs, fs[i].name) == if Skipped(fs[i]) then None else Some(ExpectedFieldNode(fs[i]))
  {
    NodesAreExpected(fs);
    if Skipped(fs[i]) {
      SkippedNotMapped(fs, i);
    } else {
      ExpectedNodeEntry(fs, i);
    }
  }

  /** The walk of a walkable struct is the object of its reference entries. */
  lemma NodesAreExpected(fs: seq<Field>)
    requires Walkable(Struct(fs))
    ensures Walk(Empty, Struct(fs), ObjectPlaceholder, false) == Ok(Obj(ExpectedFieldNodes(fs)))
  {
    WalkFresh(Struct(fs), ObjectPlaceholder, false);
  }

  /** A field carrying the `-` option gets no node. */
  lemma ExcludedFieldHasNoNode(fs: seq<Field>, i: int)
    requires Walkable(Struct(fs)) && 0 <= i < |fs| && Tags.Excluded(fs[i].tag)
    ensures Walk(Empty, Struct(fs), ObjectPlaceholder, false).Ok?
    ensures FieldNode(fs, fs[i].name) == None
  {
    FieldNodeIsExpected(fs, i);
  }

  /** Every other field gets a node before its kind is looked at, so a
      pointer, map, channel, function, complex, uintptr or unsafe-pointer
      field is left as an empty object. */
  lemma UnsupportedFieldIsEmptyNode(fs: seq<Field>, i: int)
    requires Walkable(Struct(fs)) && 0 <= i < |fs| && !Skipped(fs[i])
    requires Unsupported(fs[i].typ) && !IsSequence(fs[i].typ)
    ensures FieldNode(fs, fs[i].name) == Some(Empty)
  {
    assert ScalarType(fs[i].typ, Tags.RendersText(fs[i].tag)).None?;
    NodeIs(fs, i, Empty);
  }

  /** A struct field is an `object` whose properties are what the walker
      makes of the struct on its own, with the text flag off. */
  lemma StructFieldIsObjectNode(fs: seq<Field>, i: int)
    requires Walkable(Struct(fs)) && 0 <= i < |fs| && !Skipped(fs[i])
    requires fs[i].typ.Struct?
    ensures Walk(Empty, fs[i].typ, ObjectPlaceholder, false).Ok?
    ensures FieldNode(fs, fs[i].name) == Some(Described("object", Walk(Empty, fs[i].typ, ObjectPlaceholder, false).value))
  {
    WalkFresh(fs[i].typ, ObjectPlaceholder, false);
    NodeIs(fs, i, Described("object", ExpectedNode(fs[i].typ, ObjectPlaceholder, false)));
  }

  /** A `time.Time` field takes the struct branch: an `object` whose
      properties are the `long` of its Unix seconds. */
  lemma TimeFieldIsObjectOfLong(fs: seq<Field>, i: int)
    requires Walkable(Struct(fs)) && 0 <= i < |fs| && !Skipped(fs[i])
    requires fs[i].typ.Time?
    ensures FieldNode(fs, fs[i].name) == Some(Described("object", TypeOnly("long")))
  {
    NodeIs(fs, i, Described("object", TypeOnly("long")));
  }

  /** An array or slice field holds a second node of the same name: a
      `nested` node for struct elements, otherwise the element's walk with
      the text flag off. */
  lemma SequenceFieldIsDoubled(fs: seq<Field>, i: int)
    requires Walkable(Struct(fs)) && 0 <= i < |fs| && !Skipped(fs[i])
    requires IsSequence(fs[i].typ)
    ensures var f := fs[i];
            && Walk(Empty, f.typ.elem, NestedPlaceholder, false).Ok?
            && Walk(Empty, f.typ.elem, f.name, false).Ok?
            && FieldNode(fs, f.name) == Some(Obj(map[f.name :=
                 if IsGoStruct(f.typ.elem) then Described("nested", Walk(Empty, f.typ.elem, NestedPlaceholder, false).value)
                 else Walk(Empty, f.typ.elem, f.name, false).value]))
  {
    var f := fs[i];
    assert Walkable(f.typ);
    WalkFresh(f.typ.elem, NestedPlaceholder, false);
    WalkFresh(f.typ.elem, f.name, false);
    NodeIs(fs, i, ExpectedFieldNode(f));
  }

  /** Strings in an array or slice are always `keyword`: the field's `text`
      option does not reach the elements. */
  lemma StringElementsAreKeyword(fs: seq<Field>, i: int)
    requires Walkable(Struct(fs)) && 0 <= i < |fs| && !Skipped(fs[i])
    requires IsSequence(fs[i].typ) && fs[i].typ.elem.String?
    ensures FieldNode(fs, fs[i].name) == Some(Obj(map[fs[i].name := TypeOnly("keyword")]))
  {
    var f := fs[i];
    assert ExpectedNode(f.typ.elem, f.name, false) == TypeOnly("keyword");
    assert ExpectedFieldNode(f) == ExpectedNode(f.typ, f.name, Tags.RendersText(f.tag));
    NodeIs(fs, i, Obj(map[f.name := TypeOnly("keyword")]));
  }

  /** A string field is `text` exactly when its tag has the `text` option
      and `keyword` otherwise. */
  lemma StringFieldNodeTextOrKeyword(fs: seq<Field>, i: int)
    requires Walkable(Struct(fs)) && 0 <= i < |fs| && !Skipped(fs[i])
    requires fs[i].typ.String?
    ensures Tags.RendersText(fs[i].tag) ==> FieldNode(fs, fs[i].name) == Some(TypeOnly("text"))
    ensures !Tags.RendersText(fs[i].tag) ==> FieldNode(fs, fs[i].name) == Some(TypeOnly("keyword"))
  {
    ScalarNode(fs, i);
  }

  /** Integers of every width are `long`, bools `boolean`, floats `double`. */
  lemma ScalarFieldNodeTypes(fs: seq<Field>, i: int)
    requires Walkable(Struct(fs)) && 0 <= i < |fs| && !Skipped(fs[i])
    ensures IsInteger(fs[i].typ) ==> FieldNode(fs, fs[i].name) == Some(TypeOnly("long"))
    ensures fs[i].typ.Bool? ==> FieldNode(fs, fs[i].name) == Some(TypeOnly("boolean"))
    ensures IsFloat(fs[i].typ) ==> FieldNode(fs, fs[i].name) == Some(TypeOnly("double"))
  {
    if ScalarType(fs[i].typ, Tags.RendersText(fs[i].tag)).Some? {
      ScalarNode(fs, i);
    }
  }

  /** Every kind with an ElasticSearch type is a node holding just that type. */
  lemma ScalarNode(fs: seq<Field>, i: int)
    requires Walkable(Struct(fs)) && 0 <= i < |fs| && !Skipped(fs[i])
    requires ScalarType(fs[i].typ, Tags.RendersText(fs[i].tag)).Some?
    ensures FieldNode(fs, fs[i].name) == Some(TypeOnly(ScalarType(fs[i].typ, Tags.RendersText(fs[i].tag)).value))
  {
    var f := fs[i];
    var t := ScalarType(f.typ, Tags.RendersText(f.tag));
    assert ExpectedFieldNode(f) == TypeOnly(t.value);
    NodeIs(fs, i, TypeOnly(t.value));
  }

  lemma NodeIs(fs: seq<Field>, i: int, v: Json)
    requires Walkable(Struct(fs)) && 0 <= i < |fs| && !Skipped(fs[i]) && ExpectedFieldNode(fs[i]) == v
    ensures FieldNode(fs, fs[i].name) == Some(v)
  {
    FieldNodeIsExpected(fs, i);
  }

  /** A field of interface type that is not skipped makes the walk fail,
      whatever comes before it. */
  lemma {:induction false} InterfaceFieldEndsWalk(node: Json, fs: seq<Field>, i: int)
    requires ObjectMembers(node) && 0 <= i < |fs| && !Skipped(fs[i]) && fs[i].typ.Interface?
    ensures WalkFields(node, fs) == Err(NilInterface)
    decreases i, 1
  {
    if i == 0 {
      WalkFieldsHead(node, fs);
      InterfaceFieldNodeHere(node, fs[0]);
    } else {
      InterfaceFieldNodeLater(node, fs, i);
    }
  }

  /** The interface field comes later: the first field either fails the
      same way or hands its result on. */
  lemma {:induction false} InterfaceFieldNodeLater(node: Json, fs: seq<Field>, i: int)
    requires ObjectMembers(node) && 0 < i < |fs| && !Skipped(fs[i]) && fs[i].typ.Interface?
    ensures WalkFields(node, fs) == Err(NilInterface)
    decreases i, 0
  {
    var r := WalkField(node, fs[0]);
    WalkFieldsHead(node, fs);
    if r.Ok? {
      var rest := fs[1..];
      assert rest[i - 1] == fs[i];
      InterfaceFieldEndsWalk(r.value, rest, i - 1);
    }
  }

  lemma InterfaceFieldNodeHere(node: Json, f: Field)
    requires node.Obj? && !Skipped(f) && f.typ.Interface?
    ensures WalkField(node, f) == Err(NilInterface)
  {
    SetKey(node.members, f.name, Empty);
    assert Walk(Empty, f.typ, f.name, Tags.RendersText(f.tag)) == Err(NilInterface);
  }
}
