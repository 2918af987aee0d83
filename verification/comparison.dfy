/** How the two generators relate. On types without timestamps and
    without arrays or slices they build the same properties; on a
    timestamp field or an array field they differ, and the standalone
    generator's output is not a usable mapping there.
 */
module VariantComparison {
  import opened Results
  import opened GoTypes
  import opened Gabs
  import opened Mapping
  import opened ElasticMapper
  import opened ElasticMapperSpec
  import opened StandaloneMapper
  import opened StandaloneMapperSpec
  import Tags

  /** No timestamp and no array or slice is reachable through the fields
      a generator descends into. */
  predicate Plain(k: Kind) {
    match k
    case Struct(fs) => forall i :: 0 <= i < |fs| ==> Skipped(fs[i]) || Plain(fs[i].typ)
    case Time => false
    case Array(_) => false
    case Slice(_) => false
    case _ => true
  }

  /** On plain types the two reference mappings coincide. */
  lemma {:induction false} PlainReferencesAgree(k: Kind, structName: string, isText: bool)
    requires Plain(k)
    ensures ExpectedValue(k, isText) == ExpectedNode(k, structName, isText)
    decreases k
  {
    if k.Struct? {
      PlainFieldsAgree(k.fields);
    }
  }

  lemma {:induction false} PlainFieldsAgree(fs: seq<Field>)
    requires forall i :: 0 <= i < |fs| ==> Skipped(fs[i]) || Plain(fs[i].typ)
    ensures ExpectedProperties(fs) == ExpectedFieldNodes(fs)
    decreases fs
  {
    if fs != [] {
      assert forall i :: 0 <= i < |fs[1..]| ==> fs[1..][i] == fs[i + 1];
      PlainFieldsAgree(fs[1..]);
      PropertiesCons(fs);
      NodesCons(fs);
      if !Skipped(fs[0]) {
        PlainFieldAgrees(fs[0]);
      }
    }
  }

  lemma {:induction false} PlainFieldAgrees(f: Field)
    requires Plain(f.typ)
    ensures ExpectedField(f) == ExpectedFieldNode(f)
    decreases f
  {
    if f.typ.Struct? {
      PlainFieldsAgree(f.typ.fields);
      assert ExpectedField(f) == Described("object", Obj(ExpectedProperties(f.typ.fields)));
      assert ExpectedFieldNode(f) == Described("object", Obj(ExpectedFieldNodes(f.typ.fields)));
    } else {
      PlainReferencesAgree(f.typ, f.name, Tags.RendersText(f.tag));
    }
  }

  /** On walkable plain types the library walker and the standalone walker
      build the same mapping. */
  lemma VariantsAgreeOnPlainTypes(k: Kind, structName: string)
    requires Walkable(k) && Plain(k)
    ensures MapValue(Empty, k, false) == Walk(Empty, k, structName, false)
    ensures MapValue(Empty, k, false).Ok?
  {
    MapValueFresh(k, false);
    WalkFresh(k, structName, false);
    PlainReferencesAgree(k, structName, false);
  }

  /** A slice-of-strings field: the library maps it like one string, the
      standalone generator puts a second `Tags` node inside the first. */
  lemma SliceFieldDiffers()
    ensures var fs := [Field("Tags", "", Slice(String))];
            && MapValue(Empty, Struct(fs), false) == Ok(Obj(map["Tags" := TypeOnly("keyword")]))
            && Walk(Empty, Struct(fs), ObjectPlaceholder, false)
               == Ok(Obj(map["Tags" := Obj(map["Tags" := TypeOnly("keyword")])]))
  {
    var f := Field("Tags", "", Slice(String));
    var fs := [f];
    Tags.EmptyTagHasNoOption();
    assert Walkable(Struct(fs));
    assert fs[1..] == [];
    assert ExpectedField(f) == TypeOnly("keyword");
    assert ExpectedFieldNode(f) == Obj(map["Tags" := TypeOnly("keyword")]);
    SingleField(f);
  }

  /** A timestamp field: the library maps it as a `date`, the standalone
      generator as an `object` whose `properties` hold a `type` key. */
  lemma TimeFieldDiffers()
    ensures var fs := [Field("Created", "", Time)];
            && MapValue(Empty, Struct(fs), false) == Ok(Obj(map["Created" := TypeOnly("date")]))
            && Walk(Empty, Struct(fs), ObjectPlaceholder, false)
               == Ok(Obj(map["Created" := Described("object", TypeOnly("long"))]))
  {
    var f := Field("Created", "", Time);
    Tags.EmptyTagHasNoOption();
    assert ExpectedField(f) == TypeOnly("date");
    assert ExpectedFieldNode(f) == Described("object", TypeOnly("long"));
    SingleField(f);
  }

  /** Both walkers on a struct with one field that is not skipped. */
  lemma SingleField(f: Field)
    requires !Skipped(f) && Walkable(f.typ)
    ensures MapValue(Empty, Struct([f]), false) == Ok(Obj(map[f.name := ExpectedField(f)]))
    ensures Walk(Empty, Struct([f]), ObjectPlaceholder, false) == Ok(Obj(map[f.name := ExpectedFieldNode(f)]))
  {
    var fs := [f];
    assert fs[1..] == [];
    assert Walkable(Struct(fs));
    MapValueFresh(Struct(fs), false);
    WalkFresh(Struct(fs), ObjectPlaceholder, false);
    PropertiesCons(fs);
    NodesCons(fs);
  }
}
