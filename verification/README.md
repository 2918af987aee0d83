# Struct-to-ElasticSearch mapping generators, modelled in Dafny

The repository `golang-snippets` holds two versions of one generator and a
reflection demo that shares its tag parser:

- `elasticmapper/elasticmapper.go` is the library version.
  `GetElasticMapping(input, typeName)` builds the document
  `{"mappings": {<typeName>: {"properties": …}}}`, and its recursive walker
  `getElasticMappingImpl` fills the `properties` container from the zero
  value of the input's type.
- `elastic-mapper/elastic-mapper.go` is the earlier standalone version. Its
  `GetElasticMapping(input, jsonTree, structName, isText)` writes straight
  into the container it is handed.
- `reflection/reflection.go` is a demo. Its `printStruct` walks a value
  (not a type) and logs a line per value, field option and leaf.

All three parse a struct-tag value the same way (`getTagLookup` /
`GetTagLookup`). They split on commas, trim spaces and tabs from each
segment, and treat every resulting token as a switched-on option. Every
operation is a pure function, so the same tag value or type always gives
the same result.

The model works as follows:

- **Types.** Go reflection is replaced by a type descriptor. `GoTypes.Kind`
  lists the reflected kinds the code distinguishes. `time.Time` is its own
  constructor, `Time`, because reflection reports it as a struct while the
  code recognises it by type assertion. `GoTypes.Field` is a field's name,
  the value of its tag key, and its type. Since the generators only ever
  look at zero values, a type is all they see.
- **Container.** The JSON container library (`github.com/Jeffail/gabs`) is
  modelled by the JSON value it wraps (`Gabs.Json`), with its `Set` and
  `Object` operations. In Go, a write through a child container shows up in
  the parent because the maps are shared. The model writes the child's final
  value back under its key instead.
- **Failures.** A walk can stop in two ways (`Results.Failure`):
  - the container library reports a path collision;
  - `reflect.TypeOf(nil).Kind()` panics on the nil zero value of an
    interface-typed field.

  The first is proved never to happen. The second happens exactly when an
  interface field that is not skipped is reached. The standalone version's
  `log.Fatal` is a failure too.
- **Reference mappings.** Each generator is stated against a reference
  mapping defined without containers or failures:
  `ElasticMapperSpec.ExpectedValue` and `StandaloneMapperSpec.ExpectedNode`.
  The walkers are proved to build exactly that mapping for every walkable
  type. A type is walkable (`GoTypes.Walkable`) when its struct field names
  are distinct and no interface field is reached. The per-field properties
  (`date`, `object`, `nested`, `text`/`keyword`, …) are stated against the
  walker's own output.
- **Version comparison.** `VariantComparison` shows that the two versions
  agree on every walkable type without timestamps, arrays or slices. It also shows,
  on concrete one-field structs, where they part.
- **Reflection demo.** `printStruct` becomes a trace of `Reflection.Event`s.
  The trace is proved to inspect exactly the values reachable through fields
  that are neither `noscan` nor nil, in pre-order.

Three behaviours of the code are easy to miss:

- A pointer, map, channel, function, complex, `uintptr` or unsafe-pointer
  field leaves an empty object `{}` under its name, because both generators
  create the field's node before the kind switch.
- Tag options are matched case-sensitively: `Text` is not `text`
  (`Tags.SingleOption`).
- An interface field panics, and the model makes that a failure.

## Model

| member | source | states |
|---|---|---|
| Tags.Split | elasticmapper/elasticmapper.go:166 | `strings.Split`: one segment more than there are commas, no segment holds a comma, and joining the segments with commas gives back the tag value |
| Tags.Leading | elasticmapper/elasticmapper.go:168 | the leading cut of `strings.Trim(…, " \t")`: every character before it is a space or tab, and the character at it is not |
| Tags.Trailing | elasticmapper/elasticmapper.go:168 | the trailing cut of the trim: every character after it is a space or tab, and the character before it is not |
| Tags.Trim | elasticmapper/elasticmapper.go:168 | the trimmed segment has no blank at either end and is the segment with its leading and trailing blanks removed |
| Tags.TagLookup | elasticmapper/elasticmapper.go:164-172 | the lookup map has at least one key, even for an empty tag value |
| Tags.OptionsAreTrimmed | elasticmapper/elasticmapper.go:166-169 | no option contains a comma or has a blank end |
| Tags.CommaFreeTag | elasticmapper/elasticmapper.go:166-169 | a tag value without a comma switches on exactly one option, the value trimmed |
| Tags.TagLookupAtComma | elasticmapper/elasticmapper.go:166-169 | the options of `a,b` are the options of `a` together with those of `b` |
| Tags.RepeatedOptionCollapses | elasticmapper/elasticmapper.go:169 | writing a tag value twice, comma-separated, switches on the same options as writing it once |
| Tags.TrimOfTrimmed | elasticmapper/elasticmapper.go:168 | trimming a value without blank ends leaves it unchanged |
| Tags.TrimIdempotent | elasticmapper/elasticmapper.go:168 | trimming twice is trimming once |
| Tags.SingleOption | elasticmapper/elasticmapper.go:166-169 | a comma-free value without blank ends is exactly one option, interior blanks included, and an option is present exactly when it equals that value character for character |
| Tags.EmptyTagHasNoOption | elasticmapper/elasticmapper.go:42-44 | a field without the tag key (empty value) has only the empty option, so it is neither skipped nor `text` |
| Tags.PaddedPair | reflection/reflection.go:16 | the demo's tag value `hello,     world` switches on exactly `hello` and `world` |
| Tags.PairOfOptions | elasticmapper/elasticmapper.go:166-169 | two trimmed comma-free words separated by a comma and blank padding are exactly two options |
| Tags.PaddedOption | elasticmapper/elasticmapper.go:166-169 | a trimmed comma-free word after blank padding is exactly that option |
| Tags.TrimPadded | elasticmapper/elasticmapper.go:168 | trimming removes exactly the blank padding in front of a word |
| Tags.LeadingPadding | elasticmapper/elasticmapper.go:168 | the leading cut of blank padding followed by a word is the padding's length |
| Tags.TabPadding | elasticmapper/elasticmapper.go:168 | tabs are trimmed like spaces: a tab-padded `-` still excludes the field |
| Gabs.Set | elasticmapper/elasticmapper.go:53 | `Container.Set` fails exactly when the path meets a string, with a path collision; on success the value is at the path and every other key of the object is unchanged |
| Gabs.Object | elasticmapper/elasticmapper.go:60 | `Container.Object` fails exactly when `Set` would, and leaves a fresh empty object at the path |
| Gabs.SetKey | elasticmapper/elasticmapper.go:141 | setting one key of an object never fails and changes only that key |
| Gabs.SetFreshPair | elasticmapper/elasticmapper.go:53 | setting a two-key path under a missing key creates the intermediate object |
| Mapping.SetType | elasticmapper/elasticmapper.go:141-151 | `Set(t, "type")` with its error ignored: an object gets `type: t` and nothing else changes; a string is left as it is |
| Mapping.MapScalar | elasticmapper/elasticmapper.go:140-157 | the scalar cases write only the `type` key, and every other kind (pointer and default cases) leaves the node untouched |
| Mapping.FreshScalar | elasticmapper/elasticmapper.go:140-157 | at a fresh node, a scalar yields exactly `{type: t}` for its ElasticSearch type, and any other kind yields `{}` |
| Mapping.DescribedFresh | elasticmapper/elasticmapper.go:60-74 | the container steps of the struct branch build `{type: t, properties: …}` under the field's name without failing |
| Mapping.LeafFresh | elasticmapper/elasticmapper.go:128-133 | the container step of the fallback branch puts the child's mapping under the field's name without failing |
| ElasticMapper.MapValue | elasticmapper/elasticmapper.go:30-159 | an interface value fails, an array or slice value writes nothing, and a struct writes only its mapped field names (any other kind writes only `type`); earlier keys survive, and the only failure on a properties container is the nil-interface panic |
| ElasticMapper.MapFields | elasticmapper/elasticmapper.go:40-139 | the field loop keeps every key outside the struct's mapped names, keeps a properties container a properties container, and fails only on a nil interface |
| ElasticMapper.MapField | elasticmapper/elasticmapper.go:41-138 | a `-` field changes nothing; any other field changes only its own key and fails only on a nil interface |
| ElasticMapper.SetFieldType | elasticmapper/elasticmapper.go:52-57 | `Set(t, name, "type")` never fails on a properties container, touches only `name`, and on a new name gives `{type: t}` |
| ElasticMapper.MapStructField | elasticmapper/elasticmapper.go:59-80 | the struct branch touches only the field's key and fails only on a nil interface |
| ElasticMapper.MapSequenceField | elasticmapper/elasticmapper.go:81-125 | the array and slice branch touches only the field's key and fails only on a nil interface |
| ElasticMapper.GetElasticMapping | elasticmapper/elasticmapper.go:19-28 | the document is the walker's properties under `mappings.<typeName>.properties`, and it fails exactly when the walk does, with the walk's failure |
| ElasticMapper.RootWriteBack | elasticmapper/elasticmapper.go:20-21 | `Object("mappings", typeName, "properties")` on a new container gives the empty document, and writing the properties back fills it |
| ElasticMapperSpec.ExpectedProperties | elasticmapper/elasticmapper.go:40-47 | the reference properties have exactly one key per field not carrying `-` |
| ElasticMapperSpec.MapValueFresh | elasticmapper/elasticmapper.go:30-159 | on a fresh container, the walker never fails on a walkable type and builds the reference mapping |
| ElasticMapperSpec.MapStructFresh | elasticmapper/elasticmapper.go:39-139 | the struct case of the above |
| ElasticMapperSpec.FieldsFromEmpty | elasticmapper/elasticmapper.go:40-139 | the field loop from an empty container yields exactly the reference properties |
| ElasticMapperSpec.MapScalarFresh | elasticmapper/elasticmapper.go:140-157 | the leaf cases of the walker match the reference |
| ElasticMapperSpec.MapFieldsFresh | elasticmapper/elasticmapper.go:40-139 | the field loop adds exactly the reference entries to a container that does not hold their names yet |
| ElasticMapperSpec.MapFieldsHead | elasticmapper/elasticmapper.go:40-139 | the first field whose iteration fails ends the loop with that failure; otherwise the loop goes on from that field's result |
| ElasticMapperSpec.MapFieldFresh | elasticmapper/elasticmapper.go:41-138 | one iteration adds exactly the field's reference entry, or nothing for a `-` field |
| ElasticMapperSpec.ExpectedEntry | elasticmapper/elasticmapper.go:40-139 | in the reference properties, every field not skipped is found under its own name with its own entry |
| ElasticMapperSpec.EntryOf | elasticmapper/elasticmapper.go:40-139 | the induction over the field list behind the above |
| ElasticMapperSpec.FieldEntryIsExpected | elasticmapper/elasticmapper.go:40-139 | in the walker's output, a field's entry is its reference entry, and a skipped field has none |
| ElasticMapperSpec.EntriesAreExpected | elasticmapper/elasticmapper.go:39-139 | a walkable struct maps to the object of its reference entries |
| ElasticMapperSpec.ExcludedFieldAbsent | elasticmapper/elasticmapper.go:43-47 | a field carrying `-` gets no entry |
| ElasticMapperSpec.TimeFieldIsDate | elasticmapper/elasticmapper.go:51-93 | a `time.Time` field, or an array or slice of them, is exactly `{type: date}` and is never expanded |
| ElasticMapperSpec.StructFieldIsObject | elasticmapper/elasticmapper.go:59-80 | a struct field is `{type: object, properties: P}`, where P is what the walker makes of the struct on its own |
| ElasticMapperSpec.StructElementsAreNested | elasticmapper/elasticmapper.go:94-110 | an array or slice of structs is `{type: nested, properties: P}`, where P is the walker's mapping of one zero-valued element |
| ElasticMapperSpec.StringFieldTextOrKeyword | elasticmapper/elasticmapper.go:142-147 | a string field, or an array or slice of strings, is `text` exactly when its tag has `text`, and `keyword` otherwise |
| ElasticMapperSpec.ScalarFieldTypes | elasticmapper/elasticmapper.go:140-151 | integer fields of every width are `long`, bools `boolean` and floats `double`, alone or as array elements |
| ElasticMapperSpec.ScalarEntry | elasticmapper/elasticmapper.go:126-151 | every field whose deciding kind has an ElasticSearch type is a node holding just that type |
| ElasticMapperSpec.UnsupportedFieldIsEmpty | elasticmapper/elasticmapper.go:152-156 | a pointer, map, channel, function, complex, uintptr, unsafe-pointer or array-of-arrays field is left as `{}`, and the walk goes on |
| ElasticMapperSpec.UnsupportedIsEmpty | elasticmapper/elasticmapper.go:152-156 | the reference mapping of every unsupported kind is `{}` |
| ElasticMapperSpec.DocumentIsExpected | elasticmapper/elasticmapper.go:19-28 | for a walkable type, the whole document is the reference mapping under `mappings.<typeName>.properties`, and it is never a failure |
| ElasticMapperSpec.InterfaceFieldFails | elasticmapper/elasticmapper.go:126-137 | an interface field that is not skipped makes the whole field loop fail with the nil-interface panic, whatever precedes it |
| ElasticMapperSpec.InterfaceFieldLater | elasticmapper/elasticmapper.go:40-139 | the same when the interface field is not the first: the first field fails the same way or hands its result on |
| ElasticMapperSpec.InterfaceFieldHere | elasticmapper/elasticmapper.go:126-137 | the iteration for an interface field fails with the nil-interface panic |
| ElasticMapperSpec.NestedSequenceField | elasticmapper/elasticmapper.go:111-124 | a field that is an array or slice of arrays or slices gets an empty node, because the element walk stops at line 38 without looking at the inner element |
| ElasticMapperSpec.NestedSequenceStruct | elasticmapper/elasticmapper.go:38-124 | a struct whose one field is an array or slice of arrays or slices maps to `{}` under that field's name, whatever the inner element type |
| ElasticMapperSpec.NestedSequenceIsNotEntered | elasticmapper/elasticmapper.go:38-124 | a `[][]I` field with `I` an interface maps to `{}` without a panic, although the type is not walkable |
| StandaloneMapper.Walk | elastic-mapper/elastic-mapper.go:49-137 | an interface value fails, earlier keys of an object survive, and the only failure on a properties container is the nil-interface panic |
| StandaloneMapper.WalkSequence | elastic-mapper/elastic-mapper.go:58-82 | the array and slice branch keeps earlier keys and fails only on a nil interface |
| StandaloneMapper.WalkFields | elastic-mapper/elastic-mapper.go:84-118 | the field loop keeps earlier keys, keeps a properties container a properties container, and fails only on a nil interface |
| StandaloneMapper.WalkField | elastic-mapper/elastic-mapper.go:85-117 | a `-` field changes nothing; any other field changes only its own key and fails only on a nil interface |
| StandaloneMapperSpec.ExpectedFieldNodes | elastic-mapper/elastic-mapper.go:84-118 | the reference nodes have exactly one key per field not carrying `-` |
| StandaloneMapperSpec.WalkFresh | elastic-mapper/elastic-mapper.go:49-137 | on a fresh container, the walker never fails on a walkable type and builds the reference mapping |
| StandaloneMapperSpec.WalkStructFresh | elastic-mapper/elastic-mapper.go:83-118 | the struct case of the above |
| StandaloneMapperSpec.FieldsFromEmpty | elastic-mapper/elastic-mapper.go:84-118 | the field loop from an empty container yields exactly the reference nodes |
| StandaloneMapperSpec.WalkScalarFresh | elastic-mapper/elastic-mapper.go:119-136 | the leaf cases of the walker match the reference |
| StandaloneMapperSpec.WalkSequenceFresh | elastic-mapper/elastic-mapper.go:58-82 | an array or slice at a fresh node becomes one node named after `structName`, holding the reference of its element |
| StandaloneMapperSpec.WalkFieldsFresh | elastic-mapper/elastic-mapper.go:84-118 | the field loop adds exactly the reference nodes to a container that does not hold their names yet |
| StandaloneMapperSpec.WalkFieldsHead | elastic-mapper/elastic-mapper.go:84-118 | a field whose iteration ends the process (`log.Fatal` or the panic) ends the loop with that failure; otherwise the loop goes on from that field's result |
| StandaloneMapperSpec.WalkFieldFresh | elastic-mapper/elastic-mapper.go:85-117 | one iteration adds exactly the field's reference node, or nothing for a `-` field |
| StandaloneMapperSpec.ExpectedNodeEntry | elastic-mapper/elastic-mapper.go:84-118 | in the reference nodes, every field not skipped is found under its own name with its own node |
| StandaloneMapperSpec.EntryOf | elastic-mapper/elastic-mapper.go:84-118 | the induction over the field list behind the above |
| StandaloneMapperSpec.FieldNodeIsExpected | elastic-mapper/elastic-mapper.go:84-118 | in the walker's output, a field's node is its reference node, and a skipped field has none |
| StandaloneMapperSpec.NodesAreExpected | elastic-mapper/elastic-mapper.go:83-118 | a walkable struct maps to the object of its reference nodes |
| StandaloneMapperSpec.ExcludedFieldHasNoNode | elastic-mapper/elastic-mapper.go:88-91 | a field carrying `-` gets no node |
| StandaloneMapperSpec.UnsupportedFieldIsEmptyNode | elastic-mapper/elastic-mapper.go:92-98 | the node is made before the kind switch, so a pointer, map, channel, function, complex, uintptr or unsafe-pointer field is left as `{}` |
| StandaloneMapperSpec.StructFieldIsObjectNode | elastic-mapper/elastic-mapper.go:100-110 | a struct field is `{type: object, properties: P}`, where P is what the walker makes of the struct on its own |
| StandaloneMapperSpec.TimeFieldIsObjectOfLong | elastic-mapper/elastic-mapper.go:50-54 | a `time.Time` field takes the struct branch, so it becomes `{type: object, properties: {type: long}}` |
| StandaloneMapperSpec.SequenceFieldIsDoubled | elastic-mapper/elastic-mapper.go:58-82 | an array or slice field holds a second node with the field's name: `nested` for struct elements, otherwise the element's walk with the text flag off |
| StandaloneMapperSpec.StringElementsAreKeyword | elastic-mapper/elastic-mapper.go:81 | strings in an array or slice are always `keyword`, because the field's `text` option does not reach the elements |
| StandaloneMapperSpec.StringFieldNodeTextOrKeyword | elastic-mapper/elastic-mapper.go:111-126 | a string field is `text` exactly when its tag has `text`, and `keyword` otherwise |
| StandaloneMapperSpec.ScalarFieldNodeTypes | elastic-mapper/elastic-mapper.go:119-130 | integer fields of every width are `long`, bools `boolean` and floats `double` |
| StandaloneMapperSpec.ScalarNode | elastic-mapper/elastic-mapper.go:111-130 | every field whose kind has an ElasticSearch type is a node holding just that type |
| StandaloneMapperSpec.InterfaceFieldEndsWalk | elastic-mapper/elastic-mapper.go:99-117 | an interface field that is not skipped ends the field loop with the nil-interface panic, whatever precedes it |
| StandaloneMapperSpec.InterfaceFieldNodeLater | elastic-mapper/elastic-mapper.go:84-118 | the same when the interface field is not the first |
| StandaloneMapperSpec.InterfaceFieldNodeHere | elastic-mapper/elastic-mapper.go:94-117 | the iteration for an interface field fails with the nil-interface panic |
| VariantComparison.PlainReferencesAgree | elastic-mapper/elastic-mapper.go:49-137 | without timestamps, arrays or slices, the two reference mappings coincide |
| VariantComparison.PlainFieldsAgree | elastic-mapper/elastic-mapper.go:84-118 | the same for a field list |
| VariantComparison.PlainFieldAgrees | elastic-mapper/elastic-mapper.go:92-117 | the same for one field |
| VariantComparison.VariantsAgreeOnPlainTypes | elasticmapper/elasticmapper.go:30-159 | on walkable types without timestamps, arrays or slices, the library walker and the standalone walker build the same mapping and do not fail |
| VariantComparison.SliceFieldDiffers | elastic-mapper/elastic-mapper.go:58-82 | for a `[]string` field `Tags`, the library gives `{Tags: {type: keyword}}`, but the standalone version gives `{Tags: {Tags: {type: keyword}}}` |
| VariantComparison.TimeFieldDiffers | elastic-mapper/elastic-mapper.go:50-54 | for a `time.Time` field, the library gives `{type: date}`, but the standalone version gives `{type: object, properties: {type: long}}` |
| VariantComparison.SingleField | elasticmapper/elasticmapper.go:40-139 | on a struct with one field that is not skipped, each walker yields exactly that field's reference entry |
| Reflection.PrintStruct | reflection/reflection.go:57-108 | the trace starts with the kind line of the value, and a leaf value writes exactly one more line |
| Reflection.FieldLog | reflection/reflection.go:69-99 | a `noscan` field writes exactly its one `noscan` line |
| Reflection.PrintStructVisitsReachable | reflection/reflection.go:57-108 | the values whose kind is logged are exactly the value and, in pre-order, every value reachable through fields that are neither `noscan` nor nil |
| Reflection.FieldsVisitReachable | reflection/reflection.go:69-99 | the same for the loop over a struct's fields |
| Reflection.FieldVisitsReachable | reflection/reflection.go:70-98 | one iteration inspects nothing for a `noscan` or nil field, and otherwise exactly the values reachable from the field's value |
| Reflection.NotesInspectNothing | reflection/reflection.go:78-83 | the `world` and `hello` notes inspect no value |
| Reflection.FramedInspections | reflection/reflection.go:85-98 | the `decorateme` banners inspect no value |
| Reflection.FieldsInOrder | reflection/reflection.go:69-99 | fields are walked in declaration order: the trace of two runs of fields is the trace of the first followed by that of the second |
| Reflection.NoScanFieldIsNotWalked | reflection/reflection.go:74-77 | no value inside a `noscan` field is inspected, whatever else its tag says |
| Reflection.NilFieldIsNotWalked | reflection/reflection.go:90-98 | a nil interface field is not walked, and a decorated one still gets both banners with nothing between them |
| Reflection.DecoratedFieldIsFramed | reflection/reflection.go:85-98 | a decorated field's trace is its notes, a banner, exactly the walk of its value (opening with the value's kind line), and a closing banner |
| Reflection.WorldNoteBeforeHello | reflection/reflection.go:78-83 | with both `world` and `hello`, the `world` note comes first |

## Left out

- Go reflection itself is replaced by type descriptors. `reflect.StructTag.Get` is not modelled: a field carries the value of the tag key directly, and an absent key gives the empty value, as `Get` does.
- The textual output (`StringIndent`) and every log message text are not modelled. The mapping is the JSON value itself, and the demo's log lines are events.
- A struct that contains itself through a slice makes both Go walkers recurse without end. An inductive `Kind` value cannot describe such a type, so every modelled type is finite.
- `Unix()` of a timestamp is not modelled: only its type, `int64`, reaches the walker.
- ElasticMapper.GetElasticMapping: the Go function also returns the text of the partial mapping along with an error. The model returns only the failure. The only reachable failure is a panic, which returns nothing, so no input observes the difference.
- The `main` functions, the sample types and the demo's `json.MarshalIndent` are only used to exercise the code.
- The other programs of the repository are independent of the mapping code: networking, ottojsplay, parse-big-xml and ast.
- `printStruct`'s check that a value and its type agree on the number of fields (reflection/reflection.go:66-68) cannot fail in the model, because a struct value carries its own fields.
- Reflection.PrintStruct: reading an unexported field's value panics in Go, so the demo only works on exported fields. The model assumes every field is exported.
- The library walker's `structName` parameter is passed along but never read, so it is left out of `ElasticMapper.MapValue`.
- The library walker assigns the field's `text` option to its own parameter (elasticmapper/elasticmapper.go:113, 127), so the value carries over to later fields. Every later use assigns it first or passes `false`, so the model passes the option per field.
- ElasticMapperSpec.MapValueFresh: proved for walkable types only, meaning distinct field names and no reachable interface field. Go rejects duplicate field names except the blank `_`. The interface case is covered separately: ElasticMapperSpec.InterfaceFieldFails proves that it fails. Walkability follows the standalone walker's descent, so it is stricter than the library walker needs. The library never looks inside the element of a nested sequence (line 38 writes nothing for an array or slice). So a field of type `[][]I`, with `I` an interface, is mapped to `{}` without a failure, yet that type is not walkable. For such types the library's result is stated by ElasticMapper.GetElasticMapping's own contract, and ElasticMapperSpec.NestedSequenceIsNotEntered exhibits one such type.
- StandaloneMapperSpec.WalkFresh: proved for walkable types only, for the same reasons. The interface case is StandaloneMapperSpec.InterfaceFieldEndsWalk.
- Tags.TagLookup: its own contract only says the map is never empty. Its full content is stated by the lemmas Tags.OptionsAreTrimmed, Tags.CommaFreeTag and Tags.TagLookupAtComma, which together determine every lookup.

## Findings

| source | as written | input that shows it | evidently intended | confidence | as-written member | corrected member |
|---|---|---|---|---|---|---|
| elastic-mapper/elastic-mapper.go:58-82 | an array or slice is handled when its value is walked, after the field's node exists, so the walk makes a second node named after the field inside it | a struct with one field `Tags []string` | `{Tags: {type: keyword}}`, as the library version produces | medium, not executed | VariantComparison.SliceFieldDiffers | ElasticMapperSpec.StringFieldTextOrKeyword |
| elastic-mapper/elastic-mapper.go:50-54 | `time.Time` is only recognised as a value, so a timestamp field takes the struct branch and becomes an object whose properties are a bare type | a struct with one field `Created time.Time` | `{Created: {type: date}}`, as the library version produces | medium, not executed | VariantComparison.TimeFieldDiffers | ElasticMapperSpec.TimeFieldIsDate |
