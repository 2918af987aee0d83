/** Type descriptors standing in for Go reflection.

    The mapping generators only ever look at the zero value of a type, so
    everything they learn comes from the type: its reflected kind, the
    fields of a struct, the element of an array, slice, pointer or channel.
    `Kind` lists every reflected kind the generators distinguish; `Time` is
    `time.Time`, which reflection reports as a struct but which the code
    recognises by a type assertion. Being an inductive datatype, a `Kind`
    is always finite and acyclic.
 */
module GoTypes {
  import Tags

  datatype Kind =
    | Int | Int8 | Int16 | Int32 | Int64
    | Uint | Uint8 | Uint16 | Uint32 | Uint64 | Uintptr
    | Float32 | Float64 | Complex64 | Complex128
    | Bool
    | String
    | Struct(fields: seq<Field>)
    | Array(elem: Kind)
    | Slice(elem: Kind)
    | Ptr(elem: Kind)
    | Map(key: Kind, elem: Kind)
    | Chan(elem: Kind)
    | Func
    | Interface
    | UnsafePointer
    | Time

  /** A struct field: its Go name, the value of its `elasticmapper` (or
      `customtag`) struct-tag key, empty when the key is absent, and its type. */
  datatype Field = Field(name: string, tag: string, typ: Kind)

  /** reflect.Int … reflect.Uint64 (reflect.Uintptr is not among them). */
  predicate IsInteger(k: Kind) {
    k.Int? || k.Int8? || k.Int16? || k.Int32? || k.Int64?
    || k.Uint? || k.Uint8? || k.Uint16? || k.Uint32? || k.Uint64?
  }

  predicate IsFloat(k: Kind) {
    k.Float32? || k.Float64?
  }

  /** Kinds whose zero value reflection reports as reflect.Struct. */
  predicate IsGoStruct(k: Kind) {
    k.Struct? || k.Time?
  }

  predicate IsSequence(k: Kind) {
    k.Array? || k.Slice?
  }

  /** Kinds that write nothing into the node they are walked at: the
      pointer, map, channel, function, complex, uintptr and unsafe-pointer
      kinds the walkers log as unsupported, and (in the library walker)
      arrays and slices met as values. */
  predicate Unsupported(k: Kind) {
    k.Ptr? || k.Map? || k.Chan? || k.Func? || k.Complex64? || k.Complex128?
    || k.Uintptr? || k.UnsafePointer? || IsSequence(k)
  }

  /** The field carries the `-` option and is left out of the mapping. */
  predicate Skipped(f: Field) {
    Tags.Excluded(f.tag)
  }

  /** Field names of a struct are pairwise distinct (Go enforces this for
      every name except the blank identifier). */
  predicate DistinctNames(fs: seq<Field>) {
    forall i, j :: 0 <= i < j < |fs| ==> fs[i].name != fs[j].name
  }

  /** The names of the fields that are not skipped. */
  function MappedNames(fs: seq<Field>): set<string> {
    set i | 0 <= i < |fs| && !Skipped(fs[i]) :: fs[i].name
  }

  /** A type both generators can walk without meeting an interface-typed
      zero value, and whose structs have distinct field names. The check
      looks through struct fields that are not skipped and through array
      and slice elements, the only places a generator descends into. */
  predicate Walkable(k: Kind) {
    match k
    case Struct(fs) =>
      && DistinctNames(fs)
      && forall i :: 0 <= i < |fs| ==> Skipped(fs[i]) || Walkable(fs[i].typ)
    case Array(e) => Walkable(e)
    case Slice(e) => Walkable(e)
    case Interface => false
    case _ => true
  }

  /** The head field's contribution to MappedNames. */
  function MappedNamesHead(fs: seq<Field>): set<string>
    requires fs != []
  {
    if Skipped(fs[0]) then {} else {fs[0].name}
  }

  lemma MappedNamesCons(fs: seq<Field>)
    requires fs != []
    ensures MappedNames(fs) == MappedNamesHead(fs) + MappedNames(fs[1..])
  {
  }

  /** The fields after the first keep the hypotheses of a walk over a
      struct's fields, and the first field's name is not among their names. */
  lemma TailWellFormed(fs: seq<Field>)
    requires fs != []
    requires DistinctNames(fs)
    requires forall i :: 0 <= i < |fs| ==> Skipped(fs[i]) || Walkable(fs[i].typ)
    ensures DistinctNames(fs[1..])
    ensures forall i :: 0 <= i < |fs[1..]| ==> Skipped(fs[1..][i]) || Walkable(fs[1..][i].typ)
    ensures fs[0].name !in MappedNames(fs[1..])
    ensures MappedNames(fs) == MappedNamesHead(fs) + MappedNames(fs[1..])
  {
  }

  /** A skipped field's name belongs to no mapped field. */
  lemma SkippedNotMapped(fs: seq<Field>, i: int)
    requires DistinctNames(fs) && 0 <= i < |fs| && Skipped(fs[i])
    ensures fs[i].name !in MappedNames(fs)
  {
  }

  lemma TailDistinct(fs: seq<Field>)
    requires fs != [] && DistinctNames(fs)
    ensures DistinctNames(fs[1..])
  {
  }
}
