/** The field walk of the reflection demo (`reflection/reflection.go`,
    `printStruct`), as the trace of log lines it writes.

    Unlike the mapping generators this walk looks at values, not zero
    values: a field of interface type holds whatever was assigned to it,
    possibly nothing. Each log line becomes one `Event`; the text of the
    lines is left out.
 */
module Reflection {
  import opened Results
  import Tags

  /** A Go value as the walk sees it: a struct with its fields, the two
      scalar kinds it prints, or a value of any other kind. */
  datatype Value =
    | StructValue(fields: seq<FieldValue>)
    | Int64Value(i: int)
    | StringValue(s: string)
    | OtherValue

  /** A struct field with the value of its `customtag` key; `content` is
      None for an interface field holding nil. */
  datatype FieldValue = FieldValue(name: string, tag: string, content: Option<Value>)

  /** One log line. */
  datatype Event =
    | Inspected(v: Value)                        // the kind of every value walked
    | NoScan(field: string)                      // a field skipped by `noscan`
    | UselessOption(field: string, option: string)
    | Banner                                     // the line around a `decorateme` field
    | Encountered(v: Value)                      // an int64 or string leaf
    | UnsupportedKind

  /** printStruct: the kind line, then the fields in order for a struct,
      or one line for a leaf. */
  function PrintStruct(v: Value): (log: seq<Event>)
    ensures |log| >= 1 && log[0] == Inspected(v)
    ensures !v.StructValue? ==> |log| == 2
    decreases v
  {
    [Inspected(v)] +
    match v
    case StructValue(fs) => FieldsLog(fs)
    case Int64Value(_) => [Encountered(v)]
    case StringValue(_) => [Encountered(v)]
    case OtherValue => [UnsupportedKind]
  }

  /** The loop over a struct's fields. */
  function FieldsLog(fs: seq<FieldValue>): seq<Event>
    decreases fs
  {
    if fs == [] then [] else FieldLog(fs[0]) + FieldsLog(fs[1..])
  }

  /** One iteration: `noscan` ends it at once; otherwise the `world` and
      `hello` notes, then the walk of a non-nil value, framed by banners
      when the field is `decorateme`. */
  function FieldLog(f: FieldValue): (log: seq<Event>)
    ensures Tags.Has(f.tag, "noscan") ==> log == [NoScan(f.name)]
    decreases f, 1
  {
    if Tags.Has(f.tag, "noscan") then [NoScan(f.name)]
    else Notes(f) + Framed(Tags.Has(f.tag, "decorateme"), ContentLog(f))
  }

  /** The walk of the field's value, or nothing for a nil interface. */
  function ContentLog(f: FieldValue): seq<Event>
    decreases f, 0
  {
    match f.content
    case Some(v) => PrintStruct(v)
    case None => []
  }

  function Framed(decorate: bool, inner: seq<Event>): seq<Event> {
    if decorate then [Banner] + inner + [Banner] else inner
  }

  /** The notes about options the demo considers useless, `world` first. */
  function Notes(f: FieldValue): seq<Event> {
    Note(f.name, "world", Tags.Has(f.tag, "world")) + Note(f.name, "hello", Tags.Has(f.tag, "hello"))
  }

  function Note(name: string, option: string, present: bool): seq<Event> {
    if present then [UselessOption(name, option)] else []
  }

  /** The values a trace says were walked, in order. */
  function Inspections(log: seq<Event>): (vs: seq<Value>)
    ensures |vs| <= |log|
  {
    if log == [] then []
    else (if log[0].Inspected? then [log[0].v] else []) + Inspections(log[1..])
  }

  /** The reference walk: a value, then in pre-order every value reachable
      through fields that are neither `noscan` nor nil. */
  function Reachable(v: Value): seq<Value>
    decreases v
  {
    match v
    case StructValue(fs) => [v] + ReachableFields(fs)
    case _ => [v]
  }

  function ReachableFields(fs: seq<FieldValue>): seq<Value>
    decreases fs
  {
    if fs == [] then []
    else
      var here := match fs[0].content
        case Some(c) => if Tags.Has(fs[0].tag, "noscan") then [] else Reachable(c)
        case None => [];
      here + ReachableFields(fs[1..])
  }

  lemma InspectionsAppend(a: seq<Event>, b: seq<Event>)
    ensures Inspections(a + b) == Inspections(a) + Inspections(b)
    decreases |a|
  {
    if a != [] {
      assert (a + b)[1..] == a[1..] + b;
      InspectionsAppend(a[1..], b);
    } else {
      assert a + b == b;
    }
  }

  /** The walk inspects exactly the reference values, in pre-order. */
  lemma {:induction false} PrintStructVisitsReachable(v: Value)
    ensures Inspections(PrintStruct(v)) == Reachable(v)
    decreases v
  {
    var rest := match v
      case StructValue(fs) => FieldsLog(fs)
      case Int64Value(_) => [Encountered(v)]
      case StringValue(_) => [Encountered(v)]
      case OtherValue => [UnsupportedKind];
    InspectionsAppend([Inspected(v)], rest);
    if v.StructValue? {
      FieldsVisitReachable(v.fields);
    }
  }

  lemma {:induction false} FieldsVisitReachable(fs: seq<FieldValue>)
    ensures Inspections(FieldsLog(fs)) == ReachableFields(fs)
    decreases fs
  {
    if fs != [] {
      InspectionsAppend(FieldLog(fs[0]), FieldsLog(fs[1..]));
      FieldVisitsReachable(fs[0]);
      FieldsVisitReachable(fs[1..]);
    }
  }

  lemma {:induction false} FieldVisitsReachable(f: FieldValue)
    ensures Inspections(FieldLog(f)) == match f.content
      case Some(c) => if Tags.Has(f.tag, "noscan") then [] else Reachable(c)
      case None => []
    decreases f
  {
    if !Tags.Has(f.tag, "noscan") {
      var d := Tags.Has(f.tag, "decorateme");
      InspectionsAppend(Notes(f), Framed(d, ContentLog(f)));
      NotesInspectNothing(f);
      FramedInspections(d, ContentLog(f));
      if f.content.Some? {
        PrintStructVisitsReachable(f.content.value);
      }
    }
  }

  lemma NotesInspectNothing(f: FieldValue)
    ensures Inspections(Notes(f)) == []
  {
  }

  lemma NoteInspectsNothing(name: string, option: string, present: bool)
    ensures Inspections(Note(name, option, present)) == []
  {
  }

  /** Banners inspect nothing. */
  lemma FramedInspections(decorate: bool, inner: seq<Event>)
    ensures Inspections(Framed(decorate, inner)) == Inspections(inner)
  {
    if decorate {
      InspectionsAppend([Banner] + inner, [Banner]);
      InspectionsAppend([Banner], inner);
      assert [Banner][1..] == [];
    }
  }

  /** Fields are walked in declaration order: the trace of two runs of
      fields is the trace of the first followed by that of the second. */
  lemma {:induction false} FieldsInOrder(a: seq<FieldValue>, b: seq<FieldValue>)
    ensures FieldsLog(a + b) == FieldsLog(a) + FieldsLog(b)
    decreases |a|
  {
    if a == [] {
      assert a + b == b;
    } else {
      assert (a + b)[0] == a[0];
      assert (a + b)[1..] == a[1..] + b;
      FieldsInOrder(a[1..], b);
    }
  }

  /** A `noscan` field writes one line and nothing of its value is walked,
      whatever else its tag says. */
  lemma NoScanFieldIsNotWalked(f: FieldValue)
    requires Tags.Has(f.tag, "noscan")
    ensures Inspections(FieldLog(f)) == []
  {
  }

  /** A nil interface field is not walked; a decorated one still gets its
      two banners, with nothing between them. */
  lemma NilFieldIsNotWalked(f: FieldValue)
    requires f.content.None? && !Tags.Has(f.tag, "noscan")
    ensures Inspections(FieldLog(f)) == []
    ensures Tags.Has(f.tag, "decorateme") ==> FieldLog(f) == Notes(f) + [Banner, Banner]
    ensures !Tags.Has(f.tag, "decorateme") ==> FieldLog(f) == Notes(f)
  {
    UnscannedLog(f);
    assert ContentLog(f) == [];
    NotesInspectNothing(f);
    EmptyFrame(Notes(f), Tags.Has(f.tag, "decorateme"));
  }

  lemma UnscannedLog(f: FieldValue)
    requires !Tags.Has(f.tag, "noscan")
    ensures FieldLog(f) == Notes(f) + Framed(Tags.Has(f.tag, "decorateme"), ContentLog(f))
  {
  }

  lemma EmptyFrame(notes: seq<Event>, d: bool)
    requires Inspections(notes) == []
    ensures Inspections(notes + Framed(d, [])) == []
    ensures notes + Framed(d, []) == if d then notes + [Banner, Banner] else notes
  {
    InspectionsAppend(notes, Framed(d, []));
    FramedInspections(d, []);
    assert [] + [Banner] == [Banner];
    assert [Banner] + [] + [Banner] == [Banner, Banner];
  }

  /** `log` is `notes`, then a banner, then `walk`, then a closing banner. */
  predicate FramedAfter(log: seq<Event>, notes: seq<Event>, walk: seq<Event>) {
    && |log| == |notes| + |walk| + 2
    && log[..|notes|] == notes
    && log[|notes|] == Banner
    && log[|notes| + 1..|log| - 1] == walk
    && log[|log| - 1] == Banner
  }

  /** A decorated field that is walked has its whole walk between the two
      banners, right after its notes; the walk opens with the value's kind
      line. */
  lemma DecoratedFieldIsFramed(f: FieldValue)
    requires f.content.Some? && !Tags.Has(f.tag, "noscan") && Tags.Has(f.tag, "decorateme")
    ensures FramedAfter(FieldLog(f), Notes(f), PrintStruct(f.content.value))
    ensures FieldLog(f)[|Notes(f)| + 1] == Inspected(f.content.value)
  {
    DecoratedLog(f);
    FramedSlices(FieldLog(f), Notes(f), PrintStruct(f.content.value));
  }

  lemma DecoratedLog(f: FieldValue)
    requires f.content.Some? && !Tags.Has(f.tag, "noscan") && Tags.Has(f.tag, "decorateme")
    ensures FieldLog(f) == Notes(f) + Framed(true, PrintStruct(f.content.value))
  {
    UnscannedLog(f);
  }

  /** Notes followed by a framed walk can be cut back into the notes and the
      walk. */
  lemma FramedSlices(log: seq<Event>, notes: seq<Event>, inner: seq<Event>)
    requires log == notes + Framed(true, inner)
    ensures FramedAfter(log, notes, inner)
    ensures inner != [] ==> log[|notes| + 1] == inner[0]
  {
    assert log[..|notes|] == notes;
    assert log[|notes| + 1..|log| - 1] == inner;
  }

  /** With both `world` and `hello`, the `world` note comes first. */
  lemma WorldNoteBeforeHello(f: FieldValue)
    requires !Tags.Has(f.tag, "noscan") && Tags.Has(f.tag, "world") && Tags.Has(f.tag, "hello")
    ensures FieldLog(f)[..2] == [UselessOption(f.name, "world"), UselessOption(f.name, "hello")]
  {
  }
}
