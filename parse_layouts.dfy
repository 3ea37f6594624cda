/**
 * The layout builder (src/parse_layouts.rs:19-200): a single pass over the
 * classified lines of a report that keeps at most one open layout and, inside
 * it, at most one open variant, and emits each layout once it is finalised.
 *
 * `Step`, `RunFrom` and `Parse` state what one iteration, a run of iterations
 * and the whole pass compute; `ParseLayouts` is the loop itself, written as
 * the source writes it, and is proved to compute `Parse`.
 */
module LayoutBuilder {
  import opened Types
  import opened Lines

  /** The loop's accumulator: finished layouts, the open layout, the open variant. */
  datatype Builder = Builder(
    layouts: seq<TypeLayout>,
    current: Option<TypeLayout>,
    currentVariant: Option<Variant>)

  const Start: Builder := Builder([], None, None)

  /** The number of layouts opened so far: the finished ones and the open one. */
  function Opened(b: Builder): nat
  {
    |b.layouts| + (if b.current.Some? then 1 else 0)
  }

  predicate IsHeader(line: Line)
  {
    line.Recognised? && line.shape.TypeHeader?
  }

  /** The type-header lines of `lines`, in order. */
  function Headers(lines: seq<Line>): seq<Line>
  {
    if lines == [] then []
    else
      var last := lines[|lines| - 1];
      Headers(lines[..|lines| - 1]) + (if IsHeader(last) then [last] else [])
  }

  /** The layout a type header opens (parse_layouts.rs:57-66). */
  function NewLayout(text: string, name: string, size: nat, alignment: nat): (layout: TypeLayout)
    ensures layout.name == name && layout.size == size && layout.alignment == alignment
    ensures layout.rawLines == [text] && layout.unhandledLines == []
    ensures Verify(layout) == Ok <==> size == 0
  {
    TypeLayout(name, size, alignment, Struct([]), [], [text])
  }

  /** Closing a variant moves it into an enum's variant list; any other kind drops it. */
  function CloseVariant(kind: TypeKind, variant: Option<Variant>): (closed: TypeKind)
    ensures !kind.Enum? ==> closed == kind
    ensures kind.Enum? ==>
              closed.Enum? && closed.discriminantSize == kind.discriminantSize &&
              |closed.variants| == |kind.variants| + (if variant.Some? then 1 else 0) &&
              closed.variants[..|kind.variants|] == kind.variants &&
              (variant.Some? ==> closed.variants[|kind.variants|] == variant.value)
  {
    if variant.Some? && kind.Enum? then kind.(variants := kind.variants + [variant.value]) else kind
  }

  /** The `filter_map` that keeps the `Field` entries, in order. */
  function FieldsOf(entries: seq<StructEntry>): (fields: seq<Field>)
    ensures |fields| <= |entries|
    ensures forall f :: f in fields <==> FieldEntry(f) in entries
    ensures |fields| == |entries| <==> forall i :: 0 <= i < |entries| ==> entries[i].FieldEntry?
  {
    if entries == [] then []
    else
      assert entries == [entries[0]] + entries[1..];
      (if entries[0].FieldEntry? then [entries[0].field] else []) + FieldsOf(entries[1..])
  }

  /** How the report writes a union: an enum whose only variant bears the type's own name. */
  predicate IsUnionArtifact(name: string, kind: TypeKind)
  {
    kind.Enum? && |kind.variants| == 1 && kind.variants[0].name == name
  }

  /** The `finalize_layout` closure (parse_layouts.rs:24-44). */
  function Finalize(layout: TypeLayout, variant: Option<Variant>): (done: TypeLayout)
    ensures done.name == layout.name && done.size == layout.size && done.alignment == layout.alignment
    ensures done.unhandledLines == layout.unhandledLines && done.rawLines == layout.rawLines
  {
    var closed := CloseVariant(layout.kind, variant);
    if IsUnionArtifact(layout.name, closed) then layout.(kind := Union(FieldsOf(closed.variants[0].entries)))
    else layout.(kind := closed)
  }

  /** The shapes that describe one entry of a struct or variant. */
  predicate IsEntryShape(shape: Shape)
  {
    shape.UpvarShape? || shape.LocalShape? || shape.FieldShape? || shape.PaddingShape? || shape.EndPaddingShape?
  }

  /** The entry such a line contributes; end padding is a padding entry. */
  function EntryOf(shape: Shape): StructEntry
    requires IsEntryShape(shape)
  {
    match shape
    case UpvarShape(name, size, offset, alignment) => Upvar(ClosureVar(name, size, offset, alignment, None))
    case LocalShape(name, size, typeInfo) => Local(ClosureVar(name, size, None, None, typeInfo))
    case FieldShape(name, size, offset, alignment) => FieldEntry(Field(name, size, alignment, offset))
    case PaddingShape(size) => Padding(size)
    case EndPaddingShape(size) => Padding(size)
  }

  function PushToVariant(variant: Option<Variant>, e: StructEntry): Option<Variant>
  {
    if variant.Some? then Some(variant.value.(entries := variant.value.entries + [e])) else None
  }

  function PushToStruct(kind: TypeKind, e: StructEntry): TypeKind
  {
    if kind.Struct? then Struct(kind.entries + [e]) else kind
  }

  /** Fields and padding go to the open variant if there is one, else to the struct entries. */
  function RouteEntry(layout: TypeLayout, variant: Option<Variant>, e: StructEntry): (TypeLayout, Option<Variant>)
  {
    if variant.Some? then (layout, PushToVariant(variant, e))
    else (layout.(kind := PushToStruct(layout.kind, e)), variant)
  }

  /** A recognised line in the body of an open layout (parse_layouts.rs:78-185). */
  function Consume(layout: TypeLayout, variant: Option<Variant>, shape: Shape): (r: (TypeLayout, Option<Variant>))
    ensures r.0.name == layout.name && r.0.size == layout.size && r.0.alignment == layout.alignment
    ensures r.0.unhandledLines == layout.unhandledLines && r.0.rawLines == layout.rawLines
  {
    match shape
    case TypeHeader(_, _, _) => (layout, variant)
    case VariantHeader(rawName, size) =>
      var closed := CloseVariant(layout.kind, variant);
      (layout.(kind := if closed.Struct? then Enum(0, []) else closed), Some(Variant(TrimTicks(rawName), size, [])))
    case Discriminant(size) =>
      (layout.(kind := if layout.kind.Enum? then layout.kind.(discriminantSize := size) else Enum(size, [])), variant)
    case UpvarShape(_, _, _, _) => (layout, PushToVariant(variant, EntryOf(shape)))
    case LocalShape(_, _, _) => (layout, PushToVariant(variant, EntryOf(shape)))
    case FieldShape(_, _, _, _) => RouteEntry(layout, variant, EntryOf(shape))
    case PaddingShape(_) => RouteEntry(layout, variant, EntryOf(shape))
    case EndPaddingShape(_) => (layout.(kind := PushToStruct(layout.kind, EntryOf(shape))), variant)
  }

  /** One iteration of the loop (parse_layouts.rs:46-192). */
  function Step(b: Builder, line: Line): (r: Builder)
    ensures |b.layouts| <= |r.layouts| <= |b.layouts| + 1 && r.layouts[..|b.layouts|] == b.layouts
    ensures Opened(r) == Opened(b) + (if IsHeader(line) then 1 else 0)
    ensures IsHeader(line) ==> r.current.Some? && (b.current.Some? ==> r.currentVariant.None?)
    ensures b.current.None? && !IsHeader(line) ==> r == b
  {
    match line
    case Blank(_) => b
    case Recognised(text, shape) =>
      if shape.TypeHeader? then
        var newLayout := Some(NewLayout(text, shape.name, shape.size, shape.alignment));
        if b.current.Some? then Builder(b.layouts + [Finalize(b.current.value, b.currentVariant)], newLayout, None)
        else b.(current := newLayout)
      else if b.current.None? then b
      else
        var layout := b.current.value.(rawLines := b.current.value.rawLines + [text]);
        var r := Consume(layout, b.currentVariant, shape);
        b.(current := Some(r.0), currentVariant := r.1)
    case Unrecognised(text, hasMarker) =>
      if b.current.None? then b
      else
        var layout := b.current.value.(rawLines := b.current.value.rawLines + [text]);
        b.(current := Some(if hasMarker then layout.(unhandledLines := layout.unhandledLines + [text]) else layout))
  }

  /** The accumulator after the loop has run over `lines`, starting from `b`. */
  function RunFrom(b: Builder, lines: seq<Line>): (r: Builder)
    ensures Opened(r) == Opened(b) + |Headers(lines)|
    decreases |lines|
  {
    if lines == [] then b else Step(RunFrom(b, lines[..|lines| - 1]), lines[|lines| - 1])
  }

  /** After the loop, the open layout is finalised and pushed (parse_layouts.rs:194-197). */
  function Close(b: Builder): (layouts: seq<TypeLayout>)
    ensures |layouts| == Opened(b) && layouts[..|b.layouts|] == b.layouts
  {
    if b.current.Some? then b.layouts + [Finalize(b.current.value, b.currentVariant)] else b.layouts
  }

  /** The whole pass: one layout for each type header of the input. */
  function Parse(lines: seq<Line>): (layouts: seq<TypeLayout>)
    ensures |layouts| == |Headers(lines)|
  {
    Close(RunFrom(Start, lines))
  }

  /** `parse_layouts`, over lines already read and classified. */
  method ParseLayouts(lines: seq<Line>) returns (layouts: seq<TypeLayout>)
    ensures layouts == Parse(lines)
  {
    layouts := [];
    var currentLayout: Option<TypeLayout> := None;
    var currentVariant: Option<Variant> := None;

    for i := 0 to |lines|
      invariant Builder(layouts, currentLayout, currentVariant) == RunFrom(Start, lines[..i])
    {
      assert lines[..i + 1][..i] == lines[..i];
      var line := lines[i];
      if line.Blank? {
        continue;
      }

      if line.Recognised? && line.shape.TypeHeader? {
        if currentLayout.Some? {
          var done := Finalize(currentLayout.value, currentVariant);
          currentVariant := None;
          layouts := layouts + [done];
        }
        currentLayout := Some(NewLayout(line.text, line.shape.name, line.shape.size, line.shape.alignment));
        continue;
      }

      if currentLayout.None? {
        continue;
      }
      var layout := currentLayout.value;
      layout := layout.(rawLines := layout.rawLines + [line.text]);

      var handled := false;
      if line.Recognised? {
        handled := true;
        match line.shape {
          case VariantHeader(rawName, size) =>
            if currentVariant.Some? && layout.kind.Enum? {
              layout := layout.(kind := layout.kind.(variants := layout.kind.variants + [currentVariant.value]));
            }
            currentVariant := Some(Variant(TrimTicks(rawName), size, []));
            if layout.kind.Struct? {
              layout := layout.(kind := Enum(0, []));
            }
          case Discriminant(size) =>
            if layout.kind.Enum? {
              layout := layout.(kind := layout.kind.(discriminantSize := size));
            } else {
              layout := layout.(kind := Enum(size, []));
            }
          case UpvarShape(name, size, offset, alignment) =>
            if currentVariant.Some? {
              var v := currentVariant.value;
              currentVariant := Some(v.(entries := v.entries + [Upvar(ClosureVar(name, size, offset, alignment, None))]));
            }
          case LocalShape(name, size, typeInfo) =>
            if currentVariant.Some? {
              var v := currentVariant.value;
              currentVariant := Some(v.(entries := v.entries + [Local(ClosureVar(name, size, None, None, typeInfo))]));
            }
          case FieldShape(name, size, offset, alignment) =>
            var entry := FieldEntry(Field(name, size, alignment, offset));
            if currentVariant.Some? {
              var v := currentVariant.value;
              currentVariant := Some(v.(entries := v.entries + [entry]));
            } else if layout.kind.Struct? {
              layout := layout.(kind := Struct(layout.kind.entries + [entry]));
            }
          case PaddingShape(size) =>
            var entry := Padding(size);
            if currentVariant.Some? {
              var v := currentVariant.value;
              currentVariant := Some(v.(entries := v.entries + [entry]));
            } else if layout.kind.Struct? {
              layout := layout.(kind := Struct(layout.kind.entries + [entry]));
            }
          case EndPaddingShape(size) =>
            if layout.kind.Struct? {
              layout := layout.(kind := Struct(layout.kind.entries + [Padding(size)]));
            }
          case TypeHeader(_, _, _) =>
            // headers are dealt with before the open-layout test above
        }
      }

      if !handled && line.hasMarker {
        layout := layout.(unhandledLines := layout.unhandledLines + [line.text]);
      }
      currentLayout := Some(layout);
    }
    assert lines[..|lines|] == lines;

    if currentLayout.Some? {
      var done := Finalize(currentLayout.value, currentVariant);
      currentVariant := None;
      layouts := layouts + [done];
    }
  }
}
