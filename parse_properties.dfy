/**
 * What the layout builder guarantees: one layout per type header and in
 * header order, unaffected by blank lines and by lines before the first
 * header; where each kind of body line goes; and what finalisation does.
 */
module LayoutBuilderProperties {
  import opened Types
  import opened Lines
  import opened LayoutBuilder
  import VerifyProperties

  /** The text of every line that is not blank, in order. */
  function NonBlankTexts(lines: seq<Line>): seq<string>
  {
    if lines == [] then []
    else
      var last := lines[|lines| - 1];
      NonBlankTexts(lines[..|lines| - 1]) + (if last.Blank? then [] else [last.text])
  }

  /** The text of every unrecognised line that carries the marker token, in order. */
  function MarkedUnrecognisedTexts(lines: seq<Line>): seq<string>
  {
    if lines == [] then []
    else
      var last := lines[|lines| - 1];
      MarkedUnrecognisedTexts(lines[..|lines| - 1]) +
        (if last.Unrecognised? && last.hasMarker then [last.text] else [])
  }

  lemma {:induction false} RunFromAppend(b: Builder, xs: seq<Line>, ys: seq<Line>)
    ensures RunFrom(b, xs + ys) == RunFrom(RunFrom(b, xs), ys)
    decreases |ys|
  {
    if ys == [] {
      assert xs + ys == xs;
    } else {
      var zs := xs + ys;
      assert zs[..|zs| - 1] == xs + ys[..|ys| - 1];
      assert zs[|zs| - 1] == ys[|ys| - 1];
      RunFromAppend(b, xs, ys[..|ys| - 1]);
    }
  }

  /** A run of iterations never alters a finished layout; it only appends. */
  lemma {:induction false} RunKeepsFinished(b: Builder, lines: seq<Line>)
    ensures |b.layouts| <= |RunFrom(b, lines).layouts|
    ensures RunFrom(b, lines).layouts[..|b.layouts|] == b.layouts
    decreases |lines|
  {
    if lines != [] {
      var mid := RunFrom(b, lines[..|lines| - 1]);
      RunKeepsFinished(b, lines[..|lines| - 1]);
      var r := RunFrom(b, lines);
      assert r.layouts[..|b.layouts|] == r.layouts[..|mid.layouts|][..|b.layouts|];
    }
  }

  lemma RunFromSnoc(b: Builder, xs: seq<Line>, x: Line)
    ensures RunFrom(b, xs + [x]) == Step(RunFrom(b, xs), x)
  {
    assert (xs + [x])[..|xs|] == xs;
  }

  /**
   * The accumulator's invariant: an open variant lives only inside an open
   * layout whose kind is already `Enum`, and no open layout is a `Union`
   * (unions arise only in finalisation).
   */
  ghost predicate Inv(b: Builder)
  {
    (b.currentVariant.Some? ==> b.current.Some? && b.current.value.kind.Enum?) &&
    (b.current.Some? ==> !b.current.value.kind.Union?)
  }

  lemma StepKeepsInv(b: Builder, line: Line)
    requires Inv(b)
    ensures Inv(Step(b, line))
  {
  }

  lemma {:induction false} ReachableInv(lines: seq<Line>)
    ensures Inv(RunFrom(Start, lines))
    decreases |lines|
  {
    if lines != [] {
      ReachableInv(lines[..|lines| - 1]);
      StepKeepsInv(RunFrom(Start, lines[..|lines| - 1]), lines[|lines| - 1]);
    }
  }

  /**
   * Whatever the input so far, an open variant is never lost: closing it
   * (on the next variant header or at finalisation) appends it to the open
   * layout's variant list.
   */
  lemma OpenVariantIsNeverDropped(lines: seq<Line>)
    requires RunFrom(Start, lines).currentVariant.Some?
    ensures var b := RunFrom(Start, lines);
            b.current.Some? && b.current.value.kind.Enum? &&
            CloseVariant(b.current.value.kind, b.currentVariant) ==
              b.current.value.kind.(variants := b.current.value.kind.variants + [b.currentVariant.value])
  {
    ReachableInv(lines);
  }

  /** `layout` was opened by the type-header line `header`. */
  ghost predicate OpenedBy(layout: TypeLayout, header: Line)
  {
    IsHeader(header) &&
    layout.name == header.shape.name && layout.size == header.shape.size &&
    layout.alignment == header.shape.alignment &&
    |layout.rawLines| > 0 && layout.rawLines[0] == header.text
  }

  /** The accumulator holds one layout per header seen so far, in header order. */
  ghost predicate TracksHeaders(b: Builder, lines: seq<Line>)
  {
    var hs := Headers(lines);
    |b.layouts| + (if b.current.Some? then 1 else 0) == |hs| &&
    (b.current.Some? <==> hs != []) &&
    (forall k :: 0 <= k < |b.layouts| ==> OpenedBy(b.layouts[k], hs[k])) &&
    (b.current.Some? ==> OpenedBy(b.current.value, hs[|hs| - 1]))
  }

  lemma {:induction false} RunTracksHeaders(lines: seq<Line>)
    ensures TracksHeaders(RunFrom(Start, lines), lines)
    decreases |lines|
  {
    if lines != [] {
      var init, last := lines[..|lines| - 1], lines[|lines| - 1];
      RunTracksHeaders(init);
      var b := RunFrom(Start, init);
      var hs := Headers(init);
      if IsHeader(last) {
        assert Headers(lines) == hs + [last];
        if b.current.Some? {
          assert OpenedBy(Finalize(b.current.value, b.currentVariant), hs[|hs| - 1]);
        }
      } else {
        assert Headers(lines) == hs;
        if b.current.Some? && !last.Blank? {
          var raw := b.current.value.rawLines;
          assert (raw + [last.text])[0] == raw[0];
        }
      }
    }
  }

  /**
   * Every header line yields exactly one output layout, in input order, and
   * that layout keeps the header's name, size and alignment and starts its
   * raw lines with the header's text.
   */
  lemma ParseFollowsHeaders(lines: seq<Line>)
    ensures |Parse(lines)| == |Headers(lines)|
    ensures forall k :: 0 <= k < |Parse(lines)| ==> OpenedBy(Parse(lines)[k], Headers(lines)[k])
  {
    RunTracksHeaders(lines);
    var b := RunFrom(Start, lines);
    if b.current.Some? {
      var hs := Headers(lines);
      assert OpenedBy(Finalize(b.current.value, b.currentVariant), hs[|hs| - 1]);
    }
  }

  /**
   * A header finalises and emits the open layout (the same as the end of
   * input does) and opens a fresh `Struct` layout with no open variant.
   */
  lemma HeaderOpensFreshLayout(b: Builder, text: string, name: string, size: nat, alignment: nat)
    requires Inv(b)
    ensures var b' := Step(b, Recognised(text, TypeHeader(name, size, alignment)));
            b'.layouts == Close(b) &&
            b'.current == Some(TypeLayout(name, size, alignment, Struct([]), [], [text])) &&
            b'.currentVariant.None?
  {
  }

  lemma {:induction false} NoHeaderKeepsStart(pre: seq<Line>)
    requires forall i :: 0 <= i < |pre| ==> !IsHeader(pre[i])
    ensures RunFrom(Start, pre) == Start
    decreases |pre|
  {
    if pre != [] {
      NoHeaderKeepsStart(pre[..|pre| - 1]);
    }
  }

  /** Lines before the first header belong to no layout and change nothing. */
  lemma LinesBeforeFirstHeaderDiscarded(pre: seq<Line>, rest: seq<Line>)
    requires forall i :: 0 <= i < |pre| ==> !IsHeader(pre[i])
    ensures Parse(pre + rest) == Parse(rest)
  {
    NoHeaderKeepsStart(pre);
    RunFromAppend(Start, pre, rest);
  }

  /** A whitespace-only line, wherever it stands, changes nothing. */
  lemma BlankLineIgnored(before: seq<Line>, text: string, matches: seq<Shape>, after: seq<Line>)
    requires IsBlank(text)
    ensures Parse(before + [Classify(text, matches)] + after) == Parse(before + after)
  {
    var line := Classify(text, matches);
    RunFromAppend(Start, before + [line], after);
    RunFromAppend(Start, before, after);
    RunFromSnoc(Start, before, line);
  }

  /**
   * A run of body lines (no header) on an open layout: the finished layouts
   * and the header fields stay as they are, every non-blank line is appended
   * to the raw lines (marker or not), and exactly the unrecognised lines with
   * the marker token are appended to the unhandled lines.
   */
  lemma {:induction false} BodyLinesRecorded(b: Builder, lines: seq<Line>)
    requires b.current.Some?
    requires forall i :: 0 <= i < |lines| ==> !IsHeader(lines[i])
    ensures var b' := RunFrom(b, lines);
            b'.current.Some? && b'.layouts == b.layouts &&
            b'.current.value.name == b.current.value.name &&
            b'.current.value.size == b.current.value.size &&
            b'.current.value.alignment == b.current.value.alignment &&
            b'.current.value.rawLines == b.current.value.rawLines + NonBlankTexts(lines) &&
            b'.current.value.unhandledLines == b.current.value.unhandledLines + MarkedUnrecognisedTexts(lines)
    decreases |lines|
  {
    if lines != [] {
      var init, last := lines[..|lines| - 1], lines[|lines| - 1];
      BodyLinesRecorded(b, init);
      BodyLineStep(RunFrom(b, init), last);
    }
  }

  /** One non-header line in an open layout: what `BodyLinesRecorded` adds per line. */
  lemma BodyLineStep(b: Builder, line: Line)
    requires b.current.Some? && !IsHeader(line)
    ensures var b' := Step(b, line);
            b'.current.Some? && b'.layouts == b.layouts &&
            b'.current.value.name == b.current.value.name &&
            b'.current.value.size == b.current.value.size &&
            b'.current.value.alignment == b.current.value.alignment &&
            b'.current.value.rawLines == b.current.value.rawLines + (if line.Blank? then [] else [line.text]) &&
            b'.current.value.unhandledLines ==
              b.current.value.unhandledLines + (if line.Unrecognised? && line.hasMarker then [line.text] else [])
  {
  }

  /** An unrecognised line leaves the kind and the open variant as they were. */
  lemma UnrecognisedLineLeavesStructure(b: Builder, text: string, hasMarker: bool)
    requires b.current.Some?
    ensures var b' := Step(b, Unrecognised(text, hasMarker));
            b'.current.Some? && b'.current.value.kind == b.current.value.kind &&
            b'.currentVariant == b.currentVariant
  {
  }

  /** Field and padding lines go to the open variant, else to the struct entries. */
  lemma FieldAndPaddingRouting(b: Builder, text: string, shape: Shape)
    requires Inv(b) && b.current.Some? && (shape.FieldShape? || shape.PaddingShape?)
    ensures var b' := Step(b, Recognised(text, shape));
            var kind, kind' := b.current.value.kind, b'.current.value.kind;
            (b.currentVariant.Some? ==>
               kind' == kind &&
               b'.currentVariant == Some(b.currentVariant.value.(entries := b.currentVariant.value.entries + [EntryOf(shape)]))) &&
            (b.currentVariant.None? ==>
               b'.currentVariant.None? &&
               kind' == (if kind.Struct? then Struct(kind.entries + [EntryOf(shape)]) else kind))
  {
  }

  /** End padding goes only to struct entries, whatever variant is open; an enum drops it. */
  lemma EndPaddingRouting(b: Builder, text: string, size: nat)
    requires Inv(b) && b.current.Some?
    ensures var b' := Step(b, Recognised(text, EndPaddingShape(size)));
            var kind, kind' := b.current.value.kind, b'.current.value.kind;
            b'.currentVariant == b.currentVariant &&
            (kind.Struct? ==> kind' == Struct(kind.entries + [Padding(size)])) &&
            (kind.Enum? ==> kind' == kind)
  {
  }

  /** Upvar and local lines go to the open variant; with none open they are dropped. */
  lemma ClosureVarRouting(b: Builder, text: string, shape: Shape)
    requires Inv(b) && b.current.Some? && (shape.UpvarShape? || shape.LocalShape?)
    ensures var b' := Step(b, Recognised(text, shape));
            b'.current.value.kind == b.current.value.kind &&
            (b.currentVariant.Some? ==>
               b'.currentVariant == Some(b.currentVariant.value.(entries := b.currentVariant.value.entries + [EntryOf(shape)]))) &&
            (b.currentVariant.None? ==> b'.currentVariant.None?)
  {
  }

  /**
   * A discriminant line sets (does not add to) the discriminant size and
   * keeps the variants; from a struct it promotes to an enum with no variants,
   * dropping the struct's entries. The open variant stays open.
   */
  lemma DiscriminantOverwrites(b: Builder, text: string, size: nat)
    requires b.current.Some?
    ensures var b' := Step(b, Recognised(text, Discriminant(size)));
            var kind := b.current.value.kind;
            b'.current.value.kind == Enum(size, if kind.Enum? then kind.variants else []) &&
            b'.currentVariant == b.currentVariant
  {
  }

  /**
   * A variant header closes the open variant into the enum and opens a new,
   * empty one named by the captured name without its backticks; from a
   * struct it promotes to an enum with no discriminant and no variants.
   */
  lemma VariantHeaderOpensVariant(b: Builder, text: string, rawName: string, size: nat)
    requires Inv(b) && b.current.Some?
    ensures var b' := Step(b, Recognised(text, VariantHeader(rawName, size)));
            var kind := b.current.value.kind;
            b'.currentVariant == Some(Variant(TrimTicks(rawName), size, [])) &&
            b'.current.value.kind ==
              (if kind.Enum?
               then kind.(variants := kind.variants + (if b.currentVariant.Some? then [b.currentVariant.value] else []))
               else Enum(0, []))
  {
  }

  /** The verifier counts exactly the size each body line reported, end padding included. */
  lemma EntrySizeIsReportedSize(shape: Shape)
    requires IsEntryShape(shape)
    ensures EntrySize(EntryOf(shape)) == shape.size
  {
  }

  lemma {:induction false} FieldsOfAppend(a: seq<StructEntry>, b: seq<StructEntry>)
    ensures FieldsOf(a + b) == FieldsOf(a) + FieldsOf(b)
  {
    if a == [] {
      assert a + b == b;
    } else {
      var head := if a[0].FieldEntry? then [a[0].field] else [];
      assert (a + b)[0] == a[0] && (a + b)[1..] == a[1..] + b;
      assert FieldsOf(a + b) == head + FieldsOf(a[1..] + b);
      FieldsOfAppend(a[1..], b);
      assert FieldsOf(a) == head + FieldsOf(a[1..]);
    }
  }

  /**
   * Finalisation closes the open variant into the layout, then turns an enum
   * whose single variant is named after the layout into a union of that
   * variant's fields; otherwise the kind stays as it is.
   */
  lemma FinalizeReclassifies(layout: TypeLayout, variant: Option<Variant>)
    requires variant.Some? ==> layout.kind.Enum?
    requires !layout.kind.Union?
    ensures var done := Finalize(layout, variant);
            var variants := if layout.kind.Enum?
                            then layout.kind.variants + (if variant.Some? then [variant.value] else [])
                            else [];
            (done.kind.Union? <==> layout.kind.Enum? && |variants| == 1 && variants[0].name == layout.name) &&
            (done.kind.Union? ==> done.kind.fields == FieldsOf(variants[0].entries)) &&
            (layout.kind.Enum? && !done.kind.Union? ==> done.kind == Enum(layout.kind.discriminantSize, variants)) &&
            (layout.kind.Struct? ==> done.kind == layout.kind)
  {
  }

  /**
   * A layout reclassified as a union is verified by the union rule: accepted
   * exactly when its size is the largest size among the variant's fields.
   */
  lemma ReclassifiedUnionVerified(layout: TypeLayout, variant: Option<Variant>, m: nat)
    requires Finalize(layout, variant).kind.Union?
    requires IsMaxOrZero(FieldSizes(Finalize(layout, variant).kind.fields), m)
    ensures Verify(Finalize(layout, variant)) == Ok <==> layout.size == m
  {
    VerifyProperties.VerifyUnion(Finalize(layout, variant), m);
  }

  /** A single header and nothing else: one empty struct, accepted only at size 0. */
  lemma SingleHeaderRoundTrip(text: string, name: string, size: nat, alignment: nat)
    ensures var layouts := Parse([Recognised(text, TypeHeader(name, size, alignment))]);
            layouts == [TypeLayout(name, size, alignment, Struct([]), [], [text])] &&
            (Verify(layouts[0]) == Ok <==> size == 0)
  {
    var line := Recognised(text, TypeHeader(name, size, alignment));
    var newLayout := TypeLayout(name, size, alignment, Struct([]), [], [text]);
    assert [line][..0] == [];
    assert RunFrom(Start, [line]) == Builder([], Some(newLayout), None);
    assert Finalize(newLayout, None) == newLayout;
  }
}
