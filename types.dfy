/**
 * The records that describe one type's memory layout, and the size-consistency
 * check run on each finished layout (src/types.rs).
 *
 * Every size is a `nat`: the source stores them as `u64`, whose sums panic on
 * overflow in debug builds and wrap in release builds; the model assumes no
 * sum overflows.
 */
module Types {

  datatype Option<T> = None | Some(value: T)

  /** A named member of a struct, an enum variant or a union. */
  datatype Field = Field(name: string, size: nat, alignment: Option<nat>, offset: Option<nat>)

  /** A variable captured by a closure ("upvar") or a local of a closure's frame. */
  datatype ClosureVar = ClosureVar(
    name: string,
    size: nat,
    offset: Option<nat>,
    alignment: Option<nat>,
    typeInfo: Option<string>)

  /** One entry of a struct or of an enum variant, in report order. */
  datatype StructEntry =
    | FieldEntry(field: Field)
    | Upvar(capture: ClosureVar)
    | Local(capture: ClosureVar)
    | Padding(size: nat)

  /** One arm of an enumeration with its declared size. */
  datatype Variant = Variant(name: string, size: nat, entries: seq<StructEntry>)

  datatype TypeKind =
    | Struct(entries: seq<StructEntry>)
    | Enum(discriminantSize: nat, variants: seq<Variant>)
    | Union(fields: seq<Field>)

  datatype TypeLayout = TypeLayout(
    name: string,
    size: nat,
    alignment: nat,
    kind: TypeKind,
    unhandledLines: seq<string>,
    rawLines: seq<string>)

  datatype VerificationError =
    | StructSizeMismatch(expected: nat, actual: nat)
    | VariantSizeMismatch(variantName: string, expected: nat, actual: nat)
    | UnionSizeMismatch(expected: nat, actualMax: nat)
    | EnumTotalSizeMismatch(expected: nat, calculatedMin: nat)

  /** The source's `Result<(), VerificationError>`. */
  datatype Outcome = Ok | Err(error: VerificationError)

  /** `StructEntry::size`: the size carried by whichever record the entry wraps. */
  function EntrySize(e: StructEntry): (n: nat)
    ensures e.FieldEntry? ==> n == e.field.size
    ensures e.Upvar? || e.Local? ==> n == e.capture.size
    ensures e.Padding? ==> n == e.size
  {
    match e
    case FieldEntry(f) => f.size
    case Upvar(c) => c.size
    case Local(c) => c.size
    case Padding(size) => size
  }

  /** `entries.iter().map(|e| e.size()).sum()` */
  function SumSizes(entries: seq<StructEntry>): (total: nat)
    ensures forall i :: 0 <= i < |entries| ==> EntrySize(entries[i]) <= total
    ensures total == 0 <==> forall i :: 0 <= i < |entries| ==> EntrySize(entries[i]) == 0
  {
    if entries == [] then 0
    else
      assert forall i :: 1 <= i < |entries| ==> entries[i] == entries[1..][i - 1];
      EntrySize(entries[0]) + SumSizes(entries[1..])
  }

  function Max(a: nat, b: nat): nat
  {
    if a >= b then a else b
  }

  /** `m` is the largest element of `sizes`, or 0 when there is none. */
  ghost predicate IsMaxOrZero(sizes: seq<nat>, m: nat)
  {
    (forall i :: 0 <= i < |sizes| ==> sizes[i] <= m) &&
    (sizes == [] ==> m == 0) &&
    (sizes != [] ==> exists i :: 0 <= i < |sizes| && sizes[i] == m)
  }

  /** `iter().max().unwrap_or(0)` over a sequence of sizes. */
  function MaxOrZero(sizes: seq<nat>): (m: nat)
    ensures IsMaxOrZero(sizes, m)
  {
    if sizes == [] then 0
    else
      var rest := MaxOrZero(sizes[1..]);
      assert forall i :: 1 <= i < |sizes| ==> sizes[i] == sizes[1..][i - 1];
      Max(sizes[0], rest)
  }

  function VariantSizes(variants: seq<Variant>): (s: seq<nat>)
    ensures |s| == |variants| && forall i :: 0 <= i < |s| ==> s[i] == variants[i].size
  {
    seq(|variants|, i requires 0 <= i < |variants| => variants[i].size)
  }

  function FieldSizes(fields: seq<Field>): (s: seq<nat>)
    ensures |s| == |fields| && forall i :: 0 <= i < |s| ==> s[i] == fields[i].size
  {
    seq(|fields|, i requires 0 <= i < |fields| => fields[i].size)
  }

  /**
   * A variant is consistent when its entries add up to its declared size
   * (discriminant reported outside the variant) or, when there is a
   * discriminant, to its declared size plus the discriminant (reported inside).
   */
  predicate VariantFits(v: Variant, discriminantSize: nat): (fits: bool)
    ensures SumSizes(v.entries) == v.size ==> fits
    ensures fits ==> v.size <= SumSizes(v.entries) <= v.size + discriminantSize
    ensures discriminantSize == 0 ==> (fits <==> SumSizes(v.entries) == v.size)
  {
    var actual := SumSizes(v.entries);
    actual == v.size || (discriminantSize > 0 && actual == v.size + discriminantSize)
  }

  /** The early-returning loop over the variants: the index of the first one that does not fit. */
  function FirstMisfit(variants: seq<Variant>, discriminantSize: nat): (r: Option<nat>)
    ensures r.Some? ==> r.value < |variants| && !VariantFits(variants[r.value], discriminantSize)
    ensures r.Some? ==> forall j :: 0 <= j < r.value ==> VariantFits(variants[j], discriminantSize)
    ensures r.None? ==> forall j :: 0 <= j < |variants| ==> VariantFits(variants[j], discriminantSize)
  {
    if variants == [] then None
    else if !VariantFits(variants[0], discriminantSize) then Some(0)
    else
      var rest := FirstMisfit(variants[1..], discriminantSize);
      assert forall j :: 1 <= j < |variants| ==> variants[j] == variants[1..][j - 1];
      match rest
      case None => None
      case Some(k) => Some(k + 1)
  }

  /** `TypeLayout::verify` */
  function Verify(layout: TypeLayout): (r: Outcome)
    ensures r.Err? ==>
              (r.error.StructSizeMismatch? <==> layout.kind.Struct?) &&
              (r.error.UnionSizeMismatch? <==> layout.kind.Union?) &&
              (r.error.VariantSizeMismatch? || r.error.EnumTotalSizeMismatch? <==> layout.kind.Enum?)
    ensures r.Err? && !r.error.VariantSizeMismatch? ==> r.error.expected == layout.size
    ensures r.Err? && r.error.VariantSizeMismatch? ==>
              layout.kind.Enum? &&
              exists k :: 0 <= k < |layout.kind.variants| &&
                          !VariantFits(layout.kind.variants[k], layout.kind.discriminantSize) &&
                          r.error == VariantSizeMismatch(layout.kind.variants[k].name, layout.kind.variants[k].size,
                                                         SumSizes(layout.kind.variants[k].entries))
  {
    match layout.kind
    case Struct(entries) =>
      var calculated := SumSizes(entries);
      if layout.size == calculated then Ok
      else Err(StructSizeMismatch(layout.size, calculated))
    case Enum(discriminantSize, variants) =>
      (match FirstMisfit(variants, discriminantSize)
       case Some(k) =>
         Err(VariantSizeMismatch(variants[k].name, variants[k].size, SumSizes(variants[k].entries)))
       case None =>
         var maxVariant := MaxOrZero(VariantSizes(variants));
         var additive := discriminantSize + maxVariant;
         var niche := Max(discriminantSize, maxVariant);
         if layout.size >= additive || layout.size == niche then Ok
         else Err(EnumTotalSizeMismatch(layout.size, additive)))
    case Union(fields) =>
      var maxField := MaxOrZero(FieldSizes(fields));
      if layout.size == maxField then Ok
      else Err(UnionSizeMismatch(layout.size, maxField))
  }
}
