/**
 * What `Types.Verify` accepts and what it reports, stated against the three
 * composition rules (struct, enum, union) rather than against its body.
 */
module VerifyProperties {
  import opened Types

  /** The entry sum distributes over concatenation. */
  lemma {:induction false} SumSizesAppend(a: seq<StructEntry>, b: seq<StructEntry>)
    ensures SumSizes(a + b) == SumSizes(a) + SumSizes(b)
  {
    if a == [] {
      assert a + b == b;
    } else {
      assert (a + b)[1..] == a[1..] + b;
      SumSizesAppend(a[1..], b);
    }
  }

  /** Removing the entry at `k` takes exactly its size off the sum. */
  lemma SumSizesRemove(s: seq<StructEntry>, k: nat)
    requires k < |s|
    ensures SumSizes(s) == EntrySize(s[k]) + SumSizes(s[..k] + s[k + 1..])
  {
    assert s == s[..k] + s[k..];
    SumSizesAppend(s[..k], s[k..]);
    SumSizesAppend(s[..k], s[k + 1..]);
    assert s[k..][1..] == s[k + 1..];
  }

  /** Removing the entry at `k` removes one occurrence of it from the multiset. */
  lemma MultisetRemove(s: seq<StructEntry>, k: nat)
    requires k < |s|
    ensures multiset(s[..k] + s[k + 1..]) + multiset{s[k]} == multiset(s)
  {
    assert s == s[..k] + [s[k]] + s[k + 1..];
  }

  /** The entry sum does not depend on the order of the entries. */
  lemma {:induction false} SumSizesPermutation(a: seq<StructEntry>, b: seq<StructEntry>)
    requires multiset(a) == multiset(b)
    ensures SumSizes(a) == SumSizes(b)
    decreases |a|
  {
    if a == [] {
      assert |b| == |multiset(b)| == 0;
    } else {
      assert a[0] in multiset(b);
      var k :| 0 <= k < |b| && b[k] == a[0];
      var rest := b[..k] + b[k + 1..];
      MultisetRemove(b, k);
      assert a == [a[0]] + a[1..];
      assert multiset(a[1..]) + multiset{a[0]} == multiset(a);
      assert multiset(a[1..]) == multiset(rest) by {
        forall e ensures multiset(a[1..])[e] == multiset(rest)[e] {
          assert (multiset(a[1..]) + multiset{a[0]})[e] == (multiset(rest) + multiset{a[0]})[e];
        }
      }
      SumSizesPermutation(a[1..], rest);
      SumSizesRemove(b, k);
    }
  }

  /** The maximum is determined by its two defining properties. */
  lemma MaxOrZeroUnique(sizes: seq<nat>, m: nat)
    requires IsMaxOrZero(sizes, m)
    ensures MaxOrZero(sizes) == m
  {
    var r := MaxOrZero(sizes);
    if sizes != [] {
      var i :| 0 <= i < |sizes| && sizes[i] == m;
      var j :| 0 <= j < |sizes| && sizes[j] == r;
      assert sizes[i] <= r && sizes[j] <= m;
    }
  }

  /** Struct rule: accepted exactly when the declared size is the entry sum. */
  lemma VerifyStruct(layout: TypeLayout)
    requires layout.kind.Struct?
    ensures Verify(layout) == Ok <==> layout.size == SumSizes(layout.kind.entries)
    ensures Verify(layout) != Ok ==>
              Verify(layout) == Err(StructSizeMismatch(layout.size, SumSizes(layout.kind.entries)))
  {
  }

  /** Reordering a struct's entries never changes its verdict. */
  lemma VerifyStructOrderIrrelevant(layout: TypeLayout, reordered: seq<StructEntry>)
    requires layout.kind.Struct? && multiset(reordered) == multiset(layout.kind.entries)
    ensures Verify(layout.(kind := Struct(reordered))) == Verify(layout)
  {
    SumSizesPermutation(reordered, layout.kind.entries);
  }

  /**
   * Per-variant rule, seen through a one-variant enum: the variant is
   * rejected exactly when its entry sum is neither its declared size nor,
   * with a nonzero discriminant, its declared size plus the discriminant.
   */
  lemma VerifySingleVariant(layout: TypeLayout)
    requires layout.kind.Enum? && |layout.kind.variants| == 1
    ensures var v, d := layout.kind.variants[0], layout.kind.discriminantSize;
            var actual := SumSizes(v.entries);
            Verify(layout) == Err(VariantSizeMismatch(v.name, v.size, actual)) <==>
              !(actual == v.size || (d > 0 && actual == v.size + d))
  {
  }

  /** The error names the first misfitting variant, with its declared size and entry sum. */
  lemma VerifyReportsFirstMisfit(layout: TypeLayout, k: nat)
    requires layout.kind.Enum? && k < |layout.kind.variants|
    requires !VariantFits(layout.kind.variants[k], layout.kind.discriminantSize)
    requires forall j :: 0 <= j < k ==> VariantFits(layout.kind.variants[j], layout.kind.discriminantSize)
    ensures var v := layout.kind.variants[k];
            Verify(layout) == Err(VariantSizeMismatch(v.name, v.size, SumSizes(v.entries)))
  {
    var r := FirstMisfit(layout.kind.variants, layout.kind.discriminantSize);
    assert r.Some?;
  }

  /** A variant mismatch is reported exactly when some variant does not fit. */
  lemma VerifyVariantMismatchIff(layout: TypeLayout)
    requires layout.kind.Enum?
    ensures (Verify(layout).Err? && Verify(layout).error.VariantSizeMismatch?) <==>
            exists k :: 0 <= k < |layout.kind.variants| &&
                        !VariantFits(layout.kind.variants[k], layout.kind.discriminantSize)
  {
    var r := FirstMisfit(layout.kind.variants, layout.kind.discriminantSize);
    if r.Some? {
      assert !VariantFits(layout.kind.variants[r.value], layout.kind.discriminantSize);
    }
  }

  /**
   * Enum total rule, once every variant fits: with `m` the largest declared
   * variant size (0 without variants) and `d` the discriminant, the layout is
   * accepted exactly when its size is at least `d + m` (discriminant beside
   * the largest variant) or exactly `max(d, m)` (discriminant in a niche).
   */
  lemma VerifyEnumTotal(layout: TypeLayout, m: nat)
    requires layout.kind.Enum?
    requires forall j :: 0 <= j < |layout.kind.variants| ==>
               VariantFits(layout.kind.variants[j], layout.kind.discriminantSize)
    requires IsMaxOrZero(VariantSizes(layout.kind.variants), m)
    ensures var d := layout.kind.discriminantSize;
            Verify(layout) == Ok <==> layout.size >= d + m || layout.size == Max(d, m)
    ensures Verify(layout) != Ok ==>
              Verify(layout) == Err(EnumTotalSizeMismatch(layout.size, layout.kind.discriminantSize + m))
  {
    MaxOrZeroUnique(VariantSizes(layout.kind.variants), m);
  }

  /** An enum with neither variants nor discriminant is accepted at any size. */
  lemma EmptyEnumVerifies(layout: TypeLayout)
    requires layout.kind == Enum(0, [])
    ensures Verify(layout) == Ok
  {
  }

  /** Union rule: accepted exactly when the declared size is the largest field size. */
  lemma VerifyUnion(layout: TypeLayout, m: nat)
    requires layout.kind.Union? && IsMaxOrZero(FieldSizes(layout.kind.fields), m)
    ensures Verify(layout) == Ok <==> layout.size == m
    ensures Verify(layout) != Ok ==> Verify(layout) == Err(UnionSizeMismatch(layout.size, m))
  {
    MaxOrZeroUnique(FieldSizes(layout.kind.fields), m);
  }

  /**
   * The two variant conventions with a 4-byte discriminant: a 12-byte variant
   * may hold 12 or 16 bytes of entries, not 11 or 17; an enum holding one of
   * the latter reports it with its declared size and its entry sum.
   */
  lemma DiscriminantConventionExamples()
    ensures VariantFits(Variant("A", 12, [Padding(12)]), 4)
    ensures VariantFits(Variant("A", 12, [Padding(16)]), 4)
    ensures !VariantFits(Variant("A", 12, [Padding(11)]), 4)
    ensures !VariantFits(Variant("A", 12, [Padding(17)]), 4)
    ensures !VariantFits(Variant("A", 12, [Padding(16)]), 0)
    ensures Verify(TypeLayout("E", 16, 4, Enum(4, [Variant("A", 12, [Padding(11)])]), [], [])) ==
            Err(VariantSizeMismatch("A", 12, 11))
    ensures Verify(TypeLayout("E", 16, 4, Enum(4, [Variant("A", 12, [Padding(17)])]), [], [])) ==
            Err(VariantSizeMismatch("A", 12, 17))
  {
  }

  /**
   * Variants of 8 and 16 bytes with a 4-byte discriminant: 20 bytes pass by
   * the additive rule, 16 bytes by the niche rule, 15 bytes fail.
   */
  lemma EnumTotalExamples(size: nat)
    ensures var layout := TypeLayout("E", size, 4,
                            Enum(4, [Variant("A", 8, [Padding(8)]), Variant("B", 16, [Padding(16)])]), [], []);
            (size == 20 || size == 16 ==> Verify(layout) == Ok) &&
            (size == 15 ==> Verify(layout) == Err(EnumTotalSizeMismatch(15, 20)))
  {
    var vs := [Variant("A", 8, [Padding(8)]), Variant("B", 16, [Padding(16)])];
    assert IsMaxOrZero(VariantSizes(vs), 16) by {
      assert VariantSizes(vs)[1] == 16;
    }
    MaxOrZeroUnique(VariantSizes(vs), 16);
  }
}
