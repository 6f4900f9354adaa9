/** What a layout guarantees: alignment, disjointness and bounds of every field, and room for the tag. */
module LayoutCorrectness {
  import opened Arithmetic
  import opened Layout
  import opened Wrappers

  // ----- arithmetic of alignment -----

  lemma MultipleSum(x: nat, y: nat, a: nat)
    requires a > 0 && x % a == 0 && y % a == 0
    ensures (x + y) % a == 0
  {
    var p, q := x / a, y / a;
    assert x == a * p && y == a * q;
    assert x + y == (p + q) * a;
    MulMod(p + q, a);
  }

  lemma MultipleOfMultiple(x: nat, b: nat, a: nat)
    requires a > 0 && b > 0 && x % b == 0 && b % a == 0
    ensures x % a == 0
  {
    var q, s := x / b, b / a;
    assert x == b * q && b == a * s;
    assert x == (q * s) * a;
    MulMod(q * s, a);
  }

  /** Rounding up gives the least multiple that is not below. */
  lemma AlignToLeast(x: nat, a: nat)
    requires a > 0 && AlignTo(x, a).Some?
    ensures var r := AlignTo(x, a).value; x <= r < x + a && r % a == 0 && r < U64_LIMIT
  {
    var y := x + (a - 1);
    var q := y / a;
    assert y == a * q + y % a;
    MulMod(q, a);
  }

  lemma {:induction false} PowersDivide(a: nat, b: nat)
    requires PowerOfTwo(a) && PowerOfTwo(b) && a <= b
    ensures b % a == 0
  {
    if a > 1 {
      PowersDivide(a / 2, b / 2);
      var k := (b / 2) / (a / 2);
      assert b / 2 == (a / 2) * k;
      assert b == k * a;
      MulMod(k, a);
    }
  }

  // ----- structs and tuples -----

  predicate Powers(ls: seq<Layout>) {
    forall k :: 0 <= k < |ls| ==> PowerOfTwo(ls[k].align)
  }

  /** Each field aligned, below `align`, after the one before it with less padding than it needs, and before `end`. */
  ghost predicate FieldsFit(ls: seq<Layout>, offsets: seq<nat>, align: nat, end: nat) {
    && |offsets| == |ls| && Aligned(ls)
    && (forall k :: 0 <= k < |ls| ==>
        offsets[k] % ls[k].align == 0 && ls[k].align <= align && offsets[k] + ls[k].size <= end)
    && (forall j, k :: 0 <= j < k < |ls| ==> offsets[j] + ls[j].size <= offsets[k])
  }

  lemma {:induction false} PlacedFit(ls: seq<Layout>)
    requires Powers(ls) && Aligned(ls)
    ensures var p := PlaceAll(ls); p.Some? ==> PowerOfTwo(p.value.align)
    ensures var p := PlaceAll(ls);
            p.Some? && p.value.size < U64_MAX ==> FieldsFit(ls, p.value.offsets, p.value.align, p.value.size)
    decreases |ls|
  {
    if ls != [] {
      var most, l := ls[..|ls| - 1], ls[|ls| - 1];
      PlacedFit(most);
      var before := PlaceAll(most);
      if before.Some? && PlaceOne(before.value, l).Some? {
        AlignToLeast(before.value.size, l.align);
        OnePlaced(most, before.value, l);
        assert most + [l] == ls;
      }
    }
  }

  /** A saturated size never comes back below the limit. */
  lemma OnePlaced(most: seq<Layout>, before: Placed, l: Layout)
    requires Powers(most) && PowerOfTwo(l.align) && PowerOfTwo(before.align) && PlaceOne(before, l).Some?
    requires before.size < U64_MAX ==> FieldsFit(most, before.offsets, before.align, before.size)
    requires var r := AlignTo(before.size, l.align).value; before.size <= r && r % l.align == 0
    ensures var p := PlaceOne(before, l).value;
            && PowerOfTwo(p.align)
            && (p.size < U64_MAX ==> FieldsFit(most + [l], p.offsets, p.align, p.size))
  {
  }

  ghost predicate StructFits(ls: seq<Layout>, l: Layout) {
    && l.fields.Arbitrary? && l.align > 0 && l.size % l.align == 0
    && FieldsFit(ls, l.fields.offsets, l.align, l.size)
    && forall k :: 0 <= k < |ls| ==> l.align % ls[k].align == 0
  }

  /** A struct whose size did not saturate has its fields aligned, disjoint and in bounds. */
  lemma StructSound(ls: seq<Layout>, l: Layout)
    requires Powers(ls) && Aligned(ls) && StructOf(ls) == Ok(l)
    ensures PowerOfTwo(l.align)
    ensures l.size < U64_MAX ==> StructFits(ls, l)
  {
    hide PlaceAll;
    PlacedFit(ls);
    var p := PlaceAll(ls).value;
    AlignToLeast(p.size, p.align);
    if l.size < U64_MAX {
      forall k | 0 <= k < |ls|
        ensures l.align % ls[k].align == 0
      {
        PowersDivide(ls[k].align, l.align);
      }
    }
  }

  // ----- arrays -----

  /**
  Elements at multiples of a stride that rounds the element up: each aligned, in bounds and clear of
  the next, in a size that is exact unless it saturates.
  */
  ghost predicate ArrayFits(elem: Layout, count: nat, l: Layout) {
    && elem.align > 0 && l.align == elem.align && l.fields.ArrayOf? && l.fields.count == count
    && var stride := l.fields.stride;
       && stride % elem.align == 0 && elem.size <= stride < elem.size + elem.align
       && (forall i: nat :: ElementFits(elem, stride, i))
       && (stride * count < U64_LIMIT ==>
             && l.size == stride * count && l.size % l.align == 0
             && forall i: nat :: i < count ==> i * stride + elem.size <= l.size)
       && (stride * count >= U64_LIMIT ==> l.size == U64_MAX)
  }

  ghost predicate ElementFits(elem: Layout, stride: nat, i: nat)
    requires elem.align > 0
  {
    (i * stride) % elem.align == 0 && forall j: nat :: i < j ==> i * stride + elem.size <= j * stride
  }

  lemma ArraySound(elem: Layout, count: nat, l: Layout)
    requires elem.align > 0 && ArrayLayout(elem, count) == Ok(l)
    ensures ArrayFits(elem, count, l)
  {
    AlignToLeast(elem.size, elem.align);
    var stride := l.fields.stride;
    forall i: nat
      ensures ElementFits(elem, stride, i)
    {
      ScaledMultiple(stride, i, elem.align);
      forall j: nat | i < j
        ensures i * stride + elem.size <= j * stride
      {
        assert (i + 1) * stride <= j * stride;
      }
    }
    if stride * count < U64_LIMIT {
      ScaledMultiple(stride, count, elem.align);
      forall i: nat | i < count
        ensures i * stride + elem.size <= l.size
      {
        assert (i + 1) * stride <= count * stride;
      }
    }
  }

  lemma ScaledMultiple(x: nat, n: nat, a: nat)
    requires a > 0 && x % a == 0
    ensures (x * n) % a == 0
  {
    assert x * n == (x / a * n) * a;
    MulMod(x / a * n, a);
  }

  /** So the size of an array is a multiple of its alignment unless it saturates at an alignment above one. */
  lemma ArrayMultipleExactly(elem: Layout, count: nat, l: Layout)
    requires PowerOfTwo(elem.align) && elem.align > 0 && ArrayLayout(elem, count) == Ok(l)
    ensures l.size % l.align == 0 <==> l.fields.stride * count < U64_LIMIT || l.align == 1
  {
    ArraySound(elem, count, l);
    if l.fields.stride * count >= U64_LIMIT && l.align > 1 {
      PowersDivide(2, l.align);
      if U64_MAX % l.align == 0 {
        MultipleOfMultiple(U64_MAX, l.align, 2);
      }
    }
  }

  // ----- tags -----

  function Pow2(k: nat): (r: nat)
    ensures r > 0
  {
    if k == 0 then 1 else 2 * Pow2(k - 1)
  }

  lemma {:induction false} BitLengthExact(n: nat, k: nat)
    ensures BitLength(n) <= k <==> n < Pow2(k)
    decreases k
  {
    if k > 0 && n > 0 {
      BitLengthExact(n / 2, k - 1);
    }
  }

  lemma {:induction false} Pow2Adds(a: nat, b: nat)
    ensures Pow2(a + b) == Pow2(a) * Pow2(b)
  {
    if a > 0 {
      Pow2Adds(a - 1, b);
      assert 2 * (Pow2(a - 1) * Pow2(b)) == (2 * Pow2(a - 1)) * Pow2(b);
    }
  }

  lemma Pow2Values()
    ensures Pow2(8) == 256 && Pow2(16) == 65536 && Pow2(24) == 16777216 && Pow2(32) == 0x1_0000_0000
  {
    assert Pow2(8) == 256;
    Pow2Adds(8, 8);
    Pow2Adds(8, 16);
    Pow2Adds(16, 16);
  }

  /** The tag is as wide as its type and wide enough for every variant. */
  lemma TagWide(n: nat)
    requires 1 < n <= 65536
    ensures TagBytes(n) == (if n <= 256 then 1 else 2) && TagTypeBits(n) == 8 * TagBytes(n)
    ensures n - 1 < Pow2(8 * TagBytes(n))
  {
    hide BitLength, Pow2;
    Pow2Values();
    BitLengthExact(n - 1, 8);
    BitLengthExact(n - 1, 16);
    BitLengthExact(n - 1, 0);
    assert Pow2(0) == 1 by {
      PowZero();
    }
  }

  lemma PowZero()
    ensures Pow2(0) == 1
  {
  }

  /** Up to 2^32 variants the number of tag bytes is an alignment unless there are 65537 to 2^24 of them. */
  lemma TagPowerExactly(n: nat)
    requires 1 < n <= 0x1_0000_0000
    ensures PowerOfTwo(TagBytes(n)) <==> !(65536 < n <= 16777216)
    ensures 16777216 < n ==> TagBytes(n) == 4 && TagTypeBits(n) == 32
  {
    hide BitLength, Pow2;
    Pow2Values();
    PowZero();
    BitLengthExact(n - 1, 0);
    BitLengthExact(n - 1, 8);
    BitLengthExact(n - 1, 16);
    BitLengthExact(n - 1, 24);
    BitLengthExact(n - 1, 32);
    assert !PowerOfTwo(3) && PowerOfTwo(4);
  }

  /** With 65537 to 2^24 variants the tag has three bytes, which is no alignment, and there is no layout. */
  lemma TagTooWide(variants: seq<Layout>)
    requires 65536 < |variants| <= 16777216
    ensures TagBytes(|variants|) == 3 && EnumOf(variants) == Err(Overflow)
  {
    hide BitLength, Pow2, MaxAlign, MaxSize;
    Pow2Values();
    BitLengthExact(|variants| - 1, 16);
    BitLengthExact(|variants| - 1, 24);
    assert !PowerOfTwo(3);
  }

  // ----- enums -----

  lemma {:induction false} MaxSizeIs(ls: seq<Layout>, k: nat)
    requires k < |ls|
    ensures ls[k].size <= MaxSize(ls) && ls[k].align <= MaxAlign(ls)
  {
    if k > 0 {
      MaxSizeIs(ls[1..], k - 1);
    }
  }

  /** What holds of an enum: the tag at 0, every variant's data after it, aligned and in bounds. */
  ghost predicate EnumFits(variants: seq<Layout>, l: Layout) {
    && l.variants.Multiple? && l.variants.variants == variants && |variants| > 1
    && l.align > 0 && l.size % l.align == 0
    && l.variants.tagAlign > 0 && l.variants.tagSize <= l.size
    && var start := DataStart(l.variants.tagSize, l.variants.tagAlign, l.align);
       && start.Some? && l.variants.tagSize <= start.value && start.value % l.align == 0
       && (forall v :: 0 <= v < |variants| ==>
             && start.value + variants[v].size <= l.size
             && variants[v].align > 0 && l.align % variants[v].align == 0)
       && l.fields.Arbitrary?
       && l.fields.offsets ==
          [0] + (if variants[0].fields.Arbitrary? then Shift(variants[0].fields.offsets, start.value) else [])
  }

  lemma EnumSound(variants: seq<Layout>, l: Layout)
    requires Powers(variants) && |variants| > 1 && EnumOf(variants) == Ok(l)
    ensures PowerOfTwo(l.align) && EnumFits(variants, l)
    ensures l.align == MaxAlign(variants) && l.variants.tagAlign == TagBytes(|variants|) == l.variants.tagSize
    ensures forall v :: 0 <= v < |variants| ==> variants[v].size < U64_MAX
  {
    hide MaxSize, MaxAlign, TagBytes, PowerOfTwo;
    var tag, align := TagBytes(|variants|), MaxAlign(variants);
    assert tag > 0;
    StartSound(tag, align);
    var start := DataStart(tag, tag, align).value;
    AlignToLeast(MaxSize(variants) + start, align);
    forall v | 0 <= v < |variants|
      ensures start + variants[v].size <= l.size && variants[v].align > 0 && align % variants[v].align == 0
      ensures variants[v].size < U64_MAX
    {
      MaxSizeIs(variants, v);
      PowerPositive(variants[v].align);
      PowersDivide(variants[v].align, align);
    }
  }

  lemma PowerPositive(a: nat)
    requires PowerOfTwo(a)
    ensures a > 0
  {
  }

  lemma StartSound(tag: nat, align: nat)
    requires tag > 0 && align > 0 && DataStart(tag, tag, align).Some?
    ensures var start := DataStart(tag, tag, align).value; tag <= start && start % align == 0 && start > 0
  {
    AlignToLeast(tag, tag);
    AlignToLeast(AlignTo(tag, tag).value, align);
  }

  /** A variant's field, from the start of the enum: past the tag, aligned, in bounds. */
  lemma PayloadSound(variants: seq<Layout>, l: Layout, v: nat, fields: seq<Layout>, k: nat)
    requires Powers(variants) && |variants| > 1 && EnumOf(variants) == Ok(l) && v < |variants|
    requires Powers(fields) && Aligned(fields) && StructOf(fields) == Ok(variants[v]) && k < |fields|
    ensures var start := DataStart(l.variants.tagSize, l.variants.tagAlign, l.align);
            && start.Some? && variants[v].fields.Arbitrary? && k < |variants[v].fields.offsets|
            && var at := start.value + variants[v].fields.offsets[k];
               && l.variants.tagSize <= at && at % fields[k].align == 0 && at + fields[k].size <= l.size
               && l.align % fields[k].align == 0
  {
    hide EnumOf, StructOf, DataStart;
    EnumSound(variants, l);
    StructSound(fields, variants[v]);
    var start := DataStart(l.variants.tagSize, l.variants.tagAlign, l.align).value;
    var offset, a := variants[v].fields.offsets[k], fields[k].align;
    assert l.align % variants[v].align == 0 && variants[v].align % a == 0;
    MultipleOfMultiple(l.align, variants[v].align, a);
    MultipleOfMultiple(start, l.align, a);
    MultipleSum(start, offset, a);
  }

  /** The enum's alignment takes no account of the tag: the tag is aligned exactly when some variant needs as much. */
  lemma TagAlignedExactly(variants: seq<Layout>, l: Layout)
    requires Powers(variants) && |variants| > 1 && EnumOf(variants) == Ok(l)
    ensures l.variants.Multiple? && l.variants.tagAlign > 0
    ensures l.align % l.variants.tagAlign == 0 <==> TagBytes(|variants|) <= MaxAlign(variants)
  {
    hide MaxSize, MaxAlign, TagBytes, PowerOfTwo, DataStart;
    var tag, align := TagBytes(|variants|), MaxAlign(variants);
    assert l.align == align && l.variants.tagAlign == tag;
    if tag <= align {
      PowersDivide(tag, align);
    } else {
      SmallRemainder(align, tag);
    }
  }

  lemma SmallRemainder(x: nat, a: nat)
    requires 0 < x < a
    ensures x % a != 0
  {
    DivUnique(x, a, 0, x);
  }

  lemma {:induction false} UnitVariants(variants: seq<Layout>)
    requires forall k :: 0 <= k < |variants| ==> variants[k] == Unit()
    ensures MaxSize(variants) == 0 && MaxAlign(variants) == 1
  {
    if variants != [] {
      UnitVariants(variants[1..]);
    }
  }

  /** With more than 256 variants and no data, a two-byte tag gets alignment 1. */
  lemma TagUnderaligned(variants: seq<Layout>)
    requires 256 < |variants| <= 65536 && forall k :: 0 <= k < |variants| ==> variants[k] == Unit()
    ensures EnumOf(variants).Ok?
    ensures var l := EnumOf(variants).value;
            l.variants.Multiple? && l.variants.tagAlign == 2 && l.align == 1 && l.size == 2
  {
    hide MaxSize, MaxAlign, TagBytes;
    UnitVariants(variants);
    TagWide(|variants|);
  }

  /** An enum without data has a layout exactly when its tag has; past 2^24 variants it has one again. */
  lemma UnitEnumExactly(variants: seq<Layout>)
    requires 1 < |variants| <= 0x1_0000_0000 && forall k :: 0 <= k < |variants| ==> variants[k] == Unit()
    ensures EnumOf(variants).Ok? <==> !(65536 < |variants| <= 16777216)
  {
    hide MaxSize, MaxAlign, TagBytes;
    UnitVariants(variants);
    TagPowerExactly(|variants|);
    TagAtMostFour(|variants|);
  }

  lemma TagAtMostFour(n: nat)
    requires 1 < n <= 0x1_0000_0000
    ensures 1 <= TagBytes(n) <= 4
  {
    hide BitLength, Pow2;
    Pow2Values();
    PowZero();
    BitLengthExact(n - 1, 0);
    BitLengthExact(n - 1, 32);
  }

  // ----- every type -----

  /** The scalars' alignments are powers of two. */
  predicate ScalarsGood(t: Ty)
    decreases t, 1
  {
    match t
    case Scalar(_, align) => PowerOfTwo(align)
    case NoLayout => true
    case Tuple(fields) => AllGood(fields)
    case Struct(fields) => AllGood(fields)
    case Array(elem, _) => ScalarsGood(elem)
    case Enum(variants) => VariantsGood(variants)
  }

  predicate AllGood(ts: seq<Ty>)
    decreases ts, 0
  {
    ts == [] || (ScalarsGood(ts[0]) && AllGood(ts[1..]))
  }

  predicate VariantsGood(vs: seq<Variant>)
    decreases vs, 1
  {
    vs == [] || (AllGood(vs[0].fields) && VariantsGood(vs[1..]))
  }

  /** The guarantees of a type's layout, by what kind of type it is. */
  ghost predicate WellLaid(t: Ty, l: Layout) {
    && PowerOfTwo(l.align)
    && match t
       case Scalar(_, _) => true
       case NoLayout => false
       case Tuple(fields) => FieldsLaid(fields, l)
       case Struct(fields) => FieldsLaid(fields, l)
       case Array(elem, length) =>
         && length.Some? && LayoutOf(elem).Ok? && ArrayFits(LayoutOf(elem).value, CountOf(length.value), l)
       case Enum(variants) =>
         && |variants| > 0
         && if |variants| == 1 then FieldsLaid(variants[0].fields, l) else EnumLaid(variants, l)
  }

  /** Every variant's data and, within it, every field. */
  ghost predicate EnumLaid(variants: seq<Variant>, l: Layout) {
    && VariantLayouts(variants).Ok? && EnumFits(VariantLayouts(variants).value, l) && VariantsLaid(variants, l)
  }

  /** Every field of every variant, from the start of the enum. */
  ghost predicate VariantsLaid(variants: seq<Variant>, l: Layout) {
    && l.variants.Multiple? && |l.variants.variants| == |variants| && l.variants.tagAlign > 0 && l.align > 0
    && var start := DataStart(l.variants.tagSize, l.variants.tagAlign, l.align);
       && start.Some?
       && (forall v :: 0 <= v < |variants| ==>
             && LayoutsOf(variants[v].fields).Ok? && Powers(LayoutsOf(variants[v].fields).value)
             && PayloadFits(LayoutsOf(variants[v].fields).value, l.variants.variants[v], start.value, l))
  }

  /** Past the tag, aligned, in bounds, and clear of the fields after it. */
  ghost predicate PayloadFits(fields: seq<Layout>, variant: Layout, start: nat, l: Layout) {
    && l.variants.Multiple? && Aligned(fields) && variant.fields.Arbitrary? && |variant.fields.offsets| == |fields|
    && (forall k :: 0 <= k < |fields| ==>
          var at := start + variant.fields.offsets[k];
          && l.variants.tagSize <= at && at % fields[k].align == 0 && at + fields[k].size <= l.size
          && l.align % fields[k].align == 0)
    && (forall j, k :: 0 <= j < k < |fields| ==>
          start + variant.fields.offsets[j] + fields[j].size <= start + variant.fields.offsets[k])
  }

  ghost predicate FieldsLaid(ts: seq<Ty>, l: Layout) {
    && LayoutsOf(ts).Ok? && Powers(LayoutsOf(ts).value)
    && (l.size < U64_MAX ==> StructFits(LayoutsOf(ts).value, l))
  }

  lemma {:induction false} LayoutSound(t: Ty)
    requires ScalarsGood(t) && LayoutOf(t).Ok?
    ensures WellLaid(t, LayoutOf(t).value)
    decreases t, 2
  {
    hide StructOf, EnumOf, StructFits, EnumFits;
    match t
    case Scalar(_, _) =>
    case NoLayout => assert false;
    case Tuple(fields) => FieldsSound(fields);
    case Struct(fields) => FieldsSound(fields);
    case Array(elem, length) =>
      LayoutSound(elem);
      ArraySound(LayoutOf(elem).value, CountOf(length.value), LayoutOf(t).value);
    case Enum(variants) =>
      if |variants| == 1 {
        FieldsSound(variants[0].fields);
      } else {
        VariantsPower(variants);
        EnumSound(VariantLayouts(variants).value, LayoutOf(t).value);
        PayloadsSound(variants, LayoutOf(t).value);
      }
  }

  lemma {:induction false} PayloadsSound(variants: seq<Variant>, l: Layout)
    requires VariantsGood(variants) && VariantLayouts(variants).Ok? && |variants| > 1
    requires Powers(VariantLayouts(variants).value) && EnumOf(VariantLayouts(variants).value) == Ok(l)
    ensures VariantsLaid(variants, l)
    decreases variants, 2
  {
    hide EnumOf, StructOf, VariantLayouts, LayoutsOf, DataStart, PayloadFits;
    var vs := VariantLayouts(variants).value;
    EnumSound(vs, l);
    forall v | 0 <= v < |variants|
      ensures LayoutsOf(variants[v].fields).Ok? && Powers(LayoutsOf(variants[v].fields).value)
      ensures PayloadFits(LayoutsOf(variants[v].fields).value, vs[v],
                          DataStart(l.variants.tagSize, l.variants.tagAlign, l.align).value, l)
    {
      VariantGood(variants, v);
      AllPower(variants[v].fields);
      PayloadFitsFrom(vs, l, v, LayoutsOf(variants[v].fields).value);
    }
  }

  lemma {:induction false} VariantGood(vs: seq<Variant>, v: nat)
    requires VariantsGood(vs) && VariantLayouts(vs).Ok? && v < |vs|
    ensures AllGood(vs[v].fields) && LayoutsOf(vs[v].fields).Ok?
    ensures StructOf(LayoutsOf(vs[v].fields).value) == Ok(VariantLayouts(vs).value[v])
  {
    hide LayoutsOf, StructOf;
    if v > 0 {
      VariantGood(vs[1..], v - 1);
    }
  }

  lemma PayloadFitsFrom(variants: seq<Layout>, l: Layout, v: nat, fields: seq<Layout>)
    requires Powers(variants) && |variants| > 1 && EnumOf(variants) == Ok(l) && v < |variants|
    requires Powers(fields) && Aligned(fields) && StructOf(fields) == Ok(variants[v])
    ensures l.variants.Multiple? && l.variants.tagAlign > 0 && l.align > 0
    ensures var start := DataStart(l.variants.tagSize, l.variants.tagAlign, l.align);
            start.Some? && PayloadFits(fields, variants[v], start.value, l)
  {
    hide EnumOf, StructOf, DataStart;
    EnumSound(variants, l);
    StructSound(fields, variants[v]);
    forall k | 0 <= k < |fields| {
      PayloadSound(variants, l, v, fields, k);
    }
  }

  lemma {:induction false} AllPower(ts: seq<Ty>)
    requires AllGood(ts) && LayoutsOf(ts).Ok?
    ensures Powers(LayoutsOf(ts).value)
    decreases ts, 0
  {
    hide LayoutOf;
    if ts != [] {
      LayoutSound(ts[0]);
      AllPower(ts[1..]);
    }
  }

  lemma {:induction false} FieldsSound(ts: seq<Ty>)
    requires AllGood(ts) && FieldsLayout(ts).Ok?
    ensures PowerOfTwo(FieldsLayout(ts).value.align) && FieldsLaid(ts, FieldsLayout(ts).value)
    decreases ts, 1
  {
    hide StructOf, LayoutsOf;
    AllPower(ts);
    var ls := LayoutsOf(ts).value;
    if ls != [] {
      StructSound(ls, FieldsLayout(ts).value);
    }
  }

  lemma {:induction false} VariantsPower(vs: seq<Variant>)
    requires VariantsGood(vs) && VariantLayouts(vs).Ok?
    ensures Powers(VariantLayouts(vs).value)
    decreases vs, 1
  {
    hide StructOf, LayoutsOf;
    if vs != [] {
      AllPower(vs[0].fields);
      StructSound(LayoutsOf(vs[0].fields).value, StructOf(LayoutsOf(vs[0].fields).value).value);
      VariantsPower(vs[1..]);
    }
  }
}
