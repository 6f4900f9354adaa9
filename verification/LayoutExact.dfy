/** No padding beyond what alignment needs: the layout of a struct or enum is the tightest there is. */
module LayoutExact {
  import opened Arithmetic
  import opened Layout
  import opened Wrappers
  import C = LayoutCorrectness

  /** Where field k may start at the earliest: at the end of the one before. */
  function EndOf(ls: seq<Layout>, offsets: seq<nat>, k: nat): nat
    requires k <= |ls| == |offsets|
  {
    if k == 0 then 0 else offsets[k - 1] + ls[k - 1].size
  }

  /** The first multiple of a from x on. */
  predicate First(x: nat, a: nat, r: nat) {
    a > 0 && r % a == 0 && x <= r < x + a
  }

  /** Every field at the first aligned place after the one before it. */
  predicate Tight(ls: seq<Layout>, offsets: seq<nat>) {
    |ls| == |offsets| && forall k :: 0 <= k < |ls| ==> First(EndOf(ls, offsets, k), ls[k].align, offsets[k])
  }

  /** The largest alignment of any; 1 without any. */
  ghost predicate Strictest(ls: seq<Layout>, align: nat) {
    && (forall k :: 0 <= k < |ls| ==> ls[k].align <= align)
    && (align == 1 || exists k :: 0 <= k < |ls| && ls[k].align == align)
  }

  /** The largest size of any; 0 without any. */
  ghost predicate Widest(ls: seq<Layout>, size: nat) {
    && (forall k :: 0 <= k < |ls| ==> ls[k].size <= size)
    && (size == 0 || exists k :: 0 <= k < |ls| && ls[k].size == size)
  }

  lemma FirstOnly(x: nat, a: nat, r: nat, s: nat)
    requires First(x, a, r) && First(x, a, s)
    ensures r == s
  {
    var q, p := r / a, s / a;
    assert r == a * q && s == a * p;
    assert r - s == a * (q - p);
    OnlyZero(a, q - p);
  }

  lemma {:induction false} AtLeast(a: nat, k: nat)
    requires k > 0
    ensures a * k >= a
  {
    if k > 1 {
      AtLeast(a, k - 1);
      assert a * k == a * (k - 1) + a;
    }
  }

  lemma OnlyZero(a: nat, k: int)
    ensures 0 - a < a * k < a ==> k == 0
  {
    if k > 0 {
      AtLeast(a, k);
    } else if k < 0 {
      AtLeast(a, -k);
      assert a * k == -(a * -k);
    }
  }

  lemma RoundedIsFirst(x: nat, a: nat)
    requires a > 0
    ensures AlignTo(x, a).Some? <==> x + (a - 1) < U64_LIMIT
    ensures AlignTo(x, a).Some? ==> First(x, a, AlignTo(x, a).value)
  {
    if AlignTo(x, a).Some? {
      C.AlignToLeast(x, a);
    }
  }

  // ----- structs -----

  lemma {:induction false} PlacedTight(ls: seq<Layout>)
    requires Aligned(ls)
    ensures var p := PlaceAll(ls);
            p.Some? && p.value.size < U64_MAX ==>
              && Tight(ls, p.value.offsets) && EndOf(ls, p.value.offsets, |ls|) == p.value.size
              && Strictest(ls, p.value.align) && p.value.align > 0
    decreases |ls|
  {
    hide First;
    if ls != [] {
      var most, l := ls[..|ls| - 1], ls[|ls| - 1];
      PlacedTight(most);
      var before := PlaceAll(most);
      if before.Some? {
        RoundedIsFirst(before.value.size, l.align);
        StaysFull(before.value, l);
        var p := PlaceOne(before.value, l);
        if p.Some? && p.value.size < U64_MAX {
          OneMoreTight(most, before.value, l);
          assert most + [l] == ls;
        }
      }
    }
  }

  lemma StaysFull(before: Placed, l: Layout)
    requires l.align > 0
    ensures before.size >= U64_MAX && PlaceOne(before, l).Some? ==> PlaceOne(before, l).value.size >= U64_MAX
  {
    RoundedIsFirst(before.size, l.align);
  }

  lemma OneMoreTight(most: seq<Layout>, before: Placed, l: Layout)
    requires Tight(most, before.offsets) && EndOf(most, before.offsets, |most|) == before.size
    requires Strictest(most, before.align) && before.align > 0
    requires l.align > 0 && PlaceOne(before, l).Some? && PlaceOne(before, l).value.size < U64_MAX
    requires First(before.size, l.align, AlignTo(before.size, l.align).value)
    ensures var p, ls := PlaceOne(before, l).value, most + [l];
            && Tight(ls, p.offsets) && EndOf(ls, p.offsets, |ls|) == p.size && Strictest(ls, p.align) && p.align > 0
  {
    hide First, AlignTo;
    var p, ls := PlaceOne(before, l).value, most + [l];
    forall k | 0 <= k < |ls|
      ensures First(EndOf(ls, p.offsets, k), ls[k].align, p.offsets[k])
    {
      assert EndOf(ls, p.offsets, k) == EndOf(most, before.offsets, k);
    }
    assert ls[|most|] == l;
    if k :| 0 <= k < |most| && most[k].align == before.align {
      assert ls[k].align == before.align;
    }
  }

  /** A struct whose size does not saturate is as tight as alignment lets it be. */
  lemma StructTight(ls: seq<Layout>, l: Layout)
    requires Aligned(ls) && StructOf(ls) == Ok(l) && l.size < U64_MAX
    ensures l.fields.Arbitrary? && l.variants.Single? && Tight(ls, l.fields.offsets) && Strictest(ls, l.align)
    ensures First(EndOf(ls, l.fields.offsets, |ls|), l.align, l.size)
  {
    hide PlaceAll, First, Tight, Strictest;
    PlacedTight(ls);
    var p := PlaceAll(ls).value;
    RoundedIsFirst(p.size, p.align);
    Grows(p.size, p.align, l.size);
  }

  lemma Grows(x: nat, a: nat, r: nat)
    ensures First(x, a, r) ==> x <= r
  {
  }

  /** Room to round up in 64 bits wherever rounding happens. */
  predicate Room(ls: seq<Layout>, offsets: seq<nat>, align: nat)
    requires |ls| == |offsets|
  {
    && (forall k :: 0 <= k < |ls| ==> EndOf(ls, offsets, k) + ls[k].align <= U64_LIMIT)
    && EndOf(ls, offsets, |ls|) + align <= U64_LIMIT
  }

  lemma {:induction false} PlacedWithRoom(ls: seq<Layout>, offsets: seq<nat>)
    requires Tight(ls, offsets) && Aligned(ls) && EndOf(ls, offsets, |ls|) < U64_LIMIT
    requires forall k :: 0 <= k < |ls| ==> EndOf(ls, offsets, k) + ls[k].align <= U64_LIMIT
    ensures PlaceAll(ls).Some? && PlaceAll(ls).value.offsets == offsets
    ensures PlaceAll(ls).value.size == EndOf(ls, offsets, |ls|) && Strictest(ls, PlaceAll(ls).value.align)
    decreases |ls|
  {
    hide First, AlignTo, Strictest;
    if ls == [] {
      NoneStrictest();
    } else {
      var n := |ls| - 1;
      FrontTight(ls, offsets);
      PlacedWithRoom(ls[..n], offsets[..n]);
      var before, l := PlaceAll(ls[..n]).value, ls[n];
      RoundedIsFirst(before.size, l.align);
      FirstOnly(before.size, l.align, AlignTo(before.size, l.align).value, offsets[n]);
      assert offsets[..n] + [offsets[n]] == offsets;
      Stricter(ls, before.align);
    }
  }

  lemma NoneStrictest()
    ensures Strictest([], 1)
  {
  }

  lemma FrontTight(ls: seq<Layout>, offsets: seq<nat>)
    requires Tight(ls, offsets) && ls != []
    ensures var n := |ls| - 1;
            && Tight(ls[..n], offsets[..n]) && First(EndOf(ls[..n], offsets[..n], n), ls[n].align, offsets[n])
            && (forall k :: 0 <= k <= n ==> EndOf(ls[..n], offsets[..n], k) == EndOf(ls, offsets, k))
  {
    hide First;
    var n := |ls| - 1;
    assert forall k :: 0 <= k <= n ==> EndOf(ls[..n], offsets[..n], k) == EndOf(ls, offsets, k);
  }

  lemma Stricter(ls: seq<Layout>, align: nat)
    requires ls != [] && Strictest(ls[..|ls| - 1], align)
    ensures Strictest(ls, Max(align, ls[|ls| - 1].align))
  {
    var most := ls[..|ls| - 1];
    if k :| 0 <= k < |most| && most[k].align == align {
      assert ls[k].align == align;
    }
  }

  lemma StrictestOnly(ls: seq<Layout>, a: nat, b: nat)
    requires Strictest(ls, a) && Strictest(ls, b) && Aligned(ls) && a > 0 && b > 0
    ensures a == b
  {
    if ls != [] {
      assert ls[0].align > 0;
    }
  }

  /** With room to round up, that is the layout: nothing else makes it fail. */
  lemma StructLaid(ls: seq<Layout>, offsets: seq<nat>, align: nat, size: nat)
    requires Aligned(ls) && Tight(ls, offsets) && Strictest(ls, align) && align > 0
    requires Room(ls, offsets, align) && First(EndOf(ls, offsets, |ls|), align, size)
    ensures StructOf(ls) == Ok(Layout(size, align, Arbitrary(offsets), Single))
  {
    hide PlaceAll, First, Tight, Strictest, AlignTo;
    PlacedWithRoom(ls, offsets);
    PlacedPositive(ls);
    var p := PlaceAll(ls).value;
    StrictestOnly(ls, align, p.align);
    RoundedIsFirst(p.size, align);
    FirstOnly(p.size, align, AlignTo(p.size, align).value, size);
  }

  lemma {:induction false} PlacedPositive(ls: seq<Layout>)
    requires Aligned(ls)
    ensures PlaceAll(ls).Some? ==> PlaceAll(ls).value.align > 0
    decreases |ls|
  {
    hide AlignTo;
    if ls != [] {
      PlacedPositive(ls[..|ls| - 1]);
    }
  }

  // ----- enums -----

  lemma {:induction false} MaxAttained(ls: seq<Layout>)
    requires Aligned(ls)
    ensures Strictest(ls, MaxAlign(ls)) && Widest(ls, MaxSize(ls))
  {
    if ls != [] {
      MaxAttained(ls[1..]);
      var a, s := MaxAlign(ls[1..]), MaxSize(ls[1..]);
      if k :| 0 <= k < |ls| - 1 && ls[1..][k].align == a {
        assert ls[k + 1].align == a;
      }
      if k :| 0 <= k < |ls| - 1 && ls[1..][k].size == s {
        assert ls[k + 1].size == s;
      }
      assert forall k :: 0 < k < |ls| ==> ls[k] == ls[1..][k - 1];
    }
  }

  /** The fewest bytes that number the variants from 0. */
  ghost predicate FewestBytes(variants: nat, bytes: nat) {
    variants - 1 < C.Pow2(8 * bytes) && (bytes > 0 ==> variants - 1 >= C.Pow2(8 * (bytes - 1)))
  }

  lemma TagFewest(n: nat)
    requires n > 1
    ensures FewestBytes(n, TagBytes(n))
  {
    hide BitLength, C.Pow2;
    var bits := BitLength(n - 1);
    C.BitLengthExact(n - 1, 8 * TagBytes(n));
    if TagBytes(n) > 0 {
      C.BitLengthExact(n - 1, 8 * (TagBytes(n) - 1));
    }
  }

  /**
  The tag in the fewest bytes that number the variants, then the largest variant at the first place past the
  tag that suits them all.
  */
  ghost predicate EnumIsTight(variants: seq<Layout>, l: Layout, start: nat, size: nat) {
    && l.variants.Multiple? && l.variants.tagAlign == l.variants.tagSize && FewestBytes(|variants|, l.variants.tagSize)
    && Strictest(variants, l.align) && Widest(variants, size)
    && First(l.variants.tagSize, l.align, start) && First(start + size, l.align, l.size)
    && l.variants.variants == variants && l.fields.Arbitrary? && FirstVariantAt(variants, l.fields.offsets, start)
  }

  /** The tag at 0, then the fields of the first variant. */
  ghost predicate FirstVariantAt(variants: seq<Layout>, offsets: seq<nat>, start: nat) {
    && |variants| > 0
    && var first := if variants[0].fields.Arbitrary? then variants[0].fields.offsets else [];
       && |offsets| == 1 + |first| && offsets[0] == 0
       && forall k :: 0 <= k < |first| && start + first[k] < U64_LIMIT ==> offsets[k + 1] == start + first[k]
  }

  lemma EnumTight(variants: seq<Layout>, l: Layout)
    requires Aligned(variants) && |variants| > 1 && EnumOf(variants) == Ok(l)
    ensures exists start, size :: EnumIsTight(variants, l, start, size)
  {
    hide MaxSize, MaxAlign, TagBytes, PowerOfTwo, FewestBytes, First, Strictest, Widest, AlignTo;
    var tag, align, size := TagBytes(|variants|), MaxAlign(variants), MaxSize(variants);
    TagFewest(|variants|);
    MaxAttained(variants);
    RoundedIsFirst(tag, tag);
    Itself(tag);
    FirstOnly(tag, tag, AlignTo(tag, tag).value, tag);
    RoundedIsFirst(tag, align);
    var start := AlignTo(tag, align).value;
    RoundedIsFirst(size + start, align);
    assert EnumIsTight(variants, l, start, size);
  }

  lemma Itself(a: nat)
    ensures a > 0 ==> First(a, a, a)
  {
  }

  /** With room to round up an enum has a layout if and only if the bytes of its tag are an alignment. */
  lemma EnumLaid(variants: seq<Layout>, align: nat, size: nat)
    requires Aligned(variants) && |variants| > 1 && C.Powers(variants)
    requires Strictest(variants, align) && Widest(variants, size) && align > 0
    requires 2 * TagBytes(|variants|) + size + 2 * align < U64_LIMIT
    ensures EnumOf(variants).Ok? <==> PowerOfTwo(TagBytes(|variants|))
  {
    hide MaxSize, MaxAlign, TagBytes, AlignTo, Strictest, Widest;
    var tag := TagBytes(|variants|);
    MaxAttained(variants);
    StrictestOnly(variants, align, MaxAlign(variants));
    WidestOnly(variants, size, MaxSize(variants));
    PowerStrictest(variants, align);
    if PowerOfTwo(tag) {
      RoundedIsFirst(tag, tag);
      Itself(tag);
      FirstOnly(tag, tag, AlignTo(tag, tag).value, tag);
      RoundedIsFirst(tag, align);
      RoundedIsFirst(size + AlignTo(tag, align).value, align);
    }
  }

  lemma WidestOnly(ls: seq<Layout>, a: nat, b: nat)
    requires Widest(ls, a) && Widest(ls, b)
    ensures a == b
  {
  }

  lemma PowerStrictest(ls: seq<Layout>, align: nat)
    requires Strictest(ls, align) && C.Powers(ls)
    ensures PowerOfTwo(align)
  {
  }

  // ----- every type -----

  /** A tuple, a struct or one variant, unless its size saturates. */
  ghost predicate OfFields(ls: seq<Layout>, l: Layout) {
    && l.fields.Arbitrary? && l.variants.Single?
    && (l.size < U64_MAX ==>
          && Tight(ls, l.fields.offsets) && Strictest(ls, l.align)
          && First(EndOf(ls, l.fields.offsets, |ls|), l.align, l.size))
  }

  /** The length counts modulo 2^64; the size saturates. */
  ghost predicate OfElements(e: Layout, n: int, l: Layout) {
    && l.fields.ArrayOf? && l.variants.Single? && l.align == e.align
    && var stride, count := l.fields.stride, l.fields.count;
       && First(e.size, e.align, stride) && count < U64_LIMIT && (n - count) % U64_LIMIT == 0
       && l.size == if stride * count < U64_LIMIT then stride * count else U64_MAX
  }

  /** The layout a type should have, from those of its parts. */
  ghost predicate Laid(t: Ty, l: Layout)
    decreases t
  {
    match t
    case Scalar(size, align) => align > 0 && l == Layout(size, align, Primitive, Single)
    case NoLayout => false
    case Tuple(fields) => exists ls :: AllLaid(fields, ls) && OfFields(ls, l)
    case Struct(fields) => exists ls :: AllLaid(fields, ls) && OfFields(ls, l)
    case Array(elem, length) => length.Some? && exists e :: Laid(elem, e) && OfElements(e, length.value, l)
    case Enum(variants) =>
      && |variants| > 0
      && exists vs :: VariantsLaid(variants, vs) && if |vs| == 1 then l == vs[0] else OfVariants(vs, l)
  }

  ghost predicate OfVariants(vs: seq<Layout>, l: Layout) {
    exists start, size :: EnumIsTight(vs, l, start, size)
  }

  ghost predicate AllLaid(ts: seq<Ty>, ls: seq<Layout>)
    decreases ts
  {
    |ts| == |ls| && forall k :: 0 <= k < |ts| ==> Laid(ts[k], ls[k])
  }

  ghost predicate VariantsLaid(variants: seq<Variant>, vs: seq<Layout>)
    decreases variants
  {
    |variants| == |vs| && forall k :: 0 <= k < |vs| ==> VariantLaid(variants[k], vs[k])
  }

  ghost predicate VariantLaid(v: Variant, l: Layout)
    decreases v
  {
    exists ls :: AllLaid(v.fields, ls) && OfFields(ls, l)
  }

  /** Every layout that is computed is the one its type should have. */
  lemma {:induction false} LayoutIs(t: Ty)
    ensures LayoutOf(t).Ok? ==> Laid(t, LayoutOf(t).value)
    decreases t, 2
  {
    hide OfFields, OfElements, OfVariants, AllLaid, VariantsLaid;
    if LayoutOf(t).Ok? {
      match t
      case Scalar(_, _) =>
      case NoLayout => assert false;
      case Tuple(fields) => FieldsAre(fields);
      case Struct(fields) => FieldsAre(fields);
      case Array(elem, length) =>
        LayoutIs(elem);
        ElementsAre(LayoutOf(elem).value, length.value, LayoutOf(t).value);
      case Enum(variants) =>
        EnumIs(variants);
    }
  }

  lemma ElementsAre(e: Layout, n: int, l: Layout)
    requires e.align > 0 && ArrayLayout(e, CountOf(n)) == Ok(l)
    ensures OfElements(e, n, l)
  {
    hide First, AlignTo;
    RoundedIsFirst(e.size, e.align);
    Whole(n, U64_LIMIT);
  }

  lemma Whole(n: int, d: nat)
    requires d > 0
    ensures (n - n % d) % d == 0
  {
    var q := n / d;
    assert n - n % d == d * q;
    MulMod(q, d);
  }

  lemma {:induction false} FieldsAre(ts: seq<Ty>)
    ensures FieldsLayout(ts).Ok? ==>
              LayoutsOf(ts).Ok? && AllLaid(ts, LayoutsOf(ts).value)
                && OfFields(LayoutsOf(ts).value, FieldsLayout(ts).value)
    decreases ts, 1
  {
    hide StructOf, AllLaid, LayoutsOf;
    if FieldsLayout(ts).Ok? {
      PartsAre(ts);
      FieldsOf(LayoutsOf(ts).value, FieldsLayout(ts).value);
    }
  }

  lemma FieldsOf(ls: seq<Layout>, l: Layout)
    requires Aligned(ls) && (StructOf(ls) == Ok(l) || (ls == [] && l == Unit()))
    ensures OfFields(ls, l)
  {
    hide StructOf, Tight, Strictest;
    if ls == [] && l == Unit() {
      Nothing();
    } else if l.size < U64_MAX {
      StructTight(ls, l);
    } else {
      StructShape(ls);
    }
  }

  lemma StructShape(ls: seq<Layout>)
    requires Aligned(ls)
    ensures StructOf(ls).Ok? ==> StructOf(ls).value.fields.Arbitrary? && StructOf(ls).value.variants.Single?
  {
    hide PlaceAll, AlignTo;
  }

  lemma Nothing()
    ensures Tight([], []) && Strictest([], 1)
  {
  }

  lemma {:induction false} PartsAre(ts: seq<Ty>)
    ensures LayoutsOf(ts).Ok? ==> AllLaid(ts, LayoutsOf(ts).value)
    decreases ts, 0
  {
    hide LayoutOf, Laid;
    if ts != [] && LayoutsOf(ts).Ok? {
      LayoutIs(ts[0]);
      PartsAre(ts[1..]);
      var ls := LayoutsOf(ts).value;
      assert forall k :: 0 < k < |ts| ==> ts[k] == ts[1..][k - 1] && ls[k] == ls[1..][k - 1];
    }
  }

  lemma {:induction false} EnumIs(variants: seq<Variant>)
    ensures LayoutOf(Enum(variants)).Ok? ==> Laid(Enum(variants), LayoutOf(Enum(variants)).value)
    decreases variants, 1
  {
    hide EnumOf, FieldsLayout, VariantLayouts, OfFields, AllLaid, EnumIsTight, VariantsLaid;
    var r := LayoutOf(Enum(variants));
    if r.Ok? {
      if |variants| == 1 {
        FieldsAre(variants[0].fields);
        OneVariant(variants[0], r.value);
        assert VariantsLaid([variants[0]], [r.value]) && variants == [variants[0]];
      } else {
        VariantsAre(variants);
        EnumTight(VariantLayouts(variants).value, r.value);
      }
    }
  }

  lemma OneVariant(v: Variant, l: Layout)
    requires LayoutsOf(v.fields).Ok? && AllLaid(v.fields, LayoutsOf(v.fields).value)
    requires OfFields(LayoutsOf(v.fields).value, l)
    ensures VariantsLaid([v], [l])
  {
    hide OfFields, AllLaid;
    assert VariantLaid(v, l);
  }

  lemma {:induction false} VariantsAre(variants: seq<Variant>)
    ensures VariantLayouts(variants).Ok? ==>
              VariantsLaid(variants, VariantLayouts(variants).value) && Aligned(VariantLayouts(variants).value)
    decreases variants, 0
  {
    hide OfFields, AllLaid, LayoutsOf, StructOf;
    if variants != [] && VariantLayouts(variants).Ok? {
      var fields, vs := variants[0].fields, VariantLayouts(variants).value;
      PartsAre(fields);
      FieldsOf(LayoutsOf(fields).value, vs[0]);
      assert VariantLaid(variants[0], vs[0]);
      StructPositive(LayoutsOf(fields).value);
      VariantsAre(variants[1..]);
      assert forall k :: 0 < k < |vs| ==> variants[k] == variants[1..][k - 1] && vs[k] == vs[1..][k - 1];
    }
  }

  lemma StructPositive(ls: seq<Layout>)
    requires Aligned(ls)
    ensures StructOf(ls).Ok? ==> StructOf(ls).value.align > 0
  {
    PlacedPositive(ls);
  }

  /** Types whose every part has a layout of its own. */
  predicate Known(t: Ty)
    decreases t
  {
    match t
    case Scalar(_, align) => align > 0
    case NoLayout => false
    case Tuple(fields) => AllKnown(fields)
    case Struct(fields) => AllKnown(fields)
    case Array(elem, length) => length.Some? && Known(elem)
    case Enum(variants) => |variants| > 0 && VariantsKnown(variants)
  }

  predicate AllKnown(ts: seq<Ty>)
    decreases ts
  {
    forall k :: 0 <= k < |ts| ==> Known(ts[k])
  }

  predicate VariantsKnown(vs: seq<Variant>)
    decreases vs
  {
    forall k :: 0 <= k < |vs| ==> VariantKnown(vs[k])
  }

  predicate VariantKnown(v: Variant)
    decreases v
  {
    AllKnown(v.fields)
  }

  /** A layout is unknown only for want of a part's; what else fails is arithmetic. */
  lemma {:induction false} UnknownExactly(t: Ty)
    ensures LayoutOf(t).Ok? ==> Known(t)
    ensures Known(t) ==> LayoutOf(t) != Err(Unknown)
    decreases t, 3
  {
    hide FieldsLayout, VariantLayouts, AllKnown, VariantsKnown, PowerOfTwo, MaxSize, MaxAlign, TagBytes, DataStart;
    match t
    case Scalar(_, _) =>
    case NoLayout =>
    case Tuple(fields) => UnknownFields(fields);
    case Struct(fields) => UnknownFields(fields);
    case Array(elem, _) => UnknownExactly(elem);
    case Enum(variants) =>
      if |variants| == 1 {
        UnknownFields(variants[0].fields);
        OnlyVariant(variants);
      } else {
        UnknownVariants(variants);
      }
  }

  lemma OnlyVariant(vs: seq<Variant>)
    requires |vs| == 1
    ensures VariantsKnown(vs) <==> AllKnown(vs[0].fields)
  {
    hide AllKnown;
  }

  lemma {:induction false} UnknownFields(ts: seq<Ty>)
    ensures FieldsLayout(ts).Ok? ==> AllKnown(ts)
    ensures AllKnown(ts) ==> FieldsLayout(ts) != Err(Unknown)
    decreases ts, 2
  {
    hide LayoutsOf, StructOf, AllKnown;
    UnknownParts(ts);
    StructOverflows(ts);
  }

  lemma {:induction false} UnknownParts(ts: seq<Ty>)
    ensures LayoutsOf(ts).Ok? ==> AllKnown(ts)
    ensures AllKnown(ts) ==> LayoutsOf(ts) != Err(Unknown)
    decreases ts, 0
  {
    hide LayoutOf, Known;
    if ts != [] {
      UnknownExactly(ts[0]);
      UnknownParts(ts[1..]);
      assert forall k :: 0 < k < |ts| ==> ts[k] == ts[1..][k - 1];
      assert AllKnown(ts) ==> AllKnown(ts[1..]);
    }
  }

  lemma {:induction false} UnknownVariants(vs: seq<Variant>)
    ensures VariantLayouts(vs).Ok? ==> VariantsKnown(vs)
    ensures VariantsKnown(vs) ==> VariantLayouts(vs) != Err(Unknown)
    decreases vs, 1
  {
    hide LayoutsOf, StructOf, AllKnown;
    if vs != [] {
      UnknownParts(vs[0].fields);
      StructOverflows(vs[0].fields);
      UnknownVariants(vs[1..]);
      assert forall k :: 0 < k < |vs| ==> vs[k] == vs[1..][k - 1];
      assert VariantsKnown(vs) ==> VariantsKnown(vs[1..]) && VariantKnown(vs[0]);
    }
  }

  lemma StructOverflows(ts: seq<Ty>)
    ensures LayoutsOf(ts).Ok? ==> StructOf(LayoutsOf(ts).value) != Err(Unknown)
  {
    hide LayoutsOf, PlaceAll, AlignTo;
  }
}
