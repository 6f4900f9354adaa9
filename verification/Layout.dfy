/**
Sizes, alignments and field offsets of types (crates/glyim-codegen-llvm/src/abi.rs; Size and Align
of glyim-layout).
*/
module Layout {
  import opened Wrappers

  const U64_LIMIT: nat := 0x1_0000_0000_0000_0000
  const U64_MAX: nat := 0xFFFF_FFFF_FFFF_FFFF

  /**
  A type with its generic parameters already replaced. `Scalar` stands for everything laid out without
  looking at parts; a length that is not a number has no layout.
  */
  datatype Ty =
    | Scalar(scalarSize: nat, scalarAlign: nat)
    | NoLayout
    | Tuple(fields: seq<Ty>)
    | Array(elem: Ty, length: Option<int>)
    | Struct(fields: seq<Ty>)
    | Enum(variants: seq<Variant>)

  datatype Variant = Variant(fields: seq<Ty>)

  datatype FieldsShape = Primitive | ArrayOf(stride: nat, count: nat) | Arbitrary(offsets: seq<nat>)

  datatype VariantsShape = Single | Multiple(tagBits: nat, tagSize: nat, tagAlign: nat, variants: seq<Layout>)

  datatype Layout = Layout(size: nat, align: nat, fields: FieldsShape, variants: VariantsShape)

  /** `Overflow` is the arithmetic or assertion failure of a debug build. */
  datatype Failure = Unknown | Overflow

  function Unit(): Layout {
    Layout(0, 1, Arbitrary([]), Single)
  }

  function Max(a: nat, b: nat): nat {
    if a < b then b else a
  }

  // ----- 64-bit sizes -----

  /** Sizes add with saturation. */
  function Add(a: nat, b: nat): nat {
    if a + b < U64_LIMIT then a + b else U64_MAX
  }

  /** Round up to a multiple; the sum before the masking may not overflow. */
  function AlignTo(x: nat, a: nat): Option<nat>
    requires a > 0
  {
    if x + (a - 1) < U64_LIMIT then Some((x + (a - 1)) / a * a) else None
  }

  predicate PowerOfTwo(a: nat) {
    a == 1 || (a > 1 && a % 2 == 0 && PowerOfTwo(a / 2))
  }

  // ----- fields one after another -----

  datatype Placed = Placed(size: nat, align: nat, offsets: seq<nat>)

  predicate Aligned(ls: seq<Layout>) {
    forall k :: 0 <= k < |ls| ==> ls[k].align > 0
  }

  function PlaceOne(p: Placed, l: Layout): Option<Placed>
    requires l.align > 0
  {
    var offset := AlignTo(p.size, l.align);
    if offset.None? then None
    else Some(Placed(Add(offset.value, l.size), Max(p.align, l.align), p.offsets + [offset.value]))
  }

  function PlaceAll(ls: seq<Layout>): Option<Placed>
    requires Aligned(ls)
    decreases |ls|
  {
    if ls == [] then Some(Placed(0, 1, []))
    else
      var before := PlaceAll(ls[..|ls| - 1]);
      if before.None? then None else PlaceOne(before.value, ls[|ls| - 1])
  }

  /** A struct of the given fields, its size rounded up to its alignment. */
  function StructOf(ls: seq<Layout>): Result<Layout, Failure>
    requires Aligned(ls)
  {
    var p := PlaceAll(ls);
    if p.None? || p.value.align == 0 then Err(Overflow)
    else
      var size := AlignTo(p.value.size, p.value.align);
      if size.None? then Err(Overflow) else Ok(Layout(size.value, p.value.align, Arbitrary(p.value.offsets), Single))
  }

  // ----- arrays -----

  /** The length as an unsigned 64-bit number. */
  function CountOf(n: int): nat {
    n % U64_LIMIT
  }

  function ArrayLayout(elem: Layout, count: nat): Result<Layout, Failure>
    requires elem.align > 0
  {
    var stride := AlignTo(elem.size, elem.align);
    if stride.None? then Err(Overflow)
    else
      var size := if stride.value * count < U64_LIMIT then stride.value * count else U64_MAX;
      Ok(Layout(size, elem.align, ArrayOf(stride.value, count), Single))
  }

  // ----- enums -----

  /** Bits needed to write n. */
  function BitLength(n: nat): nat {
    if n == 0 then 0 else 1 + BitLength(n / 2)
  }

  function TagBytes(variants: nat): nat
    requires variants > 1
  {
    (BitLength(variants - 1) + 7) / 8
  }

  function TagTypeBits(variants: nat): nat {
    if variants <= 256 then 8 else if variants <= 65536 then 16 else 32
  }

  function MaxSize(ls: seq<Layout>): nat {
    if ls == [] then 0 else Max(ls[0].size, MaxSize(ls[1..]))
  }

  function MaxAlign(ls: seq<Layout>): (a: nat)
    ensures a >= 1
  {
    if ls == [] then 1 else Max(ls[0].align, MaxAlign(ls[1..]))
  }

  /** Where variant data starts: past the tag, at the strictest alignment of any variant. */
  function DataStart(tagSize: nat, tagAlign: nat, align: nat): Option<nat>
    requires tagAlign > 0 && align > 0
  {
    var past := AlignTo(tagSize, tagAlign);
    if past.None? then None else AlignTo(past.value, align)
  }

  function Shift(offsets: seq<nat>, delta: nat): seq<nat> {
    seq(|offsets|, k requires 0 <= k < |offsets| => Add(offsets[k], delta))
  }

  /** The tag at offset 0, then the fields of the first variant. */
  function EnumOf(variants: seq<Layout>): Result<Layout, Failure>
    requires |variants| > 1
  {
    var tag, align := TagBytes(|variants|), MaxAlign(variants);
    if !PowerOfTwo(tag) || !PowerOfTwo(align) || tag == 0 then Err(Overflow)
    else
      var start := DataStart(tag, tag, align);
      if start.None? || MaxSize(variants) + start.value >= U64_LIMIT then Err(Overflow)
      else
        var size := AlignTo(MaxSize(variants) + start.value, align);
        if size.None? then Err(Overflow)
        else
          var first := if variants[0].fields.Arbitrary? then Shift(variants[0].fields.offsets, start.value) else [];
          Ok(Layout(size.value, align, Arbitrary([0] + first), Multiple(TagTypeBits(|variants|), tag, tag, variants)))
  }

  // ----- the uncached recursion -----

  function LayoutOf(t: Ty): (r: Result<Layout, Failure>)
    ensures r.Ok? ==> r.value.align > 0
    decreases t, 2
  {
    match t
    case Scalar(size, align) => if align > 0 then Ok(Layout(size, align, Primitive, Single)) else Err(Unknown)
    case NoLayout => Err(Unknown)
    case Tuple(fields) => FieldsLayout(fields)
    case Struct(fields) => FieldsLayout(fields)
    case Array(elem, length) =>
      if length.None? then Err(Unknown)
      else
        var e := LayoutOf(elem);
        if e.Err? then Err(e.error) else ArrayLayout(e.value, CountOf(length.value))
    case Enum(variants) =>
      if |variants| == 0 then Err(Unknown)
      else if |variants| == 1 then FieldsLayout(variants[0].fields)
      else
        var vs := VariantLayouts(variants);
        if vs.Err? then Err(vs.error) else EnumOf(vs.value)
  }

  function LayoutsOf(ts: seq<Ty>): (r: Result<seq<Layout>, Failure>)
    ensures r.Ok? ==> |r.value| == |ts| && Aligned(r.value)
    decreases ts, 0
  {
    if ts == [] then Ok([])
    else
      var first := LayoutOf(ts[0]);
      if first.Err? then Err(first.error)
      else
        var rest := LayoutsOf(ts[1..]);
        if rest.Err? then Err(rest.error) else Ok([first.value] + rest.value)
  }

  /** A tuple or struct; without fields it is the unit layout. */
  function FieldsLayout(ts: seq<Ty>): (r: Result<Layout, Failure>)
    ensures r.Ok? ==> r.value.align > 0
    decreases ts, 1
  {
    var ls := LayoutsOf(ts);
    if ls.Err? then Err(ls.error) else if ls.value == [] then Ok(Unit()) else StructOf(ls.value)
  }

  function VariantLayouts(variants: seq<Variant>): (r: Result<seq<Layout>, Failure>)
    ensures r.Ok? ==> |r.value| == |variants|
    decreases variants, 1
  {
    if variants == [] then Ok([])
    else
      var ls := LayoutsOf(variants[0].fields);
      if ls.Err? then Err(ls.error)
      else
        var first := StructOf(ls.value);
        if first.Err? then Err(first.error)
        else
          var rest := VariantLayouts(variants[1..]);
          if rest.Err? then Err(rest.error) else Ok([first.value] + rest.value)
  }

  // ----- the loops, and the memo cache -----

  method PlaceFields(ls: seq<Layout>) returns (p: Option<Placed>)
    requires Aligned(ls)
    ensures p == PlaceAll(ls)
  {
    hide PlaceOne;
    var placed := Placed(0, 1, []);
    for k := 0 to |ls|
      invariant PlaceAll(ls[..k]) == Some(placed)
    {
      assert ls[..k + 1][k] == ls[k] && ls[..k + 1][..k] == ls[..k];
      var next := PlaceOne(placed, ls[k]);
      if next.None? {
        PlaceStops(ls, k + 1);
        return None;
      }
      placed := next.value;
    }
    assert ls[..|ls|] == ls;
    p := Some(placed);
  }

  lemma {:induction false} PlaceStops(ls: seq<Layout>, k: nat)
    requires Aligned(ls) && k <= |ls| && PlaceAll(ls[..k]).None?
    ensures PlaceAll(ls).None?
    decreases |ls| - k
  {
    hide PlaceOne;
    if k < |ls| {
      assert ls[..k + 1][..k] == ls[..k];
      PlaceStops(ls, k + 1);
    } else {
      assert ls[..k] == ls;
    }
  }

  method LayStruct(ls: seq<Layout>) returns (r: Result<Layout, Failure>)
    requires Aligned(ls)
    ensures r == StructOf(ls)
  {
    var p := PlaceFields(ls);
    if p.None? || p.value.align == 0 {
      return Err(Overflow);
    }
    var size := AlignTo(p.value.size, p.value.align);
    r := if size.None? then Err(Overflow)
      else Ok(Layout(size.value, p.value.align, Arbitrary(p.value.offsets), Single));
  }

  lemma {:induction false} LayoutsFirstError(ts: seq<Ty>, k: nat, so: seq<Layout>)
    requires k < |ts| && LayoutsOf(ts[..k]) == Ok(so) && LayoutOf(ts[k]).Err?
    ensures LayoutsOf(ts) == Err(LayoutOf(ts[k]).error)
    decreases k
  {
    if k > 0 {
      assert ts[..k][0] == ts[0] && ts[..k][1..] == ts[1..][..k - 1];
      LayoutsFirstError(ts[1..], k - 1, so[1..]);
    }
  }

  lemma {:induction false} LayoutsAppend(ts: seq<Ty>, t: Ty)
    requires LayoutsOf(ts).Ok? && LayoutOf(t).Ok?
    ensures LayoutsOf(ts + [t]) == Ok(LayoutsOf(ts).value + [LayoutOf(t).value])
  {
    if ts == [] {
      var none: seq<Layout>, one := [], [LayoutOf(t).value];
      assert ts + [t] == [t] && [t][1..] == [];
      assert none + one == one && one + none == one;
    } else {
      assert (ts + [t])[0] == ts[0] && (ts + [t])[1..] == ts[1..] + [t];
      LayoutsAppend(ts[1..], t);
      var a, rest, b := LayoutOf(ts[0]).value, LayoutsOf(ts[1..]).value, LayoutOf(t).value;
      assert [a] + (rest + [b]) == ([a] + rest) + [b];
    }
  }

  function VariantLayout(v: Variant): Result<Layout, Failure> {
    var ls := LayoutsOf(v.fields);
    if ls.Err? then Err(ls.error) else StructOf(ls.value)
  }

  lemma {:induction false} VariantsFirstError(vs: seq<Variant>, k: nat, so: seq<Layout>)
    requires k < |vs| && VariantLayouts(vs[..k]) == Ok(so) && VariantLayout(vs[k]).Err?
    ensures VariantLayouts(vs) == Err(VariantLayout(vs[k]).error)
    decreases k
  {
    if k > 0 {
      assert vs[..k][0] == vs[0] && vs[..k][1..] == vs[1..][..k - 1];
      VariantsFirstError(vs[1..], k - 1, so[1..]);
    }
  }

  lemma {:induction false} VariantsAppend(vs: seq<Variant>, v: Variant)
    requires VariantLayouts(vs).Ok? && VariantLayout(v).Ok?
    ensures VariantLayouts(vs + [v]) == Ok(VariantLayouts(vs).value + [VariantLayout(v).value])
  {
    if vs == [] {
      var none: seq<Layout>, one := [], [VariantLayout(v).value];
      assert vs + [v] == [v] && [v][1..] == [];
      assert none + one == one && one + none == one;
    } else {
      assert (vs + [v])[0] == vs[0] && (vs + [v])[1..] == vs[1..] + [v];
      VariantsAppend(vs[1..], v);
      var a, rest, b := VariantLayout(vs[0]).value, VariantLayouts(vs[1..]).value, VariantLayout(v).value;
      assert [a] + (rest + [b]) == ([a] + rest) + [b];
    }
  }

  /** Layouts already computed are kept by type. */
  class LayoutComputer {
    var cache: map<Ty, Layout>

    constructor ()
      ensures Valid() && cache == map[]
    {
      cache := map[];
    }

    /** Everything in the cache is what the uncached recursion gives. */
    ghost predicate Valid()
      reads this
    {
      forall t :: t in cache ==> LayoutOf(t) == Ok(cache[t])
    }

    /** The cached answer is the uncached one, and an answer is kept from then on. */
    method Get(t: Ty) returns (r: Result<Layout, Failure>)
      requires Valid()
      modifies this
      ensures Valid() && r == LayoutOf(t)
      ensures forall u :: u in old(cache) ==> u in cache && cache[u] == old(cache)[u]
      ensures r.Ok? ==> t in cache
      decreases t, 3
    {
      hide LayoutOf;
      if t in cache {
        return Ok(cache[t]);
      }
      r := Compute(t);
      if r.Ok? {
        cache := cache[t := r.value];
      }
    }

    method Compute(t: Ty) returns (r: Result<Layout, Failure>)
      requires Valid()
      modifies this
      ensures Valid() && r == LayoutOf(t)
      ensures forall u :: u in old(cache) ==> u in cache && cache[u] == old(cache)[u]
      decreases t, 2
    {
      hide ArrayLayout, EnumOf, FieldsLayout, VariantLayouts;
      match t {
        case Scalar(size, align) => r := if align > 0 then Ok(Layout(size, align, Primitive, Single)) else Err(Unknown);
        case NoLayout => r := Err(Unknown);
        case Tuple(fields) => r := ComputeFields(fields);
        case Struct(fields) => r := ComputeFields(fields);
        case Array(elem, length) =>
          if length.None? {
            return Err(Unknown);
          }
          var e := Get(elem);
          if e.Err? {
            return Err(e.error);
          }
          r := ArrayLayout(e.value, CountOf(length.value));
        case Enum(variants) =>
          if |variants| == 0 {
            r := Err(Unknown);
          } else if |variants| == 1 {
            r := ComputeFields(variants[0].fields);
          } else {
            var vs := ComputeVariants(variants);
            if vs.Err? {
              return Err(vs.error);
            }
            r := EnumOf(vs.value);
          }
      }
    }

    method ComputeFields(ts: seq<Ty>) returns (r: Result<Layout, Failure>)
      requires Valid()
      modifies this
      ensures Valid() && r == FieldsLayout(ts)
      ensures forall u :: u in old(cache) ==> u in cache && cache[u] == old(cache)[u]
      decreases ts, 1
    {
      hide LayoutsOf, StructOf;
      var ls := GetAll(ts);
      if ls.Err? {
        return Err(ls.error);
      }
      if ls.value == [] {
        return Ok(Unit());
      }
      r := LayStruct(ls.value);
    }

    method GetAll(ts: seq<Ty>) returns (r: Result<seq<Layout>, Failure>)
      requires Valid()
      modifies this
      ensures Valid() && r == LayoutsOf(ts)
      ensures forall u :: u in old(cache) ==> u in cache && cache[u] == old(cache)[u]
      decreases ts, 0
    {
      hide LayoutOf;
      var ls := [];
      for k := 0 to |ts|
        invariant Valid() && LayoutsOf(ts[..k]) == Ok(ls)
        invariant forall u :: u in old(cache) ==> u in cache && cache[u] == old(cache)[u]
      {
        var l := Get(ts[k]);
        if l.Err? {
          LayoutsFirstError(ts, k, ls);
          return Err(l.error);
        }
        LayoutsAppend(ts[..k], ts[k]);
        assert ts[..k + 1] == ts[..k] + [ts[k]];
        ls := ls + [l.value];
      }
      assert ts[..|ts|] == ts;
      r := Ok(ls);
    }

    method ComputeVariants(vs: seq<Variant>) returns (r: Result<seq<Layout>, Failure>)
      requires Valid()
      modifies this
      ensures Valid() && r == VariantLayouts(vs)
      ensures forall u :: u in old(cache) ==> u in cache && cache[u] == old(cache)[u]
      decreases vs, 1
    {
      hide LayoutOf, LayoutsOf, StructOf;
      var done := [];
      for k := 0 to |vs|
        invariant Valid() && VariantLayouts(vs[..k]) == Ok(done)
        invariant forall u :: u in old(cache) ==> u in cache && cache[u] == old(cache)[u]
      {
        var ls := GetAll(vs[k].fields);
        if ls.Err? {
          VariantsFirstError(vs, k, done);
          return Err(ls.error);
        }
        var l := LayStruct(ls.value);
        if l.Err? {
          VariantsFirstError(vs, k, done);
          return Err(l.error);
        }
        VariantsAppend(vs[..k], vs[k]);
        assert vs[..k + 1] == vs[..k] + [vs[k]];
        done := done + [l.value];
      }
      assert vs[..|vs|] == vs;
      r := Ok(done);
    }
  }
}
