/** The static skeleton of a view as an array of 32-bit words and a string table (crates/glyim-gsx/src/blueprint.rs). */
module Blueprint {
  import opened Int64

  datatype Op =
    | Create(tag: u32)
    | StaticProp(prop: u32, text: u32)
    | Text(text: u32)
    | Enter
    | Leave
    | SlotMarker(slot: u32)

  const TWO_32: nat := 0x1_0000_0000
  const PAYLOADS: nat := 0x2000_0000
  const PROPS: nat := 0x4000
  const TEXTS: nat := 0x8000

  /** The operands fit their bit fields; only debug builds of the encoder check this. */
  predicate Fits(op: Op) {
    match op
    case Create(tag) => tag < PAYLOADS
    case StaticProp(prop, text) => prop < PROPS && text < TEXTS
    case Text(text) => text < PAYLOADS
    case Enter => true
    case Leave => true
    case SlotMarker(slot) => slot < PAYLOADS
  }

  function Pow2(k: nat): nat {
    if k == 0 then 1 else 2 * Pow2(k - 1)
  }

  /** The low k bits of the bitwise or. */
  function Or(a: nat, b: nat, k: nat): (r: nat)
    ensures r < Pow2(k)
  {
    if k == 0 then 0 else (if a % 2 == 1 || b % 2 == 1 then 1 else 0) + 2 * Or(a / 2, b / 2, k - 1)
  }

  lemma {:induction false} OrZero(a: nat, k: nat)
    requires a < Pow2(k)
    ensures Or(a, 0, k) == a
  {
    if k > 0 {
      OrZero(a / 2, k - 1);
    }
  }

  /** Shifted clear of each other, the or of two numbers is their sum. */
  lemma {:induction false} OrDisjoint(a: nat, b: nat, j: nat, k: nat)
    requires a < Pow2(k) && b < Pow2(j)
    ensures Or(a * Pow2(j), b, j + k) == a * Pow2(j) + b
  {
    if j == 0 {
      OrZero(a, k);
    } else {
      var half := a * Pow2(j - 1);
      assert a * Pow2(j) == 2 * half;
      OrDisjoint(a, b / 2, j - 1, k);
      assert (2 * half) / 2 == half && (2 * half) % 2 == 0;
    }
  }

  lemma Powers()
    ensures Pow2(14) == PROPS && Pow2(15) == TEXTS && Pow2(18) == 0x4_0000 && Pow2(29) == PAYLOADS && Pow2(32) == TWO_32
  {
    assert Pow2(8) == 256;
    assert Pow2(14) == 64 * Pow2(8);
    assert Pow2(18) == 16 * Pow2(14);
    assert Pow2(24) == 64 * Pow2(18);
    assert Pow2(29) == 32 * Pow2(24);
    assert Pow2(32) == 8 * Pow2(29);
  }

  lemma MorePowers()
    ensures Pow2(17) > PROPS
  {
    Powers();
    assert Pow2(17) == 8 * Pow2(14);
  }

  /** `(prop << 15) | text` on 32 bits. */
  function PackProp(prop: u32, text: u32): u32 {
    Powers();
    Or(prop * TEXTS % TWO_32, text, 32)
  }

  /** Op tag above a payload cut to 29 bits. */
  function Encode(tag: nat, payload: u32): u32
    requires tag < 8
  {
    tag * PAYLOADS + payload % PAYLOADS
  }

  function EncodeOp(op: Op): u32 {
    match op
    case Create(tag) => Encode(0, tag)
    case StaticProp(prop, text) => Encode(1, PackProp(prop, text))
    case Text(text) => Encode(2, text)
    case Enter => Encode(3, 0)
    case Leave => Encode(4, 0)
    case SlotMarker(slot) => Encode(5, slot)
  }

  function DecodeWord(w: u32): Op {
    var tag, rest: u32 := w / PAYLOADS, w % PAYLOADS;
    if tag == 0 then Create(rest)
    else if tag == 1 then StaticProp(rest / TEXTS, rest % TEXTS)
    else if tag == 2 then Text(rest)
    else if tag == 3 then Enter
    else if tag == 5 then SlotMarker(rest)
    else Leave
  }

  lemma SplitWord(tag: nat, payload: u32)
    requires tag < 8
    ensures Encode(tag, payload) / PAYLOADS == tag && Encode(tag, payload) % PAYLOADS == payload % PAYLOADS
  {
  }

  /** Decoding undoes encoding exactly for the ops whose operands fit. */
  lemma WordRoundTrip(op: Op)
    ensures DecodeWord(EncodeOp(op)) == op <==> Fits(op)
  {
    hide PackProp;
    match op
    case Create(tag) => SplitWord(0, tag);
    case StaticProp(prop, text) =>
      SplitWord(1, PackProp(prop, text));
      if Fits(op) {
        PackFits(prop, text);
      }
    case Text(text) => SplitWord(2, text);
    case Enter => SplitWord(3, 0);
    case Leave => SplitWord(4, 0);
    case SlotMarker(slot) => SplitWord(5, slot);
  }

  lemma PackFits(prop: u32, text: u32)
    requires prop < PROPS && text < TEXTS
    ensures PackProp(prop, text) == prop * TEXTS + text < PAYLOADS
    ensures PackProp(prop, text) / TEXTS == prop && PackProp(prop, text) % TEXTS == text
  {
    hide Or, Pow2;
    Powers();
    assert Pow2(17) > PROPS by {
      MorePowers();
    }
    OrDisjoint(prop, text, 15, 17);
    var shifted := prop * TEXTS;
    assert shifted < PAYLOADS && shifted % TWO_32 == shifted;
  }

  /** Three bits of op tag, from 0 for Create to 5 for SlotMarker, above 29 bits of operands. */
  lemma WordLayout(op: Op)
    requires Fits(op)
    ensures EncodeOp(op) ==
            match op
            case Create(tag) => tag
            case StaticProp(prop, text) => 0x2000_0000 + prop * 0x8000 + text
            case Text(text) => 0x4000_0000 + text
            case Enter => 0x6000_0000
            case Leave => 0x8000_0000
            case SlotMarker(slot) => 0xA000_0000 + slot
  {
    hide PackProp;
    if op.StaticProp? {
      PackFits(op.prop, op.text);
    }
  }

  function Words(ops: seq<Op>): (r: seq<u32>)
    ensures |r| == |ops|
  {
    seq(|ops|, k requires 0 <= k < |ops| => EncodeOp(ops[k]))
  }

  function Decoded(words: seq<u32>): (r: seq<Op>)
    ensures |r| == |words|
  {
    seq(|words|, k requires 0 <= k < |words| => DecodeWord(words[k]))
  }

  /** A whole op stream survives exactly when every op fits. */
  lemma StreamRoundTrip(ops: seq<Op>)
    ensures Decoded(Words(ops)) == ops <==> forall k :: 0 <= k < |ops| ==> Fits(ops[k])
  {
    hide Fits, EncodeOp, DecodeWord;
    forall k | 0 <= k < |ops|
      ensures Decoded(Words(ops))[k] == ops[k] <==> Fits(ops[k])
    {
      WordRoundTrip(ops[k]);
    }
  }

  // ----- the string table -----

  function IndexOf(strings: seq<string>, s: string): nat {
    if strings == [] || strings[0] == s then 0 else 1 + IndexOf(strings[1..], s)
  }

  /** The index as a u32, and the table after it. */
  function Interned(strings: seq<string>, s: string): (u32, seq<string>) {
    var i := IndexOf(strings, s);
    (i % TWO_32, if s in strings then strings else strings + [s])
  }

  predicate Distinct(strings: seq<string>) {
    forall i, j :: 0 <= i < j < |strings| ==> strings[i] != strings[j]
  }

  lemma {:induction false} IndexFinds(strings: seq<string>, s: string)
    ensures s in strings ==> IndexOf(strings, s) < |strings| && strings[IndexOf(strings, s)] == s
    ensures s !in strings ==> IndexOf(strings, s) == |strings|
  {
    if strings != [] && strings[0] != s {
      IndexFinds(strings[1..], s);
      assert strings == [strings[0]] + strings[1..];
    }
  }

  /** Interning keeps the table a prefix of the new one without duplicates, and the id names the string. */
  lemma InternKeeps(strings: seq<string>, s: string)
    requires Distinct(strings)
    ensures var (id, after) := Interned(strings, s);
            && strings <= after && Distinct(after) && s in after
            && (|after| <= TWO_32 ==> id < |after| && after[id] == s)
  {
    hide IndexOf;
    IndexFinds(strings, s);
    if s !in strings {
      assert forall i :: 0 <= i < |strings| ==> strings[i] != s;
    }
  }

  class Blueprint {
    var ops: seq<u32>
    var strings: seq<string>

    constructor ()
      ensures ops == [] && strings == []
    {
      ops, strings := [], [];
    }

    method PushOp(op: Op)
      modifies this`ops
      ensures ops == old(ops) + [EncodeOp(op)]
    {
      ops := ops + [EncodeOp(op)];
    }

    method Intern(s: string) returns (id: u32)
      modifies this`strings
      ensures (id, strings) == Interned(old(strings), s)
    {
      IndexFinds(strings, s);
      for i := 0 to |strings|
        invariant IndexOf(strings, s) == i + IndexOf(strings[i..], s)
        invariant s in strings ==> s in strings[i..]
        invariant strings == old(strings)
      {
        assert strings[i..][0] == strings[i] && strings[i..][1..] == strings[i + 1..];
        if strings[i] == s {
          return i % TWO_32;
        }
      }
      strings := strings + [s];
      id := (|strings| - 1) % TWO_32;
    }

    method Decode() returns (r: seq<Op>)
      ensures r == Decoded(ops)
    {
      r := [];
      for k := 0 to |ops|
        invariant r == Decoded(ops)[..k]
      {
        r := r + [DecodeWord(ops[k])];
      }
    }

    method SlotCount() returns (n: nat)
      ensures n == |Markers(Decoded(ops))|
    {
      n := 0;
      for k := 0 to |ops|
        invariant |Markers(Decoded(ops))| == n + |Markers(Decoded(ops)[k..])|
      {
        var op := DecodeWord(ops[k]);
        assert Decoded(ops)[k..][0] == op && Decoded(ops)[k..][1..] == Decoded(ops)[k + 1..];
        if op.SlotMarker? {
          n := n + 1;
        }
      }
    }
  }

  /** The payloads of the slot markers, in stream order. */
  function Markers(ops: seq<Op>): seq<nat> {
    if ops == [] then []
    else (if ops[0].SlotMarker? then [ops[0].slot as nat] else []) + Markers(ops[1..])
  }
}
