/** Little-endian byte strings: the operand encoding shared by emitter, decoder and VM. */
module Wire {
  import opened Int64

  type Bytes = seq<u8>

  function Pow256(k: nat): (p: nat)
    ensures p > 0
  {
    if k == 0 then 1 else 256 * Pow256(k - 1)
  }

  function ToLe(n: nat, k: nat): (bs: Bytes)
    ensures |bs| == k
  {
    if k == 0 then [] else [n % 256] + ToLe(n / 256, k - 1)
  }

  function FromLe(bs: Bytes): (n: nat)
    ensures n < Pow256(|bs|)
  {
    if bs == [] then 0 else bs[0] + 256 * FromLe(bs[1..])
  }

  lemma {:induction false} FromToLe(n: nat, k: nat)
    requires n < Pow256(k)
    ensures FromLe(ToLe(n, k)) == n
  {
    if k > 0 {
      FromToLe(n / 256, k - 1);
      assert ToLe(n, k)[1..] == ToLe(n / 256, k - 1);
    }
  }

  lemma {:induction false} ToFromLe(bs: Bytes)
    ensures ToLe(FromLe(bs), |bs|) == bs
  {
    if bs != [] {
      ToFromLe(bs[1..]);
      assert bs == [bs[0]] + bs[1..];
    }
  }

  function U32Le(v: u32): (bs: Bytes)
    ensures |bs| == 4
  {
    ToLe(v, 4)
  }

  function I64Le(v: i64): (bs: Bytes)
    ensures |bs| == 8
  {
    ToLe(v % TWO_64, 8)
  }

  lemma Pow256Values()
    ensures Pow256(4) == 0x1_0000_0000 && Pow256(8) == TWO_64
  {
    assert Pow256(4) == 256 * (256 * (256 * (256 * Pow256(0))));
    assert Pow256(8) == 256 * (256 * (256 * (256 * Pow256(4))));
  }

  function ReadU32(bs: Bytes): u32
    requires |bs| == 4
  {
    Pow256Values();
    FromLe(bs)
  }

  function ReadI64(bs: Bytes): i64
    requires |bs| == 8
  {
    Wrap(FromLe(bs))
  }

  lemma U32RoundTrip(v: u32)
    ensures ReadU32(U32Le(v)) == v
  {
    Pow256Values();
    FromToLe(v, 4);
  }

  lemma I64RoundTrip(v: i64)
    ensures ReadI64(I64Le(v)) == v
  {
    Pow256Values();
    FromToLe(v % TWO_64, 8);
  }

  /** The bytes bs stand in code at offset pc. */
  predicate CodeAt(code: Bytes, pc: nat, bs: Bytes) {
    pc + |bs| <= |code| && code[pc..pc + |bs|] == bs
  }

  lemma CodeAtSplit(code: Bytes, pc: nat, a: Bytes, b: Bytes)
    requires CodeAt(code, pc, a + b)
    ensures CodeAt(code, pc, a) && CodeAt(code, pc + |a|, b)
  {
    var all := code[pc..pc + |a + b|];
    assert a == all[..|a|] == code[pc..pc + |a|];
    assert b == all[|a|..] == code[pc + |a|..pc + |a| + |b|];
  }
}
