/** Bytes, machine words, and the little-endian numbers made of bytes. */
module Bytes {

  type Byte = b: int | 0 <= b < 256

  const U32: nat := 0x1_0000_0000
  const U64: nat := 0x1_0000_0000_0000_0000

  function Pow2(n: nat): (p: nat)
    ensures p > 0
    decreases n
  {
    if n == 0 then 1 else 2 * Pow2(n - 1)
  }

  /** The bitwise operators of C. */
  function Or(a: nat, b: nat): nat {
    if a == 0 && b == 0 then 0
    else (if a % 2 == 1 || b % 2 == 1 then 1 else 0) + 2 * Or(a / 2, b / 2)
  }

  function And(a: nat, b: nat): (r: nat)
    ensures r <= b
  {
    if a == 0 || b == 0 then 0 else a % 2 * (b % 2) + 2 * And(a / 2, b / 2)
  }

  /** `word >> k & 1`. */
  predicate Bit(word: nat, k: nat)
    decreases k
  {
    if k == 0 then word % 2 == 1 else Bit(word / 2, k - 1)
  }

  lemma {:induction false} BitOr(a: nat, b: nat, k: nat)
    ensures Bit(Or(a, b), k) <==> Bit(a, k) || Bit(b, k)
    decreases k
  {
    hide Or;
    OrHalves(a, b);
    if k > 0 {
      BitOr(a / 2, b / 2, k - 1);
    }
  }

  lemma OrHalves(a: nat, b: nat)
    ensures Or(a, b) / 2 == Or(a / 2, b / 2)
    ensures Or(a, b) % 2 == 1 <==> a % 2 == 1 || b % 2 == 1
  {
    if a == 0 && b == 0 {
    } else {
      var low := if a % 2 == 1 || b % 2 == 1 then 1 else 0;
      LowBit(low, Or(a / 2, b / 2));
    }
  }

  lemma LowBit(low: nat, rest: nat)
    requires low < 2
    ensures (low + 2 * rest) / 2 == rest && (low + 2 * rest) % 2 == low
  {
  }

  lemma {:induction false} BitPow2(k: nat)
    ensures Bit(Pow2(k), k)
    decreases k
  {
    if k > 0 {
      BitPow2(k - 1);
      assert Pow2(k) / 2 == Pow2(k - 1);
    }
  }

  function Le(bs: seq<Byte>): nat {
    if bs == [] then 0 else bs[0] + 256 * Le(bs[1..])
  }

  function ToLe(v: nat, n: nat): (bs: seq<Byte>)
    ensures |bs| == n
    decreases n, v
  {
    if n == 0 then [] else [v % 256] + ToLe(v / 256, n - 1)
  }

  function Pow256(n: nat): nat
    decreases n
  {
    if n == 0 then 1 else 256 * Pow256(n - 1)
  }

  lemma {:induction false} LeToLe(v: nat, n: nat)
    requires v < Pow256(n)
    ensures Le(ToLe(v, n)) == v
    decreases n
  {
    if n > 0 {
      assert v / 256 < Pow256(n - 1);
      LeToLe(v / 256, n - 1);
    }
  }
}
