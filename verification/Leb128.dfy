/**
 LEB128 numbers: the encodings of section 7.6 of the DWARF 4 standard, and what `read_leb128`
 makes of them.

 The reader means to drop the continuation bit of each byte by shifting left and right again, but
 the shifts are done on an int, where they cancel: the bit stays, and is or-ed into the number. The
 shift by `shift` is done on an int as well, and has no defined result if a bit is lost. The reader
 mended in these two places, and with a signed variant, is here too, for comparison.
 */
module Leb128 {
  import opened Bytes

  // ---- The standard ----

  function Uleb(v: nat): (bs: seq<Byte>)
    ensures |bs| > 0
  {
    if v < 128 then [v] else [v % 128 + 128] + Uleb(v / 128)
  }

  function Sleb(v: int): (bs: seq<Byte>)
    ensures |bs| > 0
    decreases if v < 0 then -v else v
  {
    if -64 <= v < 64 then [v % 128] else [v % 128 + 128] + Sleb(v / 128)
  }

  // ---- The reader as written ----

  const INT_MAX: nat := 0x7FFF_FFFF

  /** `Undefined`: a shift without a defined result, or bytes beyond the end. */
  datatype Read = Value(v: nat, next: nat) | Undefined

  function ReadFrom(bs: seq<Byte>, i: nat, shift: nat, result: nat): Read
    decreases |bs| - i
  {
    if i >= |bs| || shift >= 32 || bs[i] * Pow2(shift) > INT_MAX then Undefined
    else
      var r := Or(result, bs[i] * Pow2(shift));
      if bs[i] < 128 then Value(r, i + 1) else ReadFrom(bs, i + 1, shift + 7, r)
  }

  lemma {:induction false} ReadsOn(bs: seq<Byte>, i: nat, shift: nat, result: nat)
    ensures var r := ReadFrom(bs, i, shift, result); r.Value? ==> i < r.next <= |bs|
    decreases |bs| - i
  {
    if !(i >= |bs| || shift >= 32 || bs[i] * Pow2(shift) > INT_MAX) && bs[i] >= 128 {
      ReadsOn(bs, i + 1, shift + 7, Or(result, bs[i] * Pow2(shift)));
    }
  }

  method ReadLeb128(bs: seq<Byte>, ptr: nat) returns (r: Read)
    ensures r == ReadFrom(bs, ptr, 0, 0)
  {
    var i, shift, result := ptr, 0, 0;
    while true
      invariant ReadFrom(bs, ptr, 0, 0) == ReadFrom(bs, i, shift, result)
      decreases |bs| - i
    {
      if i >= |bs| { return Undefined; }
      var byte := bs[i];
      i := i + 1;
      if shift >= 32 || byte * Pow2(shift) > INT_MAX { return Undefined; }
      result := Or(result, byte * Pow2(shift));
      if byte < 128 { return Value(result, i); }
      shift := shift + 7;
    }
  }

  // ---- What it reads ----

  function Odd(v: nat): nat {
    v + 1 - v % 2
  }

  /** The number that is read for the encoding of `v`: each continuation bit has set the lowest bit
      of the next group of seven. */
  function Garbled(v: nat): nat {
    if v < 128 then v else v % 128 + 128 * Odd(Garbled(v / 128))
  }

  function GarbledSigned(v: int): nat
    decreases if v < 0 then -v else v
  {
    if -64 <= v < 64 then v % 128 else v % 128 + 128 * Odd(GarbledSigned(v / 128))
  }

  /** The lowest bit of every group but the first is set. */
  predicate Readable(v: nat) {
    v < 128 || ((v / 128) % 2 == 1 && Readable(v / 128))
  }

  predicate ReadableSigned(v: int) {
    0 <= v < 64 || (v >= 64 && (v / 128) % 2 == 1 && ReadableSigned(v / 128))
  }

  lemma OrEven(a: nat, q: nat)
    requires a > 0
    ensures Or(a, 2 * q) == a % 2 + 2 * Or(a / 2, q)
  {
    assert 2 * q % 2 == 0 && 2 * q / 2 == q;
  }

  lemma Twice(b: nat, p: nat)
    ensures b * (2 * p) == 2 * (b * p)
  {
  }

  /** Or-ing in a group whose lowest bit is already there sets that bit of the group. */
  lemma {:induction false} OrBelow(a: nat, b: nat, s: nat)
    requires Pow2(s) <= a < 2 * Pow2(s)
    ensures Or(a, b * Pow2(s)) == a - Pow2(s) + Odd(b) * Pow2(s)
    decreases s
  {
    if s == 0 {
      assert a == 1 && Or(1, b) == 1 + 2 * Or(0, b / 2);
      OrZero(b / 2);
    } else {
      var p := Pow2(s - 1);
      Twice(b, p);
      Twice(Odd(b), p);
      OrEven(a, b * p);
      OrBelow(a / 2, b, s - 1);
    }
  }

  lemma {:induction false} OrZero(b: nat)
    ensures Or(0, b) == b
  {
    if b > 0 {
      OrZero(b / 2);
    }
  }

  /** The shifts that have a defined result, and their powers. */
  function Weight(shift: nat): nat {
    if shift == 0 then 1 else if shift == 7 then 0x80 else if shift == 14 then 0x4000
    else if shift == 21 then 0x20_0000 else if shift == 28 then 0x1000_0000 else 0
  }

  lemma WeightIsPow2(shift: nat)
    requires Weight(shift) > 0
    ensures Weight(shift) == Pow2(shift)
  {
    assert Pow2(0) == 1 && Pow2(7) == 0x80 && Pow2(14) == 0x4000 && Pow2(21) == 0x20_0000 && Pow2(28) == 0x1000_0000;
  }

  /** `result` as it is before the group at `shift` is read. */
  ghost predicate Reading(shift: nat, result: nat) {
    Weight(shift) > 0 && if shift == 0 then result == 0 else Weight(shift) <= result < 2 * Weight(shift)
  }

  /** What reading the remaining groups, worth `v`, makes of it. */
  function Finished(shift: nat, result: nat, v: nat): int {
    if shift == 0 then v else result - Weight(shift) + Odd(v) * Weight(shift)
  }

  /** Reading one group. */
  lemma OrGroup(shift: nat, result: nat, b: nat)
    requires Reading(shift, result)
    ensures Or(result, b * Pow2(shift)) == Finished(shift, result, b) && Pow2(shift) == Weight(shift)
  {
    WeightIsPow2(shift);
    if shift == 0 {
      OrZero(b);
    } else {
      OrBelow(result, b, shift);
    }
  }

  lemma OddOver(low: nat, u: nat)
    ensures Odd(low + 128 * u) == Odd(low) + 128 * u
  {
    Parity(low + 128 * u, low / 2 + 64 * u, low % 2);
  }

  lemma Parity(x: nat, q: nat, r: nat)
    requires x == 2 * q + r && r < 2
    ensures x % 2 == r
  {
  }

  lemma OddSmall(low: nat)
    requires low < 128
    ensures Odd(low) <= 127
  {
  }

  /** One group that is not the last. */
  lemma Continues(shift: nat, result: nat, low: nat, v: nat)
    requires Reading(shift, result) && low < 128 && shift < 28
    ensures var r := Finished(shift, result, low + 128);
            r >= 0 && Reading(shift + 7, r) && Finished(shift + 7, r, v) == Finished(shift, result, low + 128 * Odd(v))
  {
    hide Odd;
    OddOver(low, 1);
    OddOver(low, Odd(v));
    OddSmall(low);
    if shift == 0 {
    } else if shift == 7 {
    } else if shift == 14 {
    } else {
      assert shift == 21;
    }
  }

  lemma {:induction false} ReadsUleb(bs: seq<Byte>, i: nat, shift: nat, result: nat, v: nat)
    requires Reading(shift, result)
    requires i + |Uleb(v)| <= |bs| && bs[i..i + |Uleb(v)|] == Uleb(v)
    ensures ReadFrom(bs, i, shift, result)
         == if v * Weight(shift) <= INT_MAX then Value(Finished(shift, result, Garbled(v)), i + |Uleb(v)|)
            else Undefined
    decreases v
  {
    hide Or, Pow2, Finished, Odd;
    var n := |Uleb(v)|;
    assert bs[i] == Uleb(v)[0];
    OrGroup(shift, result, bs[i]);
    if v >= 128 {
      assert Uleb(v)[1..] == Uleb(v / 128);
      if shift < 28 {
        Continues(shift, result, v % 128, Garbled(v / 128));
        assert bs[i + 1..i + n] == bs[i..i + n][1..];
        ReadsUleb(bs, i + 1, shift + 7, Or(result, bs[i] * Pow2(shift)), v / 128);
        Scales(shift, v);
      }
    }
  }

  lemma Scales(shift: nat, v: int)
    requires shift in {0, 7, 14, 21}
    ensures v * Weight(shift) <= INT_MAX <==> v / 128 * Weight(shift + 7) <= INT_MAX
    ensures !(-64 <= v < 64) ==> (SlebFits(shift, v) <==> SlebFits(shift + 7, v / 128))
  {
  }

  lemma {:induction false} ReadsSleb(bs: seq<Byte>, i: nat, shift: nat, result: nat, v: int)
    requires Reading(shift, result)
    requires i + |Sleb(v)| <= |bs| && bs[i..i + |Sleb(v)|] == Sleb(v)
    ensures ReadFrom(bs, i, shift, result)
         == if SlebFits(shift, v) then Value(Finished(shift, result, GarbledSigned(v)), i + |Sleb(v)|) else Undefined
    decreases if v < 0 then -v else v
  {
    hide Or, Pow2, Finished, Odd;
    var n := |Sleb(v)|;
    assert bs[i] == Sleb(v)[0];
    OrGroup(shift, result, bs[i]);
    if !(-64 <= v < 64) {
      assert Sleb(v)[1..] == Sleb(v / 128);
      if shift < 28 {
        Continues(shift, result, v % 128, GarbledSigned(v / 128));
        assert bs[i + 1..i + n] == bs[i..i + n][1..];
        ReadsSleb(bs, i + 1, shift + 7, Or(result, bs[i] * Pow2(shift)), v / 128);
        Scales(shift, v);
      }
    }
  }

  predicate SlebFits(shift: nat, v: int) {
    v * Weight(shift) <= INT_MAX && (v >= 0 || (shift < 28 && v * Weight(shift) >= -0x800_0000))
  }

  // ---- When it reads the right number ----

  lemma {:induction false} GarbledIff(v: nat)
    ensures Garbled(v) >= v
    ensures Garbled(v) == v <==> Readable(v)
  {
    if v >= 128 {
      GarbledIff(v / 128);
    }
  }

  /** An unsigned number is read back exactly if it fits an int and, in each group of seven bits
      but the first, has the lowest bit set. */
  lemma UlebReadIff(bs: seq<Byte>, i: nat, v: nat)
    requires i + |Uleb(v)| <= |bs| && bs[i..i + |Uleb(v)|] == Uleb(v)
    ensures ReadFrom(bs, i, 0, 0) == Value(v, i + |Uleb(v)|) <==> v <= INT_MAX && Readable(v)
    ensures ReadFrom(bs, i, 0, 0) == if v <= INT_MAX then Value(Garbled(v), i + |Uleb(v)|) else Undefined
  {
    ReadsUleb(bs, i, 0, 0, v);
    GarbledIff(v);
  }

  lemma {:induction false} GarbledSignedIff(v: int)
    ensures v >= 0 ==> GarbledSigned(v) >= v
    ensures v >= 0 ==> (GarbledSigned(v) == v <==> ReadableSigned(v))
    decreases if v < 0 then -v else v
  {
    if v >= 64 {
      GarbledSignedIff(v / 128);
    }
  }

  /** The groups of a negative number are read without their sign. */
  lemma {:induction false} GarbledSignedSmall(shift: nat, v: int)
    requires shift in {0, 7, 14, 21} && SlebFits(shift, v) && v < 0
    ensures GarbledSigned(v) * Weight(shift) < 0x1000_0000 + 0x1000_0000
    decreases if v < 0 then -v else v
  {
    if v < -64 {
      assert shift < 21;
      Scales(shift, v);
      GarbledSignedSmall(shift + 7, v / 128);
    }
  }

  /** A signed number is added to a 32-bit register as it should be exactly if it is not negative
      and is read back; it is read at all if it is between -2^27 and INT_MAX. */
  lemma SlebAddsIff(bs: seq<Byte>, i: nat, v: int, line: nat)
    requires i + |Sleb(v)| <= |bs| && bs[i..i + |Sleb(v)|] == Sleb(v)
    ensures var r := ReadFrom(bs, i, 0, 0);
            && r == (if -0x800_0000 <= v <= INT_MAX then Value(GarbledSigned(v), i + |Sleb(v)|) else Undefined)
            && (r.Value? && (line + r.v) % 0x1_0000_0000 == (line + v) % 0x1_0000_0000
                <==> v <= INT_MAX && ReadableSigned(v))
  {
    hide ReadFrom, GarbledSigned, ReadableSigned, Sleb;
    ReadsSleb(bs, i, 0, 0, v);
    if -0x800_0000 <= v <= INT_MAX {
      GarbledAddsIff(v, line);
    } else {
      NegativeUnreadable(v);
    }
  }

  lemma NegativeUnreadable(v: int)
    ensures v < 0 ==> !ReadableSigned(v)
  {
  }

  lemma GarbledAddsIff(v: int, line: nat)
    requires -0x800_0000 <= v <= INT_MAX
    ensures (line + GarbledSigned(v)) % 0x1_0000_0000 == (line + v) % 0x1_0000_0000 <==> ReadableSigned(v)
  {
    hide GarbledSigned, ReadableSigned;
    GarbledSignedIff(v);
    NegativeUnreadable(v);
    if v < 0 {
      GarbledSignedSmall(0, v);
    } else {
      GarbledSignedBound(0, v);
    }
    SameModulo(line, GarbledSigned(v), v);
  }

  lemma {:induction false} GarbledSignedBound(shift: nat, v: int)
    requires Weight(shift) > 0 && v >= 0 && v * Weight(shift) <= INT_MAX
    ensures GarbledSigned(v) * Weight(shift) <= INT_MAX
    decreases v
  {
    if v >= 64 {
      assert shift < 28;
      Scales(shift, v);
      GarbledSignedBound(shift + 7, v / 128);
      OddBound(shift, v % 128, GarbledSigned(v / 128));
    }
  }

  lemma OddBound(shift: nat, low: nat, g: nat)
    requires shift in {0, 7, 14, 21} && low < 128 && g * Weight(shift + 7) <= INT_MAX
    ensures (low + 128 * Odd(g)) * Weight(shift) <= INT_MAX
  {
    if shift == 0 {
    } else if shift == 7 {
    } else if shift == 14 {
    }
  }

  lemma SameModulo(line: int, a: int, b: int)
    requires -0x1_0000_0000 < a - b < 0x1_0000_0000
    ensures (line + a) % 0x1_0000_0000 == (line + b) % 0x1_0000_0000 <==> a == b
  {
  }

  /** 256 is read as 384, and 64 as a line advance as 192. */
  lemma Misread()
    ensures ReadFrom(Uleb(256), 0, 0, 0) == Value(384, 2)
    ensures ReadFrom(Sleb(64), 0, 0, 0) == Value(192, 2)
    ensures ReadFrom(Sleb(-1), 0, 0, 0) == Value(127, 1)
  {
    hide ReadFrom;
    assert Uleb(2) == [2] && Uleb(256) == [128] + Uleb(2);
    assert Garbled(2) == 2 && Garbled(256) == 0 + 128 * Odd(Garbled(2));
    ReadsUleb(Uleb(256), 0, 0, 0, 256);
    MisreadSigned(64, [192, 0], 192);
    MisreadSigned(-1, [127], 127);
  }

  lemma MisreadSigned(v: int, bs: seq<Byte>, w: nat)
    requires Sleb(v) == bs && GarbledSigned(v) == w && -0x800_0000 <= v <= INT_MAX
    ensures ReadFrom(Sleb(v), 0, 0, 0) == Value(w, |bs|)
  {
    ReadsSleb(bs, 0, 0, 0, v);
  }

  // ---- The reader mended ----

  /** With the continuation bit masked out and the shift done in 64 bits; a shift by 64 or more
      still has no defined result. */
  function MendedFrom(bs: seq<Byte>, i: nat, shift: nat, result: nat): (r: Read)
    ensures r.Value? ==> i < r.next <= |bs|
    decreases |bs| - i
  {
    if i >= |bs| || shift >= 64 then Undefined
    else
      var r := Or(result, bs[i] % 128 * Pow2(shift) % U64);
      if bs[i] < 128 then Value(r, i + 1) else MendedFrom(bs, i + 1, shift + 7, r)
  }

  function Int64(x: nat): int {
    if x < 0x8000_0000_0000_0000 then x else x - U64
  }

  datatype Delta = Delta(v: int, next: nat) | NoDelta

  /** The same for signed numbers: the bits above the last group are filled with its sign. */
  function MendedSignedFrom(bs: seq<Byte>, i: nat, shift: nat, result: nat): (r: Delta)
    ensures r.Delta? ==> i < r.next <= |bs|
    decreases |bs| - i
  {
    if i >= |bs| || shift >= 64 then NoDelta
    else
      var r := Or(result, bs[i] % 128 * Pow2(shift) % U64);
      if bs[i] >= 128 then MendedSignedFrom(bs, i + 1, shift + 7, r)
      else if bs[i] >= 64 && shift + 7 < 64 then Delta(Int64(Or(r, Above(shift + 7))), i + 1)
      else Delta(Int64(r), i + 1)
  }

  /** The 64-bit word with all bits from `k` on set. */
  function Above(k: nat): nat
    requires k < 64
  {
    Pow2Grows(k, 64);
    Pow2Of64();
    U64 - Pow2(k)
  }

  lemma {:induction false} Pow2Grows(a: nat, b: nat)
    requires a <= b
    ensures Pow2(a) <= Pow2(b)
    decreases b
  {
    if a < b {
      Pow2Grows(a, b - 1);
    }
  }

  lemma {:induction false} Pow2Adds(a: nat, b: nat)
    ensures Pow2(a + b) == Pow2(a) * Pow2(b)
    decreases a
  {
    if a > 0 {
      Pow2Adds(a - 1, b);
      Twice(Pow2(b), Pow2(a - 1));
    }
  }

  lemma Pow2Of64()
    ensures Pow2(64) == U64 && Pow2(63) == 0x8000_0000_0000_0000
  {
    hide Pow2;
    SmallPow2();
    Pow2Adds(8, 8);
    Pow2Adds(16, 16);
    Pow2Adds(32, 32);
    Pow2Adds(1, 63);
  }

  lemma SmallPow2()
    ensures Pow2(0) == 1 && Pow2(1) == 2 && Pow2(7) == 0x80 && Pow2(8) == 0x100
  {
  }

  /** Or-ing in a group above all bits that are there adds it. */
  lemma {:induction false} OrDisjoint(a: nat, b: nat, s: nat)
    requires a < Pow2(s)
    ensures Or(a, b * Pow2(s)) == a + b * Pow2(s)
    decreases s
  {
    if s == 0 {
      OrZero(b);
    } else {
      var p := Pow2(s - 1);
      Twice(b, p);
      OrDisjoint(a / 2, b, s - 1);
      assert 2 * (b * p) % 2 == 0 && 2 * (b * p) / 2 == b * p;
    }
  }

  /** A number whose lowest bit is bit `shift`. */
  function Shifted(v: int, shift: nat): int {
    v * Pow2(shift)
  }

  lemma GroupSum(v: int, p: nat)
    ensures v * p == v % 128 * p + v / 128 * (128 * p)
    ensures v % 128 * p + p <= 128 * p
  {
    GroupParts(v % 128, v / 128, p);
    TopGroup(v % 128, p);
  }

  lemma GroupParts(low: int, high: int, p: int)
    ensures (low + 128 * high) * p == low * p + high * (128 * p)
  {
  }

  lemma TopGroup(low: nat, p: nat)
    requires low < 128
    ensures low * p + p <= 128 * p
  {
  }

  lemma GroupAt(v: int, shift: nat)
    ensures Shifted(v, shift) == Shifted(v % 128, shift) + Shifted(v / 128, shift + 7)
    ensures 0 <= Shifted(v % 128, shift) && Shifted(v % 128, shift) + Pow2(shift) <= Pow2(shift + 7)
    ensures Pow2(shift + 7) == 128 * Pow2(shift)
  {
    Pow2Adds(7, shift);
    assert Pow2(7) == 128;
    hide Pow2;
    GroupSum(v, Pow2(shift));
  }

  lemma AtLeast(v: nat, shift: nat)
    requires v > 0
    ensures Shifted(v, shift) >= Pow2(shift)
  {
    hide Pow2;
    assert (v - 1) * Pow2(shift) >= 0;
  }

  /** Or-ing in one more group of a word. */
  lemma OrNext(shift: nat, result: nat, low: nat)
    requires result < Pow2(shift) && result + Shifted(low, shift) < U64
    ensures Or(result, low * Pow2(shift) % U64) == result + Shifted(low, shift)
  {
    hide Pow2, Or;
    assert low * Pow2(shift) % U64 == low * Pow2(shift);
    OrDisjoint(result, low, shift);
  }

  lemma ShiftBelow64(shift: nat)
    requires Pow2(shift) < U64
    ensures shift < 64
  {
    hide Pow2;
    if shift >= 64 {
      Pow2Grows(64, shift);
      Pow2Of64();
    }
  }

  lemma LowSeven(low: nat)
    requires low < 128
    ensures (low + 128) % 128 == low && low % 128 == low
  {
  }

  /** A step over a group that is not the last. */
  lemma MendedStep(bs: seq<Byte>, i: nat, shift: nat, result: nat, v: nat)
    requires shift < 64 && result < Pow2(shift) && result + Shifted(v, shift) < U64 && v >= 128
    requires i < |bs| && bs[i] == v % 128 + 128
    ensures shift + 7 < 64 && 0 <= result + Shifted(v % 128, shift) < Pow2(shift + 7)
    ensures MendedFrom(bs, i, shift, result) == MendedFrom(bs, i + 1, shift + 7, result + Shifted(v % 128, shift))
    ensures Shifted(v % 128, shift) + Shifted(v / 128, shift + 7) == Shifted(v, shift)
  {
    hide Or, Pow2, Shifted;
    var low, high := v % 128, v / 128;
    assert high > 0;
    GroupAt(v, shift);
    AtLeast(high, shift + 7);
    OrNext(shift, result, low);
    ShiftBelow64(shift + 7);
    LowSeven(low);
  }

  /** The mended reader undoes the encoding of every number below 2^64. */
  lemma {:induction false} MendedReadsUleb(bs: seq<Byte>, i: nat, shift: nat, result: nat, v: nat)
    requires shift < 64 && result < Pow2(shift) && result + Shifted(v, shift) < U64
    requires i + |Uleb(v)| <= |bs| && bs[i..i + |Uleb(v)|] == Uleb(v)
    ensures MendedFrom(bs, i, shift, result) == Value(result + Shifted(v, shift), i + |Uleb(v)|)
    decreases v
  {
    hide Or, Pow2, Shifted, MendedFrom;
    var n := |Uleb(v)|;
    assert bs[i] == Uleb(v)[0];
    if v < 128 {
      MendedLast(bs, i, shift, result, v);
    } else {
      MendedStep(bs, i, shift, result, v);
      assert Uleb(v)[1..] == Uleb(v / 128);
      assert bs[i + 1..i + n] == bs[i..i + n][1..];
      MendedReadsUleb(bs, i + 1, shift + 7, result + Shifted(v % 128, shift), v / 128);
    }
  }

  lemma MendedLast(bs: seq<Byte>, i: nat, shift: nat, result: nat, v: nat)
    requires shift < 64 && result < Pow2(shift) && result + Shifted(v, shift) < U64
    requires i < |bs| && v < 128 && bs[i] == v
    ensures MendedFrom(bs, i, shift, result) == Value(result + Shifted(v, shift), i + 1)
  {
    hide Or, Pow2, Shifted;
    OrNext(shift, result, v);
  }

  lemma AtNone(shift: nat)
    ensures Shifted(0, shift) == 0
  {
  }

  const MIN64: int := -0x8000_0000_0000_0000

  /** One more group below the sign bit of the word. */
  lemma LowGroup(shift: nat, result: nat, v: int)
    requires shift + 7 <= 63 && result < Pow2(shift)
    ensures var r := Or(result, v % 128 * Pow2(shift) % U64);
            && r == result + Shifted(v % 128, shift) && r < Pow2(shift + 7) <= -MIN64
            && r + Shifted(v / 128, shift + 7) == result + Shifted(v, shift)
  {
    hide Or, Pow2, Shifted;
    GroupAt(v, shift);
    Pow2Grows(shift + 7, 63);
    Pow2Of64();
    OrNext(shift, result, v % 128);
  }

  /** Filling with the sign. */
  lemma OrAbove(r: nat, k: nat)
    requires k <= 63 && r < Pow2(k)
    ensures Or(r, Above(k)) == r + U64 - Pow2(k) && Int64(r + U64 - Pow2(k)) == r - Pow2(k)
  {
    hide Or, Pow2;
    Pow2Of64();
    Pow2Grows(k, 63);
    Pow2Adds(64 - k, k);
    AllBut(Pow2(64 - k), Pow2(k));
    OrDisjoint(r, Pow2(64 - k) - 1, k);
  }

  lemma AllBut(a: int, b: int)
    ensures (a - 1) * b == a * b - b
  {
  }

  /** The last group of a number. */
  lemma LastGroup(bs: seq<Byte>, i: nat, shift: nat, result: nat, v: int)
    requires shift + 7 <= 63 && result < Pow2(shift) && -64 <= v < 64
    requires i < |bs| && bs[i] == v % 128
    ensures MendedSignedFrom(bs, i, shift, result) == Delta(result + Shifted(v, shift), i + 1)
  {
    hide Or, Pow2, Shifted;
    LowGroup(shift, result, v);
    if v < 0 {
      assert v / 128 == -1;
      OrAbove(result + Shifted(v % 128, shift), shift + 7);
      MinusOne(shift + 7);
    } else {
      assert v / 128 == 0;
      AtNone(shift + 7);
    }
  }

  lemma MinusOne(shift: nat)
    ensures Shifted(-1, shift) == 0 - Pow2(shift)
  {
  }

  /** The tenth group has room for the sign alone. */
  lemma TenthGroup(bs: seq<Byte>, i: nat, result: nat, v: int)
    requires v in {0, -1} && result < -MIN64
    requires i < |bs| && bs[i] == v % 128
    ensures MendedSignedFrom(bs, i, 63, result) == Delta(result + Shifted(v, 63), i + 1)
  {
    hide Or, Pow2;
    Pow2Of64();
    OrDisjoint(result, if v == 0 then 0 else 1, 63);
  }

  /** A step over a group that is not the last. */
  lemma MendedContinues(bs: seq<Byte>, i: nat, shift: nat, result: nat, v: int)
    requires shift + 7 <= 63 && result < Pow2(shift)
    requires i < |bs| && bs[i] == v % 128 + 128
    ensures 0 <= result + Shifted(v % 128, shift) < Pow2(shift + 7)
    ensures MendedSignedFrom(bs, i, shift, result)
         == MendedSignedFrom(bs, i + 1, shift + 7, result + Shifted(v % 128, shift))
    ensures result + Shifted(v % 128, shift) + Shifted(v / 128, shift + 7) == result + Shifted(v, shift)
  {
    hide Or, Pow2, Shifted;
    LowSeven(v % 128);
    LowGroup(shift, result, v);
  }

  /** The mended signed reader undoes the encoding of every 64-bit number, negative ones included;
      group `k` starts at bit 7 k. */
  lemma {:induction false} MendedReadsSleb(bs: seq<Byte>, i: nat, k: nat, result: nat, v: int)
    requires k <= 9 && result < Pow2(7 * k) && MIN64 <= result + Shifted(v, 7 * k) < -MIN64
    requires i + |Sleb(v)| <= |bs| && bs[i..i + |Sleb(v)|] == Sleb(v)
    ensures MendedSignedFrom(bs, i, 7 * k, result) == Delta(result + Shifted(v, 7 * k), i + |Sleb(v)|)
    decreases if v < 0 then -v else v
  {
    hide Or, Pow2, Shifted, MendedSignedFrom;
    var n := |Sleb(v)|;
    assert bs[i] == Sleb(v)[0];
    if k == 9 {
      assert Shifted(v, 63) == 0 - v * MIN64 && Pow2(63) == -MIN64 by { SignBit(v); }
      TenthOnly(result, v);
      TenthGroup(bs, i, result, v);
    } else if -64 <= v < 64 {
      LastGroup(bs, i, 7 * k, result, v);
    } else {
      MendedContinues(bs, i, 7 * k, result, v);
      assert Sleb(v)[1..] == Sleb(v / 128);
      assert bs[i + 1..i + n] == bs[i..i + n][1..];
      MendedReadsSleb(bs, i + 1, k + 1, result + Shifted(v % 128, 7 * k), v / 128);
    }
  }

  lemma SignBit(v: int)
    ensures Shifted(v, 63) == 0 - v * MIN64 && Pow2(63) == -MIN64
  {
    hide Pow2;
    Pow2Of64();
  }

  lemma TenthOnly(result: nat, v: int)
    requires result < -MIN64 && MIN64 <= result - v * MIN64 < -MIN64
    ensures v in {0, -1}
  {
  }

  // ---- Either reader ----

  datatype Reader = AsWritten | Mended

  function ReadNumber(rd: Reader, bs: seq<Byte>, pos: nat): (r: Read)
    ensures r.Value? ==> pos < r.next <= |bs|
  {
    ReadsOn(bs, pos, 0, 0);
    match rd
    case AsWritten => ReadFrom(bs, pos, 0, 0)
    case Mended => MendedFrom(bs, pos, 0, 0)
  }

  /** As written, there is no signed reader. */
  function ReadDelta(rd: Reader, bs: seq<Byte>, pos: nat): (r: Delta)
    ensures r.Delta? ==> pos < r.next <= |bs|
  {
    match rd
    case AsWritten => (match ReadNumber(rd, bs, pos)
                       case Value(v, next) => Delta(v, next)
                       case Undefined => NoDelta)
    case Mended => MendedSignedFrom(bs, pos, 0, 0)
  }

  /** Numbers whose encoding the reader has a defined result for, and that result. */
  predicate Takes(rd: Reader, v: nat) {
    match rd
    case AsWritten => v <= INT_MAX
    case Mended => v < U64
  }

  predicate TakesDelta(rd: Reader, v: int) {
    match rd
    case AsWritten => -0x800_0000 <= v <= INT_MAX
    case Mended => MIN64 <= v < -MIN64
  }

  function NumberAsRead(rd: Reader, v: nat): nat {
    match rd
    case AsWritten => Garbled(v)
    case Mended => v
  }

  function DeltaAsRead(rd: Reader, v: int): int {
    match rd
    case AsWritten => GarbledSigned(v)
    case Mended => v
  }

  lemma NumberReads(rd: Reader, bs: seq<Byte>, i: nat, v: nat)
    requires i + |Uleb(v)| <= |bs| && bs[i..i + |Uleb(v)|] == Uleb(v) && Takes(rd, v)
    ensures ReadNumber(rd, bs, i) == Value(NumberAsRead(rd, v), i + |Uleb(v)|)
  {
    hide ReadFrom, MendedFrom, Uleb, Garbled;
    match rd {
      case AsWritten => UlebReadIff(bs, i, v);
      case Mended =>
        assert Pow2(0) == 1 && Shifted(v, 0) == v;
        MendedReadsUleb(bs, i, 0, 0, v);
    }
  }

  lemma DeltaReads(rd: Reader, bs: seq<Byte>, i: nat, v: int)
    requires i + |Sleb(v)| <= |bs| && bs[i..i + |Sleb(v)|] == Sleb(v) && TakesDelta(rd, v)
    ensures ReadDelta(rd, bs, i) == Delta(DeltaAsRead(rd, v), i + |Sleb(v)|)
  {
    hide ReadFrom, MendedSignedFrom, Sleb, GarbledSigned;
    match rd {
      case AsWritten => SlebAddsIff(bs, i, v, 0);
      case Mended =>
        assert Pow2(0) == 1 && Shifted(v, 0) == v;
        MendedReadsSleb(bs, i, 0, 0, v);
    }
  }

  /** The mended reader takes back every number and every delta; as written, the reader does so
      for those that have the lowest bit set in each group but the first and are not negative. */
  lemma AsReadIff(rd: Reader, v: nat, delta: int)
    ensures NumberAsRead(rd, v) == v <==> rd.Mended? || Readable(v)
    ensures DeltaAsRead(rd, delta) == delta <==> rd.Mended? || ReadableSigned(delta)
  {
    GarbledIff(v);
    GarbledSignedIff(delta);
  }
}
