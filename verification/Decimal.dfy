/** Reading a size from a command argument. */
module Decimal {
  import opened Bytes
  import opened Arithmetic

  /** `Address`: left to read_address. `Rejected`: throws Exception. */
  datatype Reading = Size(n: nat) | Address | Rejected

  predicate IsDigit(c: char) {
    '0' <= c <= '9'
  }

  predicate IsSpace(c: char) {
    c == ' ' || 9 as char <= c <= 13 as char
  }

  function Digit(c: char): nat
    requires IsDigit(c)
  {
    (c - '0') as nat
  }

  // ---- The standard library ----

  /** The sign of strcmp(a, b), not greater. */
  predicate StrLe(a: string, b: string) {
    a == [] || (b != [] && if a[0] == b[0] then StrLe(a[1..], b[1..]) else a[0] < b[0])
  }

  function SpacesEnd(s: string, i: nat): (end: nat)
    requires i <= |s|
    ensures i <= end <= |s| && (forall k :: i <= k < end ==> IsSpace(s[k])) && (end < |s| ==> !IsSpace(s[end]))
    decreases |s| - i
  {
    if i < |s| && IsSpace(s[i]) then SpacesEnd(s, i + 1) else i
  }

  function DigitsEnd(s: string, i: nat): (end: nat)
    requires i <= |s|
    ensures i <= end <= |s| && (forall k :: i <= k < end ==> IsDigit(s[k])) && (end < |s| ==> !IsDigit(s[end]))
    decreases |s| - i
  {
    if i < |s| && IsDigit(s[i]) then DigitsEnd(s, i + 1) else i
  }

  /** The number that a string of digits is worth. */
  function Worth(s: string): nat
    requires forall k :: 0 <= k < |s| ==> IsDigit(s[k])
  {
    if s == [] then 0 else 10 * Worth(s[..|s| - 1]) + Digit(s[|s| - 1])
  }

  /** Where the digits of a number begin, after blanks and a sign. */
  function NumberStart(s: string): (from: nat)
    ensures from <= |s|
  {
    var i := SpacesEnd(s, 0);
    if i < |s| && (s[i] == '-' || s[i] == '+') then i + 1 else i
  }

  predicate Negated(s: string) {
    var i := SpacesEnd(s, 0);
    i < |s| && s[i] == '-'
  }

  datatype Scan = Scan(value: nat, len: nat) | NoNumber

  /** sscanf with "%zu%n": blanks, a sign, digits. A number too large is cut off at the greatest,
      and a minus sign negates modulo 2^64. */
  function Scanned(s: string): Scan {
    var from := NumberStart(s);
    var end := DigitsEnd(s, from);
    if end == from then NoNumber
    else
      var n := Worth(s[from..end]);
      Scan(if n >= U64 then U64 - 1 else if Negated(s) then (U64 - n) % U64 else n, end)
  }

  // ---- read_size ----

  const GREATEST: string := "18446744073709551615"

  /** Left to read_address. */
  predicate Addressed(s: string) {
    (|s| >= 2 && s[..2] == "0x") || (|s| >= 1 && s[0] == '%')
  }

  function ReadSize(s: string): Reading {
    if Addressed(s) then Address
    else if |s| <= 20 && (|s| < 20 || StrLe(s, GREATEST)) then
      match Scanned(s)
      case Scan(value, len) => if len == |s| then Size(value) else Rejected
      case NoNumber => Rejected
    else Rejected
  }

  // ---- Digits ----

  ghost predicate Digits(s: string) {
    forall k :: 0 <= k < |s| ==> IsDigit(s[k])
  }

  function Pow10(n: nat): (p: nat)
    ensures p > 0
    decreases n
  {
    if n == 0 then 1 else 10 * Pow10(n - 1)
  }

  lemma {:induction false} WorthBelow(s: string)
    requires Digits(s)
    ensures Worth(s) < Pow10(|s|)
    decreases |s|
  {
    if s != [] {
      WorthBelow(s[..|s| - 1]);
    }
  }

  /** The first digit counts most. */
  lemma {:induction false} WorthFirst(s: string)
    requires Digits(s) && s != []
    ensures Worth(s) == Digit(s[0]) * Pow10(|s| - 1) + Worth(s[1..])
    decreases |s|
  {
    var start := s[..|s| - 1];
    if |s| == 1 {
      assert start == [] && s[1..] == [];
    } else {
      WorthFirst(start);
      assert s[1..][..|s| - 2] == start[1..];
      assert Worth(s[1..]) == 10 * Worth(start[1..]) + Digit(s[|s| - 1]);
      var p := Pow10(|s| - 2);
      TimesTen(Digit(s[0]), p);
    }
  }

  lemma TimesTen(d: nat, p: nat)
    ensures 10 * (d * p) == d * (10 * p)
  {
  }

  /** On strings of digits of one length, the order of strcmp is the order of numbers. */
  lemma {:induction false} StringOrder(a: string, b: string)
    requires Digits(a) && Digits(b) && |a| == |b|
    ensures StrLe(a, b) <==> Worth(a) <= Worth(b)
    decreases |a|
  {
    if a != [] {
      WorthFirst(a);
      WorthFirst(b);
      WorthBelow(a[1..]);
      WorthBelow(b[1..]);
      StringOrder(a[1..], b[1..]);
      var p := Pow10(|a| - 1);
      if a[0] < b[0] {
        MulMore(Digit(b[0]), Digit(a[0]), p);
      } else if b[0] < a[0] {
        MulMore(Digit(a[0]), Digit(b[0]), p);
      }
    }
  }

  lemma AllDigits(s: string, i: nat)
    requires Digits(s) && i <= |s|
    ensures DigitsEnd(s, i) == |s|
  {
  }

  lemma {:induction false} Pow10Grows(a: nat, b: nat)
    requires a <= b
    ensures Pow10(a) <= Pow10(b)
    decreases b
  {
    if a < b {
      Pow10Grows(a, b - 1);
    }
  }

  lemma NextDigit(s: string, k: nat)
    requires k < |s| && Digits(s)
    ensures Worth(s[..k + 1]) == 10 * Worth(s[..k]) + Digit(s[k])
  {
    assert s[..k + 1][..k] == s[..k];
  }

  lemma FiveDigits(s: string, k: nat)
    requires k + 5 <= |s| && Digits(s)
    ensures Worth(s[..k + 5]) == 10_0000 * Worth(s[..k]) + 1_0000 * Digit(s[k]) + 1000 * Digit(s[k + 1])
                                 + 100 * Digit(s[k + 2]) + 10 * Digit(s[k + 3]) + Digit(s[k + 4])
  {
    hide Worth, Digit;
    NextDigit(s, k);
    NextDigit(s, k + 1);
    NextDigit(s, k + 2);
    NextDigit(s, k + 3);
    NextDigit(s, k + 4);
  }

  lemma GreatestWorth()
    ensures Digits(GREATEST) && |GREATEST| == 20 && Worth(GREATEST) == U64 - 1
  {
    hide Worth;
    var s := GREATEST;
    NoDigits(s[..0]);
    FiveDigits(s, 0);
    assert Worth(s[..5]) == 18446;
    FiveDigits(s, 5);
    assert Worth(s[..10]) == 18446_74407;
    FiveDigits(s, 10);
    assert Worth(s[..15]) == 18446_74407_37095;
    FiveDigits(s, 15);
    assert s[..20] == s;
  }

  lemma NoDigits(s: string)
    requires s == []
    ensures Worth(s) == 0
  {
  }

  lemma Powers()
    ensures Pow10(19) == 1000_0000_0000_0000_0000 && U64 <= Pow10(20)
  {
    hide Pow10;
    FiveZeros(0);
    FiveZeros(5);
    FiveZeros(10);
    FiveZeros(15);
    OneZero(19);
    NoZero();
  }

  lemma NoZero()
    ensures Pow10(0) == 1
  {
  }

  lemma OneZero(n: nat)
    ensures Pow10(n + 1) == 10 * Pow10(n)
  {
  }

  lemma FiveZeros(n: nat)
    ensures Pow10(n + 5) == 10_0000 * Pow10(n)
  {
    hide Pow10;
    OneZero(n);
    OneZero(n + 1);
    OneZero(n + 2);
    OneZero(n + 3);
    OneZero(n + 4);
  }

  lemma ScannedDigits(s: string)
    requires Digits(s) && s != []
    ensures Scanned(s) == Scan(if Worth(s) >= U64 then U64 - 1 else Worth(s), |s|)
  {
    hide Worth;
    AllDigits(s, 0);
    assert IsDigit(s[0]) && !IsSpace(s[0]);
    assert s[0..|s|] == s;
  }

  lemma NoPrefix(s: string)
    requires Digits(s)
    ensures !Addressed(s)
  {
    if |s| >= 2 {
      assert s[..2][1] == s[1] && IsDigit(s[1]);
    }
  }

  /** A string of digits is accepted exactly if it has at most 20 of them and its number is below
      2^64, and then the number is what it says. */
  lemma DigitsAcceptedIff(s: string)
    requires Digits(s) && s != []
    ensures ReadSize(s).Size? <==> |s| <= 20 && Worth(s) < U64
    ensures ReadSize(s).Size? ==> ReadSize(s).n == Worth(s)
    ensures !ReadSize(s).Size? ==> ReadSize(s) == Rejected
  {
    hide Worth, Pow10, Scanned, StrLe;
    GreatestWorth();
    Powers();
    WorthBelow(s);
    ScannedDigits(s);
    NoPrefix(s);
    if |s| < 20 {
      Pow10Grows(|s|, 19);
    } else if |s| == 20 {
      StringOrder(s, GREATEST);
    }
  }

  // ---- Any string ----

  /** Blanks, a sign, and at least one digit up to the end. */
  predicate Spells(s: string) {
    NumberStart(s) < |s| && DigitsEnd(s, NumberStart(s)) == |s|
  }

  function Magnitude(s: string): nat
    requires Spells(s)
  {
    Worth(s[NumberStart(s)..])
  }

  function Spelt(s: string): int
    requires Spells(s)
  {
    if Negated(s) then 0 - Magnitude(s) else Magnitude(s)
  }

  lemma ScannedSpells(s: string)
    ensures Scanned(s).Scan? && Scanned(s).len == |s| <==> Spells(s)
    ensures Spells(s) ==> Scanned(s).value == if Magnitude(s) >= U64 then U64 - 1 else Spelt(s) % U64
  {
    hide Worth;
    if Spells(s) {
      var from := NumberStart(s);
      assert s[from..|s|] == s[from..];
    }
  }

  /** A blank or a sign comes before every digit in the order of strcmp. */
  lemma PaddedIsLess(s: string)
    requires Spells(s) && NumberStart(s) > 0
    ensures StrLe(s, GREATEST)
  {
    assert GREATEST[0] == '1';
  }

  lemma MagnitudeBelow(s: string)
    requires Spells(s)
    ensures Magnitude(s) < Pow10(|s| - NumberStart(s))
  {
    WorthBelow(s[NumberStart(s)..]);
  }

  /** A string that is not left to read_address is accepted exactly if it spells a number with at
      most 20 characters in all and a magnitude below 2^64; the number read is that number modulo
      2^64, so it is the number that is spelt exactly without a minus sign, or for zero. */
  lemma ReadsSpeltIff(s: string)
    ensures ReadSize(s).Size? <==> !Addressed(s) && Spells(s) && |s| <= 20 && Magnitude(s) < U64
    ensures ReadSize(s).Size? ==> ReadSize(s).n == Spelt(s) % U64
    ensures ReadSize(s).Size? ==> (ReadSize(s).n == Spelt(s) <==> !Negated(s) || Magnitude(s) == 0)
    ensures ReadSize(s).Size? ==>
              (ReadSize(s).n == Magnitude(s) <==> !Negated(s) || Magnitude(s) in {0, 0x8000_0000_0000_0000})
  {
    hide Worth, Pow10, Scanned, StrLe, Negated, Addressed;
    ScannedSpells(s);
    if Spells(s) && |s| <= 20 {
      Powers();
      if NumberStart(s) == 0 {
        assert s[0..] == s && Digits(s);
        DigitsAcceptedIff(s);
      } else {
        PaddedIsLess(s);
        MagnitudeBelow(s);
        Pow10Grows(|s| - NumberStart(s), 19);
      }
      Wraps(Magnitude(s));
    }
  }

  /** A size is left to read_address exactly if it begins with 0x or a percent sign. */
  lemma AddressIff(s: string)
    ensures ReadSize(s) == Address <==> (|s| >= 2 && s[0] == '0' && s[1] == 'x') || (|s| >= 1 && s[0] == '%')
  {
    hide Scanned, StrLe;
    if |s| >= 2 { assert s[..2] == [s[0], s[1]]; }
  }

  /** What isspace accepts, a sign or none, and digits. */
  ghost predicate Parts(blanks: string, sign: string, digits: string) {
    && (forall k :: 0 <= k < |blanks| ==> blanks[k] in {' ', '\t', '\n', 11 as char, 12 as char, '\r'})
    && sign in {"", "+", "-"} && digits != [] && Digits(digits)
  }

  lemma PartsStart(blanks: string, sign: string, digits: string)
    requires Parts(blanks, sign, digits)
    ensures var s := blanks + sign + digits;
            && NumberStart(s) == |blanks| + |sign| && Spells(s) && Magnitude(s) == Worth(digits)
            && (Negated(s) <==> sign == "-") && !Addressed(s)
  {
    hide Worth, SpacesEnd, DigitsEnd;
    var s, b, from := blanks + sign + digits, |blanks|, |blanks| + |sign|;
    BlanksEnd(blanks, sign, digits);
    assert s[from..] == digits;
    forall k | from <= k < |s| ensures IsDigit(s[k]) {
      assert s[k] == digits[k - from];
    }
    assert from > b ==> s[b] == sign[0];
    NotAddressed(blanks, sign, digits);
  }

  lemma BlanksEnd(blanks: string, sign: string, digits: string)
    requires Parts(blanks, sign, digits)
    ensures SpacesEnd(blanks + sign + digits, 0) == |blanks|
  {
    hide SpacesEnd;
    var s, b := blanks + sign + digits, |blanks|;
    forall k | 0 <= k < b ensures IsSpace(s[k]) {
      assert s[k] == blanks[k];
    }
    assert s[b] == if sign == "" then digits[0] else sign[0];
    assert !IsSpace(s[b]);
  }

  lemma NotAddressed(blanks: string, sign: string, digits: string)
    requires Parts(blanks, sign, digits)
    ensures !Addressed(blanks + sign + digits)
  {
    var s := blanks + sign + digits;
    assert s[0] == if blanks != "" then blanks[0] else if sign != "" then sign[0] else digits[0];
    if |s| >= 2 && s[0] == '0' {
      assert s[1] == digits[1] && s[..2][1] == s[1];
    } else if |s| >= 2 {
      assert s[..2][0] == s[0];
    }
  }

  /** Blanks, a sign and digits, with at most 20 characters in all, are read as the number that the digits
      are worth, or as its negation modulo 2^64; with a number of 2^64 or more they are rejected. */
  lemma PartsAreRead(blanks: string, sign: string, digits: string)
    requires Parts(blanks, sign, digits)
    ensures var s, n := blanks + sign + digits, Worth(digits);
            ReadSize(s) == if |s| > 20 || n >= U64 then Rejected else Size(if sign == "-" then (U64 - n) % U64 else n)
  {
    hide ReadSize, Spells, Negated, Magnitude, NumberStart, Parts;
    var s := blanks + sign + digits;
    PartsStart(blanks, sign, digits);
    ReadsSpeltIff(s);
    AddressIff(s);
    RejectedElse(s);
  }

  lemma RejectedElse(s: string)
    ensures !Addressed(s) && !ReadSize(s).Size? ==> ReadSize(s) == Rejected
  {
    hide Scanned, StrLe, Addressed;
  }

  /** Nothing else is read as a size. */
  lemma SizeHasParts(s: string) returns (blanks: string, sign: string, digits: string)
    requires ReadSize(s).Size?
    ensures Parts(blanks, sign, digits) && s == blanks + sign + digits
  {
    hide Worth, ReadSize;
    ReadsSpeltIff(s);
    var b, from := SpacesEnd(s, 0), NumberStart(s);
    blanks, sign, digits := s[..b], s[b..from], s[from..];
    if from > b { assert sign == [s[b]]; }
  }

  lemma Wraps(n: nat)
    ensures n < U64 ==> n % U64 == n
    ensures 0 < n < U64 ==> (0 - n) % U64 == U64 - n
  {
  }

  // ---- Printing ----

  function Print(n: nat): (s: string)
    ensures s != [] && Digits(s)
  {
    if n < 10 then [DigitChar(n)] else Print(n / 10) + [DigitChar(n % 10)]
  }

  function DigitChar(d: nat): (c: char)
    requires d < 10
    ensures IsDigit(c) && Digit(c) == d
  {
    '0' + d as char
  }

  lemma {:induction false} PrintWorth(n: nat, k: nat)
    requires n < Pow10(k) && k > 0
    ensures Worth(Print(n)) == n && |Print(n)| <= k
    decreases n
  {
    var s := Print(n);
    if n < 10 {
      assert s[..0] == [];
    } else {
      assert k > 1;
      PrintWorth(n / 10, k - 1);
      assert s[..|s| - 1] == Print(n / 10);
    }
  }

  /** Printing any 64-bit number and reading it gives it back. */
  lemma PrintedIsRead(n: nat)
    requires n < U64
    ensures ReadSize(Print(n)) == Size(n)
  {
    Powers();
    PrintWorth(n, 20);
    DigitsAcceptedIff(Print(n));
  }

  /** So does, for want of a check, reading a number with a minus sign before it: as its negation
      modulo 2^64. */
  lemma MinusIsRead(n: nat)
    requires 0 < n < 1000_0000_0000_0000_0000
    ensures ReadSize("-" + Print(n)) == Size(U64 - n)
  {
    hide Worth, Pow10;
    Powers();
    PrintWorth(n, 19);
    var s := "-" + Print(n);
    assert s[1..] == Print(n) && s[0] == '-' && Digits(Print(n));
    DigitsAfter(s, 1);
    if |s| >= 2 { assert s[..2][0] == '-'; }
    ReadsSpeltIff(s);
  }

  lemma DigitsAfter(s: string, i: nat)
    requires 0 < i <= |s| && Digits(s[1..])
    ensures DigitsEnd(s, i) == |s|
  {
    forall k | i <= k < |s| ensures IsDigit(s[k]) {
      assert s[k] == s[1..][k - 1];
    }
  }
}
