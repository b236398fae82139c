/** Looking a symbol up through the GNU hash table of a shared object, and by a plain scan. */
module GnuHash {
  import opened Arithmetic
  import opened Bytes
  import opened Wrappers

  type Name = seq<Byte>

  // ---- The hash function ----

  function Fold(s: Name, h: nat, modulus: nat): nat
    requires modulus > 0
    decreases |s|
  {
    if s == [] then h else Fold(s[1..], (h * 33 + s[0]) % modulus, modulus)
  }

  /** The hash of the format: 32-bit arithmetic. */
  function Hash(s: Name): nat {
    Fold(s, 5381, U32)
  }

  lemma {:induction false} FoldSnoc(s: Name, c: Byte, h: nat, modulus: nat)
    requires modulus > 0
    ensures Fold(s + [c], h, modulus) == (Fold(s, h, modulus) * 33 + c) % modulus
    decreases |s|
  {
    if s == [] {
      assert s + [c] == [c] && [c][1..] == [];
    } else {
      assert (s + [c])[1..] == s[1..] + [c];
      FoldSnoc(s[1..], c, (h * 33 + s[0]) % modulus, modulus);
    }
  }

  /** The hash of every name, from its first byte to its last. */
  lemma HashAppends(s: Name, c: Byte)
    ensures Hash([]) == 5381 && Hash(s + [c]) == (Hash(s) * 33 + c) % U32
  {
    FoldSnoc(s, c, 5381, U32);
  }

  lemma ModOfMod(x: nat)
    ensures x % U64 % U32 == x % U32
  {
    assert x == U64 * (x / U64) + x % U64;
    assert x % U64 == x - U32 * (U32 * (x / U64));
    ModShift(x % U64, U32 * (x / U64));
  }

  lemma {:induction false} ModShift(x: nat, k: nat)
    ensures (x + U32 * k) % U32 == x % U32
    decreases k
  {
    if k > 0 {
      ModShift(x, k - 1);
      assert x + U32 * k == (x + U32 * (k - 1)) + U32;
    }
  }

  lemma StepModulo(h: nat, c: nat)
    ensures (h * 33 + c) % U32 == (h % U32 * 33 + c) % U32
  {
    var k := 33 * (h / U32);
    assert h * 33 + c == h % U32 * 33 + c + U32 * k;
    ModShift(h % U32 * 33 + c, k);
  }

  /** Working in 64 bits and masking once at the end gives the same as wrapping at every step. */
  lemma {:induction false} MaskOnce(s: Name, h: nat)
    ensures Fold(s, h, U64) % U32 == Fold(s, h % U32, U32) % U32
    decreases |s|
  {
    if s != [] {
      var h64 := (h * 33 + s[0]) % U64;
      MaskOnce(s[1..], h64);
      ModOfMod(h * 33 + s[0]);
      StepModulo(h, s[0]);
    }
  }

  lemma {:induction false} FoldSmall(s: Name, h: nat)
    requires h < U32
    ensures Fold(s, h, U32) < U32
    decreases |s|
  {
    if s != [] {
      FoldSmall(s[1..], (h * 33 + s[0]) % U32);
    }
  }

  method DlNewHash(s: Name) returns (r: nat)
    ensures r == Hash(s) && r < U32
  {
    var h: nat, i := 5381, 0;
    while i < |s|
      invariant 0 <= i <= |s|
      invariant Fold(s, 5381, U64) == Fold(s[i..], h, U64)
    {
      h := (h * 33 + s[i]) % U64;
      assert s[i..][1..] == s[i + 1..];
      i := i + 1;
    }
    r := h % U32;
    MaskOnce(s, 5381);
    FoldSmall(s, 5381);
  }

  // ---- The table ----

  datatype Sym = Sym(name: Name, value: nat, isFunc: bool)

  datatype Table = Table(
    symndx: nat,
    maskwords: nat,
    shift2: nat,
    bloom: seq<nat>,
    buckets: seq<nat>,
    symhash: seq<nat>)

  /** The filter is switched off by a single zero word. */
  predicate Passes(t: Table, hash: nat)
    requires 0 < t.maskwords == |t.bloom|
  {
    (t.maskwords != 1 || t.bloom[0] != 0) ==>
      var mask := t.bloom[And(hash / 64, t.maskwords - 1)];
      Bit(mask, hash % 64) && Bit(mask, hash / Pow2(t.shift2) % 64)
  }

  /** With a power of two of words, the word of the filter that is used is the hash in units of 64, modulo
      their number. */
  lemma {:induction false} AndMask(a: nat, k: nat)
    ensures And(a, Pow2(k) - 1) == a % Pow2(k)
    decreases k
  {
    if k == 0 {
      assert Pow2(k) == 1 && And(a, 0) == 0;
    } else {
      hide And, Pow2;
      var p := Pow2(k - 1);
      Pow2Doubles(k);
      AndMask(a / 2, k - 1);
      MaskStep(a, p, Pow2(k));
    }
  }

  lemma MaskStep(a: nat, p: nat, q: nat)
    requires p > 0 && q == 2 * p && And(a / 2, p - 1) == a / 2 % p
    ensures And(a, q - 1) == a % q
  {
    hide And;
    AndOdd(a, p);
    HalfRemainder(a, p);
  }

  lemma Pow2Doubles(k: nat)
    requires k > 0
    ensures Pow2(k) == 2 * Pow2(k - 1)
  {
  }

  lemma AndOdd(a: nat, p: nat)
    requires p > 0
    ensures And(a, 2 * p - 1) == a % 2 + 2 * And(a / 2, p - 1)
  {
    var b := 2 * p - 1;
    assert b / 2 == p - 1 && b % 2 == 1;
  }

  lemma HalfRemainder(a: nat, p: nat)
    requires p > 0
    ensures a % (2 * p) == a % 2 + 2 * (a / 2 % p)
  {
    var q, r := a / 2 / p, a / 2 % p;
    DivisionOf(a / 2, p);
    assert q * (2 * p) == 2 * (p * q);
    Quotient(a, 2 * p, q, a % 2 + 2 * r);
  }

  // ---- What a linker writes ----

  /** A linker's filter: two bits of one word for each symbol from `from` on, or-ed together. */
  function Filter(maskwords: nat, shift2: nat, syms: seq<Sym>, from: nat, upto: nat): (words: seq<nat>)
    requires maskwords > 0 && from <= upto <= |syms|
    ensures |words| == maskwords
    decreases upto
  {
    if upto == from then seq(maskwords, _ => 0)
    else
      var words := Filter(maskwords, shift2, syms, from, upto - 1);
      var hash := Hash(syms[upto - 1].name);
      var i := And(hash / 64, maskwords - 1);
      words[i := Or(Or(words[i], Pow2(hash % 64)), Pow2(hash / Pow2(shift2) % 64))]
  }

  function BucketOf(t: Table, syms: seq<Sym>, i: nat): nat
    requires i < |syms| && |t.buckets| > 0
  {
    Hash(syms[i].name) % |t.buckets|
  }

  predicate Ends(t: Table, i: nat)
    requires t.symndx <= i < t.symndx + |t.symhash|
  {
    t.symhash[i - t.symndx] % 2 == 1
  }

  /** The symbols from symndx on stand in runs of one bucket each, an end bit closes every run, the
      buckets point to where the runs start, and the filter is a linker's, or switched off. */
  ghost predicate WellFormed(t: Table, syms: seq<Sym>) {
    && |t.buckets| > 0 && 0 < t.maskwords == |t.bloom| && t.shift2 < 32
    && t.symndx + |t.symhash| == |syms|
    && (t.bloom == Filter(t.maskwords, t.shift2, syms, t.symndx, |syms|) || t.bloom == [0])
    && (forall i :: t.symndx <= i < |syms| ==> Describes(t, syms, i))
    && (forall b :: 0 <= b < |t.buckets| ==>
                      t.buckets[b] < t.symndx || (t.buckets[b] < |syms| && BucketOf(t, syms, t.buckets[b]) == b))
  }

  ghost predicate Describes(t: Table, syms: seq<Sym>, i: nat)
    requires |t.buckets| > 0
    requires t.symndx + |t.symhash| == |syms| && t.symndx <= i < |syms|
  {
    && t.symhash[i - t.symndx] / 2 == Hash(syms[i].name) / 2
    && (i == t.symndx || Ends(t, i - 1) ==> t.buckets[BucketOf(t, syms, i)] == i)
    && (!Ends(t, i) ==> i + 1 < |syms| && BucketOf(t, syms, i + 1) == BucketOf(t, syms, i))
  }

  // ---- The two ways of looking up ----

  /** As written, the low bit of the stored hash is cleared before the comparison, and that of the
      wanted one is not; it is meant to be left out of both. */
  datatype Comparison = AsWritten | Mended

  predicate Matches(cmp: Comparison, hash: nat, h: nat) {
    match cmp
    case AsWritten => hash == h - h % 2
    case Mended => hash / 2 == h / 2
  }

  /** From the start of a chain. */
  function Walk(cmp: Comparison, t: Table, syms: seq<Sym>, name: Name, hash: nat, i: nat): Option<nat>
    requires t.symndx + |t.symhash| == |syms| && t.symndx <= i
    decreases |syms| - i
  {
    if i >= |syms| then None
    else
      var h := t.symhash[i - t.symndx];
      if Matches(cmp, hash, h) && syms[i].name == name then Some(i)
      else if h % 2 == 1 then None
      else Walk(cmp, t, syms, name, hash, i + 1)
  }

  function Lookup(cmp: Comparison, t: Table, syms: seq<Sym>, name: Name): Option<nat>
    requires |t.buckets| > 0 && 0 < t.maskwords == |t.bloom| && t.symndx + |t.symhash| == |syms|
  {
    var hash := Hash(name);
    if !Passes(t, hash) then None
    else
      var i := t.buckets[hash % |t.buckets|];
      if i < t.symndx then None else Walk(cmp, t, syms, name, hash, i)
  }

  /** The plain scan. */
  function FirstNamed(syms: seq<Sym>, name: Name, i: nat): (r: Option<nat>)
    ensures r.Some? ==> i <= r.value < |syms| && syms[r.value].name == name
    ensures r.Some? ==> forall j :: i <= j < r.value ==> syms[j].name != name
    ensures r.None? ==> forall j :: i <= j < |syms| ==> syms[j].name != name
    decreases |syms| - i
  {
    if i >= |syms| then None
    else if syms[i].name == name then Some(i)
    else FirstNamed(syms, name, i + 1)
  }

  // ---- The filter ----

  /** Or-ing more bits into a filter takes none away, and the two bits of a symbol are there. */
  lemma {:induction false} FilterHolds(maskwords: nat, shift2: nat, syms: seq<Sym>, from: nat, upto: nat, i: nat)
    requires maskwords > 0 && from <= i < upto <= |syms|
    ensures var hash := Hash(syms[i].name);
            var mask := Filter(maskwords, shift2, syms, from, upto)[And(hash / 64, maskwords - 1)];
            Bit(mask, hash % 64) && Bit(mask, hash / Pow2(shift2) % 64)
    decreases upto
  {
    hide Hash, Or, And, Bit, Pow2;
    var words := Filter(maskwords, shift2, syms, from, upto - 1);
    var last := Hash(syms[upto - 1].name);
    var low, high := last % 64, last / Pow2(shift2) % 64;
    var word := words[And(last / 64, maskwords - 1)];
    var hash := Hash(syms[i].name);
    OrTwo(word, low, high, hash % 64);
    OrTwo(word, low, high, hash / Pow2(shift2) % 64);
    if i < upto - 1 {
      FilterHolds(maskwords, shift2, syms, from, upto - 1, i);
    }
  }

  lemma OrTwo(word: nat, a: nat, b: nat, k: nat)
    ensures Bit(word, k) || k == a || k == b ==> Bit(Or(Or(word, Pow2(a)), Pow2(b)), k)
  {
    hide Or, Bit, Pow2;
    BitOr(Or(word, Pow2(a)), Pow2(b), k);
    BitOr(word, Pow2(a), k);
    BitPow2(a);
    BitPow2(b);
  }

  /** The Bloom filter of a table rejects no name that the table has. */
  lemma PresentPasses(t: Table, syms: seq<Sym>, i: nat)
    requires WellFormed(t, syms) && t.symndx <= i < |syms|
    ensures Passes(t, Hash(syms[i].name))
  {
    hide Hash, And, Bit, Pow2;
    if t.bloom != [0] {
      FilterHolds(t.maskwords, t.shift2, syms, t.symndx, |syms|, i);
    }
  }

  // ---- Agreement ----

  /** Going back from a symbol to the start of its run never leaves its bucket. */
  lemma {:induction false} RunStart(t: Table, syms: seq<Sym>, i: nat) returns (start: nat)
    requires WellFormed(t, syms) && t.symndx <= i < |syms|
    ensures t.symndx <= start <= i && t.buckets[BucketOf(t, syms, i)] == start
    ensures forall j :: start <= j < i ==> !Ends(t, j)
    decreases i
  {
    hide Hash, Passes;
    assert Describes(t, syms, i);
    if i == t.symndx || Ends(t, i - 1) {
      start := i;
    } else {
      assert Describes(t, syms, i - 1);
      start := RunStart(t, syms, i - 1);
    }
  }

  lemma SameMatches(cmp: Comparison, h: nat, hash: nat)
    requires h / 2 == hash / 2 && (cmp.Mended? || hash % 2 == 0)
    ensures Matches(cmp, hash, h)
  {
  }

  /** A walk along entries of other names comes to the symbol. */
  lemma {:induction false} WalkFinds(cmp: Comparison, t: Table, syms: seq<Sym>, name: Name, from: nat, i: nat)
    requires WellFormed(t, syms) && t.symndx <= from <= i < |syms|
    requires syms[i].name == name && (cmp.Mended? || Hash(name) % 2 == 0)
    requires forall j :: from <= j < i ==> !Ends(t, j) && syms[j].name != name
    ensures Walk(cmp, t, syms, name, Hash(name), from) == Some(i)
    decreases i - from
  {
    hide Hash, Passes, BucketOf;
    if from < i {
      assert !Ends(t, from);
      WalkFinds(cmp, t, syms, name, from + 1, i);
    } else {
      assert Describes(t, syms, i);
      SameMatches(cmp, t.symhash[i - t.symndx], Hash(name));
    }
  }

  lemma {:induction false} WalkMisses(cmp: Comparison, t: Table, syms: seq<Sym>, name: Name, hash: nat, i: nat)
    requires t.symndx + |t.symhash| == |syms| && t.symndx <= i
    requires (cmp.AsWritten? && hash % 2 == 1) || FirstNamed(syms, name, t.symndx).None?
    ensures Walk(cmp, t, syms, name, hash, i) == None
    decreases |syms| - i
  {
    if i < |syms| {
      var h := t.symhash[i - t.symndx];
      assert (h - h % 2) % 2 == 0;
      WalkMisses(cmp, t, syms, name, hash, i + 1);
    }
  }

  /** A walk that starts at a bucket stays inside it and stops inside the table. */
  lemma {:induction false} WalkStaysInBucket(t: Table, syms: seq<Sym>, b: nat, i: nat)
    requires WellFormed(t, syms) && b < |t.buckets| && t.symndx <= t.buckets[b] <= i
    requires forall j :: t.buckets[b] <= j < i && j < |syms| ==> !Ends(t, j)
    ensures i < |syms| && BucketOf(t, syms, i) == b
    decreases i
  {
    hide Hash, Passes;
    if i > t.buckets[b] {
      WalkStaysInBucket(t, syms, b, i - 1);
      assert Describes(t, syms, i - 1);
    }
  }

  lemma LookupFinds(cmp: Comparison, t: Table, syms: seq<Sym>, name: Name, i: nat)
    requires WellFormed(t, syms) && FirstNamed(syms, name, t.symndx) == Some(i) && (cmp.Mended? || Hash(name) % 2 == 0)
    ensures Lookup(cmp, t, syms, name) == Some(i)
  {
    hide Hash, Passes;
    PresentPasses(t, syms, i);
    var start := RunStart(t, syms, i);
    WalkFinds(cmp, t, syms, name, start, i);
  }

  lemma LookupMisses(cmp: Comparison, t: Table, syms: seq<Sym>, name: Name)
    requires WellFormed(t, syms) && ((cmp.AsWritten? && Hash(name) % 2 == 1) || FirstNamed(syms, name, t.symndx).None?)
    ensures Lookup(cmp, t, syms, name) == None
  {
    var i := t.buckets[Hash(name) % |t.buckets|];
    if i >= t.symndx {
      WalkMisses(cmp, t, syms, name, Hash(name), i);
    }
  }

  /** On every well-formed table, filter, buckets and chain find what a scan finds exactly if the
      hash of the name is even or there is nothing to find; a name with an odd hash is never found.
      With the comparison mended they do so for every name. */
  lemma LookupIsScanIff(cmp: Comparison, t: Table, syms: seq<Sym>, name: Name)
    requires WellFormed(t, syms)
    ensures Lookup(cmp, t, syms, name) == FirstNamed(syms, name, t.symndx)
       <==> cmp.Mended? || Hash(name) % 2 == 0 || FirstNamed(syms, name, t.symndx).None?
    ensures cmp.AsWritten? && Hash(name) % 2 == 1 ==> Lookup(cmp, t, syms, name) == None
  {
    var r := FirstNamed(syms, name, t.symndx);
    if r.Some? && (cmp.Mended? || Hash(name) % 2 == 0) {
      LookupFinds(cmp, t, syms, name, r.value);
    } else {
      LookupMisses(cmp, t, syms, name);
    }
  }

  /** The name "b" is one that is never found. */
  lemma OddName()
    ensures Hash([98]) == 177671 && Hash([98]) % 2 == 1
  {
    assert [98][1..] == [];
    assert Fold([98], 5381, U32) == Fold([], 177671, U32);
  }

  // ---- The loops ----

  function ValueOf(syms: seq<Sym>, r: Option<nat>): nat
    requires r.Some? ==> r.value < |syms|
  {
    if r.Some? then syms[r.value].value else 0
  }

  lemma {:induction false} WalkInside(cmp: Comparison, t: Table, syms: seq<Sym>, name: Name, hash: nat, i: nat)
    requires t.symndx + |t.symhash| == |syms| && t.symndx <= i
    ensures var r := Walk(cmp, t, syms, name, hash, i); r.Some? ==> r.value < |syms|
    decreases |syms| - i
  {
    if i < |syms| { WalkInside(cmp, t, syms, name, hash, i + 1); }
  }

  /** The address, or 0 for NULL. */
  method GetAddressGnuHash(t: Table, syms: seq<Sym>, name: Name) returns (addr: nat)
    requires WellFormed(t, syms)
    ensures Lookup(AsWritten, t, syms, name).Some? ==> Lookup(AsWritten, t, syms, name).value < |syms|
    ensures addr == ValueOf(syms, Lookup(AsWritten, t, syms, name))
  {
    hide Hash, Bit, And, Pow2;
    var hash := DlNewHash(name);
    if t.maskwords != 1 || t.bloom[0] != 0 {
      var mask := t.bloom[And(hash / 64, t.maskwords - 1)];
      if !(Bit(mask, hash % 64) && Bit(mask, hash / Pow2(t.shift2) % 64)) { return 0; }
    }
    var b := hash % |t.buckets|;
    var i := t.buckets[b];
    if i < t.symndx { return 0; }
    WalkInside(AsWritten, t, syms, name, hash, i);
    ghost var start := i;
    WalkStaysInBucket(t, syms, b, i);
    while true
      invariant start <= i < |syms|
      invariant Walk(AsWritten, t, syms, name, hash, start) == Walk(AsWritten, t, syms, name, hash, i)
      invariant forall j :: start <= j < i ==> !Ends(t, j)
      decreases |syms| - i
    {
      var h := t.symhash[i - t.symndx];
      if hash == h - h % 2 && syms[i].name == name { return syms[i].value; }
      if h % 2 == 1 { return 0; }
      i := i + 1;
      WalkStaysInBucket(t, syms, b, i);
    }
  }

  /** The first function of that name among all symbols. */
  function FirstFunc(syms: seq<Sym>, name: Name, i: nat): (r: Option<nat>)
    ensures r.Some? ==> i <= r.value < |syms| && syms[r.value].name == name && syms[r.value].isFunc
                        && forall j :: i <= j < r.value ==> !(syms[j].name == name && syms[j].isFunc)
    ensures r.None? ==> forall j :: i <= j < |syms| ==> !(syms[j].name == name && syms[j].isFunc)
    decreases |syms| - i
  {
    if i >= |syms| then None
    else if syms[i].isFunc && syms[i].name == name then Some(i)
    else FirstFunc(syms, name, i + 1)
  }

  method GetAddressDyn(syms: seq<Sym>, name: Name) returns (addr: nat)
    ensures addr == ValueOf(syms, FirstFunc(syms, name, 0))
  {
    var i := 0;
    while i < |syms|
      invariant 0 <= i <= |syms| && FirstFunc(syms, name, 0) == FirstFunc(syms, name, i)
    {
      if syms[i].isFunc && syms[i].name == name { return syms[i].value; }
      i := i + 1;
    }
    return 0;
  }

  // ---- Link maps ----

  datatype LinkMap = LinkMap(table: Table, syms: seq<Sym>, base: nat)

  ghost predicate Sane(m: LinkMap) {
    WellFormed(m.table, m.syms)
  }

  /** One object: the hash table first, then the scan. */
  function InObject(m: LinkMap, name: Name): nat
    requires Sane(m)
  {
    LookupIsScanIff(AsWritten, m.table, m.syms, name);
    var r := Lookup(AsWritten, m.table, m.syms, name);
    assert r.Some? ==> r == FirstNamed(m.syms, name, m.table.symndx);
    var a := ValueOf(m.syms, r);
    if a != 0 then a else ValueOf(m.syms, FirstFunc(m.syms, name, 0))
  }

  /** Symbol `i` has an address, and it alone has the name. */
  ghost predicate OnlyOne(syms: seq<Sym>, name: Name, i: nat) {
    && i < |syms| && syms[i].name == name && syms[i].value != 0
    && forall j :: 0 <= j < |syms| && j != i ==> syms[j].name != name
  }

  /** A symbol with a name of its own and an address is found in its object exactly if it is a
      function, or a hashed symbol whose hash is even; otherwise the object seems not to have it. */
  lemma UniqueFoundIff(m: LinkMap, name: Name, i: nat)
    requires Sane(m) && OnlyOne(m.syms, name, i)
    ensures InObject(m, name)
         == if m.syms[i].isFunc || (i >= m.table.symndx && Hash(name) % 2 == 0) then m.syms[i].value else 0
  {
    hide Hash, Lookup;
    LookupIsScanIff(AsWritten, m.table, m.syms, name);
    assert FirstNamed(m.syms, name, m.table.symndx) == if i >= m.table.symndx then Some(i) else None;
    assert FirstFunc(m.syms, name, 0) == if m.syms[i].isFunc then Some(i) else None;
  }

  /** The first hashed symbol of the name, if the hash is even and the symbol has an address. */
  ghost predicate HashGives(m: LinkMap, name: Name, i: nat) {
    && m.table.symndx <= i < |m.syms| && Hash(name) % 2 == 0 && m.syms[i].name == name && m.syms[i].value != 0
    && forall j :: m.table.symndx <= j < i ==> m.syms[j].name != name
  }

  /** The first function of the name, if it has an address. */
  ghost predicate ScanGives(m: LinkMap, name: Name, i: nat) {
    && i < |m.syms| && m.syms[i].isFunc && m.syms[i].name == name && m.syms[i].value != 0
    && forall j :: 0 <= j < i ==> !(m.syms[j].name == name && m.syms[j].isFunc)
  }

  /** The symbol that stands for the name in its object. */
  ghost predicate Gives(m: LinkMap, name: Name, i: nat) {
    HashGives(m, name, i) || (ScanGives(m, name, i) && forall j: nat :: !HashGives(m, name, j))
  }

  ghost predicate GivesNone(m: LinkMap, name: Name) {
    forall i: nat :: !Gives(m, name, i)
  }

  /** What an object answers, in terms of its symbols alone. */
  lemma InObjectIff(m: LinkMap, name: Name)
    requires Sane(m)
    ensures InObject(m, name) == 0 <==> GivesNone(m, name)
    ensures forall i: nat :: Gives(m, name, i) ==> InObject(m, name) == m.syms[i].value
  {
    hide Hash, Lookup, WellFormed;
    LookupIsScanIff(AsWritten, m.table, m.syms, name);
    var h, f := FirstNamed(m.syms, name, m.table.symndx), FirstFunc(m.syms, name, 0);
    forall i: nat ensures HashGives(m, name, i) <==> h == Some(i) && Hash(name) % 2 == 0 && m.syms[i].value != 0 {
    }
    forall i: nat ensures ScanGives(m, name, i) <==> f == Some(i) && m.syms[i].value != 0 {
    }
    if h.Some? && Hash(name) % 2 == 0 && m.syms[h.value].value != 0 {
      assert Gives(m, name, h.value);
    } else if f.Some? && m.syms[f.value].value != 0 {
      assert Gives(m, name, f.value);
    }
  }

  lemma GivenBy(m: LinkMap, name: Name) returns (i: nat)
    requires Sane(m) && InObject(m, name) != 0
    ensures Gives(m, name, i) && InObject(m, name) == m.syms[i].value
  {
    hide InObject, Gives, WellFormed;
    InObjectIff(m, name);
    i :| Gives(m, name, i);
  }

  /** The loop over the loaded objects: the first object with a symbol that stands for the name
      decides. An object whose only symbol of that name is no function, and not hashed with an even
      hash, is passed over. */
  method FindInObjects(maps: seq<LinkMap>, name: Name) returns (addr: nat)
    requires forall k :: 0 <= k < |maps| ==> Sane(maps[k])
    ensures addr == 0 ==> forall k :: 0 <= k < |maps| ==> InObject(maps[k], name) == 0
    ensures addr != 0 ==>
              exists k :: 0 <= k < |maps| && InObject(maps[k], name) != 0
                          && addr == InObject(maps[k], name) + maps[k].base
                          && forall j :: 0 <= j < k ==> InObject(maps[j], name) == 0
    ensures addr == 0 ==> forall k :: 0 <= k < |maps| ==> GivesNone(maps[k], name)
    ensures addr != 0 ==>
              exists k, i: nat :: 0 <= k < |maps| && Gives(maps[k], name, i)
                                  && addr == maps[k].syms[i].value + maps[k].base
                                  && forall j :: 0 <= j < k ==> GivesNone(maps[j], name)
  {
    hide Lookup, WellFormed, GivesNone, Gives;
    for k := 0 to |maps|
      invariant forall j :: 0 <= j < k ==> InObject(maps[j], name) == 0 && GivesNone(maps[j], name)
    {
      var m := maps[k];
      InObjectIff(m, name);
      var a := GetAddressGnuHash(m.table, m.syms, name);
      if a != 0 {
        assert InObject(m, name) == a;
        ghost var i := GivenBy(m, name);
        return a + m.base;
      }
      a := GetAddressDyn(m.syms, name);
      assert InObject(m, name) == a;
      if a != 0 {
        ghost var i := GivenBy(m, name);
        return a + m.base;
      }
    }
    return 0;
  }
}
