/** The breakpoint table and its patches in the memory of the process. */
module Breakpoints {
  import opened Bytes
  import opened Tracee

  /** `word` is the word found at `addr` when the breakpoint was placed; for a breakpoint on a
      system call it is an index of the watch array instead. */
  datatype Bp = Bp(id: nat, temp: bool, hidden: bool, syscall: bool, addr: int, word: nat, enabled: bool, deleted: bool)

  predicate Live(bp: Bp) {
    bp.enabled && !bp.deleted && !bp.syscall
  }

  predicate LiveAt(bp: Bp, addr: int) {
    bp.addr == addr && Live(bp)
  }

  /** Live, or a permanent breakpoint that can be patched in again. */
  predicate Armed(bp: Bp) {
    !bp.deleted && !bp.syscall && (bp.enabled || !bp.temp)
  }

  /** The first live breakpoint at `addr`, from index `i` on, or -1. */
  function GetBreakpoint(bps: seq<Bp>, addr: int, i: nat := 0): (r: int)
    requires i <= |bps|
    ensures r == -1 || i <= r < |bps|
    ensures r != -1 ==> LiveAt(bps[r], addr) && forall j :: i <= j < r ==> !LiveAt(bps[j], addr)
    ensures r == -1 <==> forall j :: i <= j < |bps| ==> !LiveAt(bps[j], addr)
    decreases |bps| - i
  {
    if i == |bps| then -1
    else if LiveAt(bps[i], addr) then i
    else GetBreakpoint(bps, addr, i + 1)
  }

  predicate IsBreakpoint(bps: seq<Bp>, addr: int) {
    GetBreakpoint(bps, addr) != -1
  }

  // ---- Words ----

  /** PTRACE_PEEKDATA with n == 8: little endian. */
  function Peek(m: Memory, a: int, n: nat): nat
    decreases n, a
  {
    if n == 0 then 0 else Rd(m, a) + 256 * Peek(m, a + 1, n - 1)
  }

  /** PTRACE_POKEDATA with n == 8. */
  function Poke(m: Memory, a: int, w: nat, n: nat): Memory
    decreases n, a
  {
    if n == 0 then m else Poke(m[a := w % 256], a + 1, w / 256, n - 1)
  }

  function WithLowByte(w: nat, b: Byte): nat {
    w - w % 256 + b
  }

  lemma {:induction false} PeekFrame(m: Memory, m': Memory, a: int, n: nat)
    requires forall x :: a <= x < a + n ==> Rd(m, x) == Rd(m', x)
    ensures Peek(m, a, n) == Peek(m', a, n)
    decreases n, a
  {
    if n > 0 {
      assert Rd(m, a) == Rd(m', a);
      PeekFrame(m, m', a + 1, n - 1);
    }
  }

  /** Writing back what was read changes no byte. */
  lemma {:induction false} PokePeek(m: Memory, a: int, n: nat)
    ensures forall x :: Rd(Poke(m, a, Peek(m, a, n), n), x) == Rd(m, x)
    decreases n, a
  {
    if n > 0 {
      var w := Peek(m, a, n);
      LowByte(Rd(m, a), Peek(m, a + 1, n - 1));
      var m1 := m[a := w % 256];
      PeekFrame(m, m1, a + 1, n - 1);
      PokePeek(m1, a + 1, n - 1);
      forall x ensures Rd(Poke(m, a, w, n), x) == Rd(m, x) {
        assert Rd(Poke(m1, a + 1, w / 256, n - 1), x) == Rd(m1, x);
      }
    }
  }

  /** Reading a word, replacing its low byte and writing it back changes the one byte at `a`,
      although the bytes above it are written too. */
  lemma PokeLowByte(m: Memory, a: int, b: Byte, n: nat)
    requires n > 0
    ensures forall x :: Rd(Poke(m, a, WithLowByte(Peek(m, a, n), b), n), x) == (if x == a then b else Rd(m, x))
  {
    var rest := Peek(m, a + 1, n - 1);
    var w := WithLowByte(Peek(m, a, n), b);
    var m1 := m[a := b];
    assert Peek(m, a, n) == Rd(m, a) + 256 * rest;
    LowByte(Rd(m, a), rest);
    LowByte(b, rest);
    assert Poke(m, a, w, n) == Poke(m1, a + 1, rest, n - 1);
    PeekFrame(m, m1, a + 1, n - 1);
    PokePeek(m1, a + 1, n - 1);
    forall x ensures Rd(Poke(m, a, w, n), x) == (if x == a then b else Rd(m, x)) {
      assert Rd(Poke(m1, a + 1, rest, n - 1), x) == Rd(m1, x);
    }
  }

  lemma LowByte(b: Byte, rest: nat)
    ensures (b + 256 * rest) % 256 == b && (b + 256 * rest) / 256 == rest
  {
  }

  // ---- Toggling ----

  predicate Sticks(bp: Bp) {
    !bp.enabled && bp.temp
  }

  function ToggledMemory(m: Memory, bp: Bp): Memory {
    if Sticks(bp) then m
    else Poke(m, bp.addr, WithLowByte(Peek(m, bp.addr, 8), if bp.enabled then bp.word % 256 else INT3), 8)
  }

  function ToggledBp(bp: Bp): Bp {
    if Sticks(bp) then bp else bp.(enabled := !bp.enabled)
  }

  // ---- The patch invariant ----

  /** `mem` is `native` with an int3 at each live breakpoint; each breakpoint that may still be
      taken out remembers the native byte, and no two of them share an address. */
  ghost predicate Patched(bps: seq<Bp>, mem: Memory, native: Memory) {
    && Shadows(bps, mem, native)
    && Saved(bps, native)
    && Distinct(bps)
  }

  ghost predicate Shadows(bps: seq<Bp>, mem: Memory, native: Memory) {
    forall a :: Rd(mem, a) == if IsBreakpoint(bps, a) then INT3 else Rd(native, a)
  }

  ghost predicate Saved(bps: seq<Bp>, native: Memory) {
    forall i :: 0 <= i < |bps| && Armed(bps[i]) ==> bps[i].word % 256 == Rd(native, bps[i].addr)
  }

  ghost predicate Distinct(bps: seq<Bp>) {
    forall i, j :: 0 <= i < j < |bps| && Armed(bps[i]) && Armed(bps[j]) ==> bps[i].addr != bps[j].addr
  }

  /** `mem'` is `mem` with one byte replaced. */
  ghost predicate OneByte(mem: Memory, mem': Memory, addr: int, b: Byte) {
    forall a :: Rd(mem', a) == if a == addr then b else Rd(mem, a)
  }

  lemma ReplaceShadows(bps: seq<Bp>, i: nat, bp': Bp, mem: Memory, mem': Memory, native: Memory)
    requires i < |bps| && bp'.addr == bps[i].addr
    requires Shadows(bps, mem, native)
    requires OneByte(mem, mem', bp'.addr, if IsBreakpoint(bps[i := bp'], bp'.addr) then INT3 else Rd(native, bp'.addr))
    ensures Shadows(bps[i := bp'], mem', native)
  {
    var bps' := bps[i := bp'];
    forall a ensures Rd(mem', a) == if IsBreakpoint(bps', a) then INT3 else Rd(native, a) {
      if a != bp'.addr {
        var j, j' := GetBreakpoint(bps, a), GetBreakpoint(bps', a);
        assert j != -1 ==> LiveAt(bps'[j], a);
        assert j' != -1 ==> LiveAt(bps[j'], a);
      }
    }
  }

  /** Toggling keeps the patch invariant, whatever the process has done to the neighbouring bytes. */
  lemma TogglePatched(bps: seq<Bp>, i: nat, mem: Memory, native: Memory)
    requires i < |bps| && Armed(bps[i])
    requires Patched(bps, mem, native)
    ensures Patched(bps[i := ToggledBp(bps[i])], ToggledMemory(mem, bps[i]), native)
  {
    var bp := bps[i];
    var bps' := bps[i := ToggledBp(bp)];
    var b := if bp.enabled then bp.word % 256 else INT3;
    PokeLowByte(mem, bp.addr, b, 8);
    assert OneByte(mem, ToggledMemory(mem, bp), bp.addr, b);
    if bp.enabled {
      assert forall j :: 0 <= j < |bps'| ==> !LiveAt(bps'[j], bp.addr);
    } else {
      assert LiveAt(bps'[i], bp.addr);
    }
    ReplaceShadows(bps, i, ToggledBp(bp), mem, ToggledMemory(mem, bp), native);
  }

  /** The entry that a place command appends for an instruction address. */
  function Placed(bps: seq<Bp>, mem: Memory, addr: int, temp: bool, hidden: bool): Bp {
    Bp(|bps| + 1, temp, hidden, false, addr, Peek(mem, addr, 8), true, false)
  }

  function PlacedMemory(mem: Memory, addr: int): Memory {
    Poke(mem, addr, WithLowByte(Peek(mem, addr, 8), INT3), 8)
  }

  ghost predicate Taken(bps: seq<Bp>, addr: int) {
    exists i :: 0 <= i < |bps| && Armed(bps[i]) && bps[i].addr == addr
  }

  /** Placing keeps the patch invariant exactly when no breakpoint is armed at the address. */
  lemma PlaceKeepsPatchedIff(bps: seq<Bp>, mem: Memory, native: Memory, addr: int, temp: bool, hidden: bool)
    requires Patched(bps, mem, native)
    ensures Patched(bps + [Placed(bps, mem, addr, temp, hidden)], PlacedMemory(mem, addr), native)
       <==> !Taken(bps, addr)
  {
    var bp := Placed(bps, mem, addr, temp, hidden);
    PokeLowByte(mem, addr, INT3, 8);
    assert bp.word == Rd(mem, addr) + 256 * Peek(mem, addr + 1, 7);
    AppendPatchedIff(bps, bp, mem, PlacedMemory(mem, addr), native);
  }

  lemma AppendPatchedIff(bps: seq<Bp>, bp: Bp, mem: Memory, mem': Memory, native: Memory)
    requires Live(bp) && bp.word % 256 == Rd(mem, bp.addr)
    requires Patched(bps, mem, native)
    requires OneByte(mem, mem', bp.addr, INT3)
    ensures Patched(bps + [bp], mem', native) <==> !Taken(bps, bp.addr)
  {
    var bps' := bps + [bp];
    assert bps'[|bps|] == bp;
    if Taken(bps, bp.addr) {
      var i :| 0 <= i < |bps| && Armed(bps[i]) && bps[i].addr == bp.addr;
      assert bps'[i] == bps[i];
    } else {
      assert !IsBreakpoint(bps, bp.addr);
      AppendShadows(bps, bp, mem, mem', native);
    }
  }

  lemma AppendShadows(bps: seq<Bp>, bp: Bp, mem: Memory, mem': Memory, native: Memory)
    requires Live(bp) && Shadows(bps, mem, native)
    requires OneByte(mem, mem', bp.addr, INT3)
    ensures Shadows(bps + [bp], mem', native)
  {
    var bps' := bps + [bp];
    forall a ensures Rd(mem', a) == if IsBreakpoint(bps', a) then INT3 else Rd(native, a) {
      var j, j' := GetBreakpoint(bps, a), GetBreakpoint(bps', a);
      assert j != -1 ==> LiveAt(bps'[j], a);
      if a == bp.addr {
        assert LiveAt(bps'[|bps|], a);
      } else {
        assert j' != -1 ==> j' < |bps| && LiveAt(bps[j'], a);
      }
    }
  }

  /** Marking a breakpoint deleted leaves its int3 in place: the invariant survives exactly when
      the breakpoint was not live, or the program has an int3 of its own there. */
  lemma DeleteKeepsPatchedIff(bps: seq<Bp>, i: nat, mem: Memory, native: Memory)
    requires i < |bps|
    requires Patched(bps, mem, native)
    ensures Patched(bps[i := bps[i].(deleted := true)], mem, native)
       <==> (Live(bps[i]) ==> Rd(native, bps[i].addr) == INT3)
  {
    var bps' := bps[i := bps[i].(deleted := true)];
    var addr := bps[i].addr;
    assert forall j :: 0 <= j < |bps| && j != i ==> bps'[j] == bps[j];
    if Live(bps[i]) {
      assert LiveAt(bps[i], addr);
      assert forall j :: 0 <= j < |bps'| ==> !LiveAt(bps'[j], addr);
      assert Rd(mem, addr) == INT3;
    }
    if Live(bps[i]) ==> Rd(native, addr) == INT3 {
      var j := GetBreakpoint(bps', addr);
      assert j != -1 ==> LiveAt(bps[j], addr);
      assert !Live(bps[i]) ==> IsBreakpoint(bps, addr) ==> LiveAt(bps'[GetBreakpoint(bps, addr)], addr);
      ReplaceShadows(bps, i, bps'[i], mem, mem, native);
    }
  }
}
