/**
 The arena of temporary blocks: every block handed out stands once in a list, and they are all
 freed together. The system allocator's answer to each request is a parameter.
 */
module Arena {
  import opened Bytes
  import opened Wrappers

  type Ptr = nat

  const NULL: Ptr := 0

  /** The blocks that the arena has got from the allocator and not freed, and its list. */
  datatype Mem = Mem(heap: map<Ptr, seq<Byte>>, list: seq<Ptr>)

  datatype Answer = NoMemory | Block(ptr: Ptr, fill: seq<Byte>)

  /** A new block of `size` bytes, whatever is in them. */
  predicate New(m: Mem, ans: Answer, size: nat) {
    ans.Block? ==> NULL < ans.ptr < U64 && ans.ptr !in m.heap && |ans.fill| == size
  }

  function Min(a: nat, b: nat): nat {
    if a < b then a else b
  }

  /** `block` copied over the start of `fill`. */
  function Over(prev: seq<Byte>, fill: seq<Byte>): (r: seq<Byte>)
    ensures |r| == |fill|
  {
    var n := Min(|prev|, |fill|);
    prev[..n] + fill[n..]
  }

  function Add(m: Mem, ptr: Ptr, block: seq<Byte>): Mem {
    Mem(m.heap[ptr := block], [ptr] + m.list)
  }

  /** None: MemoryException is thrown. */
  datatype Result = Result(mem: Mem, ptr: Option<Ptr>)

  function TmpMalloc(m: Mem, size: nat, ans: Answer): Result
    requires New(m, ans, size)
  {
    if ans.NoMemory? then Result(m, None) else Result(Add(m, ans.ptr, ans.fill), Some(ans.ptr))
  }

  function TmpCalloc(m: Mem, count: nat, size: nat, ans: Answer): Result
    requires New(m, ans, count * size)
  {
    if ans.NoMemory? then Result(m, None)
    else Result(Add(m, ans.ptr, seq(count * size, _ => 0)), Some(ans.ptr))
  }

  ghost predicate Zeros(block: seq<Byte>, size: nat) {
    |block| == size && forall i :: 0 <= i < size ==> block[i] == 0
  }

  /** A request is granted exactly if there is memory: by a new block of `size` bytes, which is listed, and
      all others as they were. */
  ghost predicate Grants(m: Mem, r: Result, ans: Answer, size: nat) {
    && (r.ptr.None? <==> ans.NoMemory?) && (r.ptr.None? ==> r.mem == m)
    && (r.ptr.Some? ==>
          && r.ptr.value !in m.heap && r.mem.heap.Keys == m.heap.Keys + {r.ptr.value}
          && |r.mem.heap[r.ptr.value]| == size && r.mem.list == [r.ptr.value] + m.list
          && forall p :: p in m.heap ==> r.mem.heap[p] == m.heap[p])
  }

  lemma MallocGrants(m: Mem, size: nat, ans: Answer)
    requires New(m, ans, size)
    ensures Grants(m, TmpMalloc(m, size, ans), ans, size)
  {
  }

  /** calloc also gives zeros, wherever the allocator puts the block and whatever was there. */
  lemma CallocZeros(m: Mem, count: nat, size: nat, ans: Answer)
    requires New(m, ans, count * size)
    ensures var r := TmpCalloc(m, count, size, ans);
            Grants(m, r, ans, count * size) && (r.ptr.Some? ==> Zeros(r.mem.heap[r.ptr.value], count * size))
  {
    assert ans.Block? ==> |seq(count * size, _ => 0)| == count * size;
  }

  predicate OnTop(m: Mem, prev: Ptr) {
    m.list != [] && m.list[0] == prev
  }

  /** The allocator may extend the block where it is, or move it. */
  predicate Reallocated(m: Mem, prev: Ptr, ans: Answer, size: nat) {
    New(m, ans, size) || (ans.Block? && ans.ptr == prev && prev != NULL && |ans.fill| == size)
  }

  predicate Allowed(m: Mem, prev: Ptr, oldSize: nat, newSize: nat, ans: Answer) {
    && (prev != NULL ==> prev in m.heap && oldSize == |m.heap[prev]|)
    && if OnTop(m, prev) then Reallocated(m, prev, ans, newSize) else New(m, ans, newSize)
  }

  /** Only the block handed out last is reallocated; any other is copied, and stays. */
  function TmpRealloc(m: Mem, prev: Ptr, oldSize: nat, newSize: nat, ans: Answer): Result
    requires Allowed(m, prev, oldSize, newSize, ans)
  {
    var was := if prev == NULL then [] else m.heap[prev];
    if OnTop(m, prev) then
      if ans.NoMemory? then Result(m.(list := m.list[0 := NULL]), None)
      else Result(Mem((m.heap - {prev})[ans.ptr := Over(was, ans.fill)], m.list[0 := ans.ptr]), Some(ans.ptr))
    else if ans.NoMemory? then Result(m, None)
    else Result(Add(m, ans.ptr, Over(was, ans.fill)), Some(ans.ptr))
  }

  /** Freeing a list of blocks; None if a block is freed that is not there. */
  function FreeList(heap: map<Ptr, seq<Byte>>, list: seq<Ptr>): Option<map<Ptr, seq<Byte>>>
    decreases |list|
  {
    if list == [] then Some(heap)
    else if list[0] == NULL then FreeList(heap, list[1..])
    else if list[0] !in heap then None
    else FreeList(heap - {list[0]}, list[1..])
  }

  // ---- Ownership ----

  ghost predicate NoDuplicates(s: seq<Ptr>) {
    forall i, j :: 0 <= i < j < |s| ==> s[i] != s[j]
  }

  /** The list holds each block exactly once, and nothing else. */
  ghost predicate Owns(m: Mem) {
    NoDuplicates(m.list) && NULL !in m.list && forall p :: p in m.list <==> p in m.heap
  }

  lemma AddOwns(m: Mem, ptr: Ptr, block: seq<Byte>)
    requires Owns(m) && ptr != NULL && ptr !in m.heap
    ensures Owns(Add(m, ptr, block))
  {
  }

  /** A reallocation keeps the books, whether the block is extended, moved or copied, unless the
      block handed out last cannot be extended: then it is still there and no longer listed. */
  lemma ReallocOwnsIff(m: Mem, prev: Ptr, oldSize: nat, newSize: nat, ans: Answer)
    requires Owns(m) && Allowed(m, prev, oldSize, newSize, ans)
    ensures Owns(TmpRealloc(m, prev, oldSize, newSize, ans).mem) <==> !(OnTop(m, prev) && ans.NoMemory?)
  {
    var m' := TmpRealloc(m, prev, oldSize, newSize, ans).mem;
    if OnTop(m, prev) {
      assert prev in m.heap;
      if ans.NoMemory? {
        assert m'.list[0] == NULL;
      } else {
        forall p ensures p in m'.list <==> p in m'.heap {
          if p in m'.list {
            var i :| 0 <= i < |m'.list| && m'.list[i] == p;
            assert i > 0 ==> p == m.list[i] && p in m.heap;
          }
          if p in m'.heap && p != ans.ptr {
            assert p in m.list;
            var i :| 0 <= i < |m.list| && m.list[i] == p;
            assert m'.list[i] == p;
          } else if p == ans.ptr {
            assert m'.list[0] == p;
          }
        }
        forall i, j | 0 <= i < j < |m'.list| ensures m'.list[i] != m'.list[j] {
          assert m'.list[j] == m.list[j] && m.list[j] in m.heap && m.list[0] != m.list[j];
        }
      }
    } else if ans.Block? {
      AddOwns(m, ans.ptr, Over(if prev == NULL then [] else m.heap[prev], ans.fill));
    }
  }

  /** The new block begins with the old one, as much of it as fits; every block but the old one is
      what it was, and the old one too if it was copied. */
  lemma ReallocKeeps(m: Mem, prev: Ptr, oldSize: nat, newSize: nat, ans: Answer)
    requires Allowed(m, prev, oldSize, newSize, ans) && ans.Block?
    ensures var m' := TmpRealloc(m, prev, oldSize, newSize, ans).mem;
            && ans.ptr in m'.heap && |m'.heap[ans.ptr]| == newSize
            && (prev != NULL ==> m'.heap[ans.ptr][..Min(oldSize, newSize)] == m.heap[prev][..Min(oldSize, newSize)])
            && forall p :: p in m.heap && (p != prev || !OnTop(m, prev)) ==> p in m'.heap && m'.heap[p] == m.heap[p]
  {
  }

  lemma UnlistOwns(heap: map<Ptr, seq<Byte>>, list: seq<Ptr>)
    requires list != [] && Owns(Mem(heap, list))
    ensures Owns(Mem(heap - {list[0]}, list[1..]))
  {
    var rest := list[1..];
    assert forall i :: 0 <= i < |rest| ==> rest[i] == list[i + 1];
    assert forall p :: p in list <==> p == list[0] || p in rest;
    assert list[0] !in rest;
  }

  lemma ListOwns(heap: map<Ptr, seq<Byte>>, list: seq<Ptr>)
    requires list != [] && list[0] != NULL && list[0] in heap
    requires Owns(Mem(heap - {list[0]}, list[1..]))
    ensures Owns(Mem(heap, list))
  {
    var m := Mem(heap - {list[0]}, list[1..]);
    AddOwns(m, list[0], heap[list[0]]);
    assert Add(m, list[0], heap[list[0]]) == Mem(heap, list) by {
      assert m.heap[list[0] := heap[list[0]]] == heap;
      assert [list[0]] + list[1..] == list;
    }
  }

  /** Freeing succeeds and leaves nothing exactly if the list owns the blocks, empty entries apart:
      no block is freed twice and none is forgotten. */
  lemma {:induction false} FreesEachOnce(heap: map<Ptr, seq<Byte>>, list: seq<Ptr>)
    requires NULL !in list && NULL !in heap
    ensures FreeList(heap, list) == Some(map[]) <==> Owns(Mem(heap, list))
    decreases |list|
  {
    if list == [] {
      if heap != map[] {
        var p :| p in heap;
        assert p !in list;
      }
    } else if list[0] in heap {
      hide Owns;
      FreesEachOnce(heap - {list[0]}, list[1..]);
      if Owns(Mem(heap - {list[0]}, list[1..])) {
        ListOwns(heap, list);
      }
      if Owns(Mem(heap, list)) {
        UnlistOwns(heap, list);
      }
    } else {
      assert list[0] in list;
    }
  }

  datatype Request =
    | Malloc(size: nat)
    | Calloc(count: nat, size: nat)
    | Realloc(prev: Ptr, oldSize: nat, newSize: nat)

  predicate Proper(m: Mem, req: Request, ans: Answer) {
    match req
    case Malloc(size) => New(m, ans, size)
    case Calloc(count, size) => New(m, ans, count * size)
    case Realloc(prev, oldSize, newSize) => Allowed(m, prev, oldSize, newSize, ans)
  }

  function Do(m: Mem, req: Request, ans: Answer): Mem
    requires Proper(m, req, ans)
  {
    match req
    case Malloc(size) => TmpMalloc(m, size, ans).mem
    case Calloc(count, size) => TmpCalloc(m, count, size, ans).mem
    case Realloc(prev, oldSize, newSize) => TmpRealloc(m, prev, oldSize, newSize, ans).mem
  }

  /** A sequence of requests that all succeed, on pointers that the arena owns or on null. */
  predicate Succeed(m: Mem, reqs: seq<(Request, Answer)>)
    decreases |reqs|
  {
    reqs == [] ||
    (var (req, ans) := reqs[0];
     ans.Block? && Proper(m, req, ans) && Succeed(Do(m, req, ans), reqs[1..]))
  }

  function DoAll(m: Mem, reqs: seq<(Request, Answer)>): Mem
    requires Succeed(m, reqs)
    decreases |reqs|
  {
    if reqs == [] then m else DoAll(Do(m, reqs[0].0, reqs[0].1), reqs[1..])
  }

  /** After any such sequence the arena owns its blocks, and freeing it frees each of them once. */
  lemma {:induction false} ArenaOwns(m: Mem, reqs: seq<(Request, Answer)>)
    requires Owns(m) && Succeed(m, reqs)
    ensures var m' := DoAll(m, reqs); Owns(m') && FreeList(m'.heap, m'.list) == Some(map[])
    decreases |reqs|
  {
    if reqs == [] {
      assert NULL !in m.heap;
      FreesEachOnce(m.heap, m.list);
    } else {
      var ans := reqs[0].1;
      match reqs[0].0 {
        case Malloc(size) => AddOwns(m, ans.ptr, ans.fill);
        case Calloc(count, size) => AddOwns(m, ans.ptr, seq(count * size, _ => 0));
        case Realloc(prev, oldSize, newSize) => ReallocOwnsIff(m, prev, oldSize, newSize, ans);
      }
      ArenaOwns(Do(m, reqs[0].0, ans), reqs[1..]);
    }
  }

  // ---- The array of rows ----

  const PTR_SIZE: nat := 8

  function Pack(ptrs: seq<Ptr>): (bs: seq<Byte>)
    ensures |bs| == PTR_SIZE * |ptrs|
  {
    if ptrs == [] then [] else ToLe(ptrs[0], PTR_SIZE) + Pack(ptrs[1..])
  }

  lemma {:induction false} PackAppend(ptrs: seq<Ptr>, p: Ptr)
    ensures Pack(ptrs + [p]) == Pack(ptrs) + ToLe(p, PTR_SIZE)
    decreases |ptrs|
  {
    hide ToLe;
    if ptrs == [] {
      assert [p][1..] == [];
      assert ToLe(p, PTR_SIZE) + [] == [] + ToLe(p, PTR_SIZE);
    } else {
      assert (ptrs + [p])[1..] == ptrs[1..] + [p];
      PackAppend(ptrs[1..], p);
    }
  }

  ghost predicate HoldsRow(m: Mem, states: Ptr, p: Ptr, row: seq<Byte>) {
    p != NULL && p != states && p in m.heap && m.heap[p] == row
  }

  /** Each row in a block of its own. */
  ghost predicate HoldsEach(m: Mem, states: Ptr, ptrs: seq<Ptr>, rows: seq<seq<Byte>>) {
    |ptrs| == |rows| && NoDuplicates(ptrs) && forall i :: 0 <= i < |ptrs| ==> HoldsRow(m, states, ptrs[i], rows[i])
  }

  /** `states` is an array of pointers to blocks that hold the rows. */
  ghost predicate HoldsRows(m: Mem, states: Ptr, ptrs: seq<Ptr>, rows: seq<seq<Byte>>) {
    && HoldsEach(m, states, ptrs, rows)
    && if ptrs == [] then states == NULL else states != NULL && states in m.heap && m.heap[states] == Pack(ptrs)
  }

  /** The array has room for one more pointer, and the old ones are in it. */
  function Grown(m: Mem, states: Ptr, length: nat, ans: Answer): Result
    requires Allowed(m, states, PTR_SIZE * length, PTR_SIZE * (length + 1), ans)
  {
    TmpRealloc(m, states, PTR_SIZE * length, PTR_SIZE * (length + 1), ans)
  }

  predicate CloneAllowed(m: Mem, states: Ptr, length: nat, sm: seq<Byte>, first: Answer, second: Answer) {
    && Allowed(m, states, PTR_SIZE * length, PTR_SIZE * (length + 1), first)
    && (first.Block? ==> New(Grown(m, states, length, first).mem, second, |sm|))
  }

  function WithLast(block: seq<Byte>, length: nat, p: Ptr): seq<Byte>
    requires |block| == PTR_SIZE * (length + 1)
  {
    block[..PTR_SIZE * length] + ToLe(p, PTR_SIZE)
  }

  /** clone_state on memory: the array grows by one pointer, to a new block with a copy of `sm`. */
  function CloneState(m: Mem, states: Ptr, length: nat, sm: seq<Byte>, first: Answer, second: Answer)
    : Option<(Mem, Ptr)>
    requires CloneAllowed(m, states, length, sm, first, second)
  {
    var r := Grown(m, states, length, first);
    if first.NoMemory? || second.NoMemory? then None
    else
      var m1 := TmpMalloc(r.mem, |sm|, second).mem;
      var pointers := WithLast(m1.heap[first.ptr], length, second.ptr);
      Some((m1.(heap := m1.heap[first.ptr := pointers][second.ptr := sm]), first.ptr))
  }

  /** A grown array with its last pointer written in begins with the old pointers. */
  lemma GrownPacks(m: Mem, states: Ptr, ptrs: seq<Ptr>, rows: seq<seq<Byte>>, ans: Answer, p: Ptr)
    requires HoldsRows(m, states, ptrs, rows) && ans.Block?
    requires Allowed(m, states, PTR_SIZE * |rows|, PTR_SIZE * (|rows| + 1), ans)
    ensures var m1 := Grown(m, states, |rows|, ans).mem;
            && ans.ptr in m1.heap && |m1.heap[ans.ptr]| == PTR_SIZE * (|rows| + 1)
            && WithLast(m1.heap[ans.ptr], |rows|, p) == Pack(ptrs + [p])
            && HoldsEach(m1, ans.ptr, ptrs, rows)
  {
    hide ToLe, Pack;
    var m1 := Grown(m, states, |rows|, ans).mem;
    ReallocKeeps(m, states, PTR_SIZE * |rows|, PTR_SIZE * (|rows| + 1), ans);
    PackAppend(ptrs, p);
    var n := PTR_SIZE * |rows|;
    if ptrs == [] {
      assert m1.heap[ans.ptr][..n] == Pack(ptrs);
    } else {
      assert Min(n, PTR_SIZE * (|rows| + 1)) == n;
      assert m1.heap[ans.ptr][..n] == Pack(ptrs)[..n] == Pack(ptrs);
    }
    forall i | 0 <= i < |ptrs| ensures HoldsRow(m1, ans.ptr, ptrs[i], rows[i]) {
      assert HoldsRow(m, states, ptrs[i], rows[i]);
    }
  }

  /** The array then holds one more row, and all the rows before it as they were. */
  lemma CloneAppends(m: Mem, states: Ptr, ptrs: seq<Ptr>, rows: seq<seq<Byte>>, sm: seq<Byte>,
                     first: Answer, second: Answer)
    requires HoldsRows(m, states, ptrs, rows) && CloneAllowed(m, states, |rows|, sm, first, second)
    ensures match CloneState(m, states, |rows|, sm, first, second)
            case None => first.NoMemory? || second.NoMemory?
            case Some((m', states')) =>
              HoldsRows(m', states', ptrs + [second.ptr], rows + [sm]) && (Owns(m) ==> Owns(m'))
  {
    hide ToLe, Pack, Owns, TmpRealloc;
    if first.Block? && second.Block? {
      var m1 := Grown(m, states, |rows|, first).mem;
      GrownPacks(m, states, ptrs, rows, first, second.ptr);
      var m3 := CloneState(m, states, |rows|, sm, first, second).value.0;
      var ptrs', rows' := ptrs + [second.ptr], rows + [sm];
      forall i | 0 <= i < |ptrs'| ensures HoldsRow(m3, first.ptr, ptrs'[i], rows'[i]) {
        if i < |ptrs| {
          assert HoldsRow(m1, first.ptr, ptrs[i], rows[i]);
        }
      }
      assert forall i :: 0 <= i < |ptrs| ==> HoldsRow(m1, first.ptr, ptrs[i], rows[i]) && ptrs'[i] != second.ptr;
      if Owns(m) {
        ReallocOwnsIff(m, states, PTR_SIZE * |rows|, PTR_SIZE * (|rows| + 1), first);
        AddOwns(m1, second.ptr, second.fill);
        SameBlocksOwns(Add(m1, second.ptr, second.fill), m3);
      }
    }
  }

  lemma SameBlocksOwns(m: Mem, m': Mem)
    requires Owns(m) && m'.list == m.list && m'.heap.Keys == m.heap.Keys
    ensures Owns(m')
  {
    assert forall p :: p in m'.heap <==> p in m.heap;
  }

  /** Each row is granted its two blocks, by an allocator that is free to move and extend. */
  ghost predicate Granted(m: Mem, states: Ptr, length: nat, rows: seq<seq<Byte>>, answers: seq<(Answer, Answer)>)
    decreases |rows|
  {
    |answers| == |rows| &&
    (rows != [] ==>
       var (first, second) := answers[0];
       && first.Block? && second.Block? && CloneAllowed(m, states, length, rows[0], first, second)
       && var (m', states') := CloneState(m, states, length, rows[0], first, second).value;
       Granted(m', states', length + 1, rows[1..], answers[1..]))
  }

  /** All the rows of a run, one after the other. */
  ghost function CloneAll(m: Mem, states: Ptr, length: nat, rows: seq<seq<Byte>>, answers: seq<(Answer, Answer)>)
    : (Mem, Ptr)
    requires Granted(m, states, length, rows, answers)
    decreases |rows|
  {
    if rows == [] then (m, states)
    else
      var (m', states') := CloneState(m, states, length, rows[0], answers[0].0, answers[0].1).value;
      CloneAll(m', states', length + 1, rows[1..], answers[1..])
  }

  lemma {:induction false} CloneAllAppends(m: Mem, states: Ptr, ptrs: seq<Ptr>, had: seq<seq<Byte>>,
                                           rows: seq<seq<Byte>>, answers: seq<(Answer, Answer)>)
    returns (all: seq<Ptr>)
    requires HoldsRows(m, states, ptrs, had) && Owns(m) && Granted(m, states, |had|, rows, answers)
    ensures var (m', states') := CloneAll(m, states, |had|, rows, answers);
            HoldsRows(m', states', all, had + rows) && Owns(m')
    decreases |rows|
  {
    hide HoldsRows, Owns, CloneState;
    if rows == [] {
      all := ptrs;
      assert had + rows == had;
    } else {
      var (first, second) := answers[0];
      CloneAppends(m, states, ptrs, had, rows[0], first, second);
      var (m', states') := CloneState(m, states, |had|, rows[0], first, second).value;
      all := CloneAllAppends(m', states', ptrs + [second.ptr], had + [rows[0]], rows[1..], answers[1..]);
      assert had + [rows[0]] + rows[1..] == had + rows;
    }
  }

  /** The end of run_machine: one more pointer, which is null. */
  function Terminate(m: Mem, states: Ptr, length: nat, ans: Answer): (Mem, Ptr)
    requires Allowed(m, states, PTR_SIZE * length, PTR_SIZE * (length + 1), ans) && ans.Block?
  {
    var m1 := Grown(m, states, length, ans).mem;
    (m1.(heap := m1.heap[ans.ptr := WithLast(m1.heap[ans.ptr], length, NULL)]), ans.ptr)
  }

  /** Storing any rows from nothing on, and then the null pointer: the array points to each of them
      in order, in blocks of their own, and then to nothing; and the arena, if it owned its blocks,
      owns them and these, so that freeing it frees each of them once. */
  lemma RowsStored(m: Mem, rows: seq<seq<Byte>>, answers: seq<(Answer, Answer)>, last: Answer) returns (ptrs: seq<Ptr>)
    requires Owns(m) && Granted(m, NULL, 0, rows, answers)
    requires var (m1, states) := CloneAll(m, NULL, 0, rows, answers);
             last.Block? && Allowed(m1, states, PTR_SIZE * |rows|, PTR_SIZE * (|rows| + 1), last)
    ensures var (m1, states) := CloneAll(m, NULL, 0, rows, answers);
            var (m2, table) := Terminate(m1, states, |rows|, last);
            && HoldsEach(m2, table, ptrs, rows)
            && table in m2.heap && m2.heap[table] == Pack(ptrs + [NULL])
            && Owns(m2) && FreeList(m2.heap, m2.list) == Some(map[])
  {
    hide ToLe, Pack, Owns, CloneAll, Granted, TmpRealloc, FreeList, Over;
    assert HoldsRows(m, NULL, [], []);
    ptrs := CloneAllAppends(m, NULL, [], [], rows, answers);
    assert [] + rows == rows;
    var (m1, states) := CloneAll(m, NULL, 0, rows, answers);
    GrownPacks(m1, states, ptrs, rows, last, NULL);
    ReallocOwnsIff(m1, states, PTR_SIZE * |rows|, PTR_SIZE * (|rows| + 1), last);
    var g := Grown(m1, states, |rows|, last).mem;
    var (m2, table) := Terminate(m1, states, |rows|, last);
    forall i | 0 <= i < |ptrs| ensures HoldsRow(m2, table, ptrs[i], rows[i]) {
      assert HoldsRow(g, table, ptrs[i], rows[i]);
    }
    SameBlocksOwns(g, m2);
    OwnsFrees(m2);
  }

  lemma OwnsFrees(m: Mem)
    requires Owns(m)
    ensures FreeList(m.heap, m.list) == Some(map[])
  {
    hide FreeList;
    assert NULL !in m.heap;
    FreesEachOnce(m.heap, m.list);
  }

  // ---- The list ----

  class Node {
    var ptr: Ptr
    const next: Node?
    ghost const below: seq<Node>

    ghost predicate Chained() {
      below == Chain(next)
    }

    constructor (ptr: Ptr, next: Node?)
      ensures this.ptr == ptr && this.next == next && Chained()
    {
      this.ptr, this.next := ptr, next;
      this.below := Chain(next);
    }
  }

  ghost function Chain(l: Node?): seq<Node> {
    if l == null then [] else [l] + l.below
  }

  class TmpArena {
    var heap: map<Ptr, seq<Byte>>
    var list: Node?
    ghost var nodes: seq<Node>
    ghost var ptrs: seq<Ptr>

    ghost predicate Valid()
      reads this, nodes
    {
      && |ptrs| == |nodes| && (forall i :: 0 <= i < |nodes| ==> nodes[i].ptr == ptrs[i])
      && nodes == Chain(list)
      && (forall i, j :: 0 <= i < j < |nodes| ==> nodes[i] != nodes[j])
      && (forall i :: 0 <= i < |nodes| ==> nodes[i].Chained())
    }

    ghost function View(): Mem
      reads this
    {
      Mem(heap, ptrs)
    }

    constructor ()
      ensures Valid() && View() == Mem(map[], [])
    {
      heap, list, nodes, ptrs := map[], null, [], [];
    }

    method AddPtr(ptr: Ptr, block: seq<Byte>)
      requires Valid()
      modifies this
      ensures Valid() && View() == Add(old(View()), ptr, block)
    {
      var n := new Node(ptr, list);
      assert n !in nodes;
      list := n;
      nodes, ptrs := [n] + nodes, [ptr] + ptrs;
      heap := heap[ptr := block];
      assert forall i :: 0 < i < |nodes| ==> nodes[i] == old(nodes)[i - 1] && nodes[i].Chained();
    }

    method Malloc(size: nat, ans: Answer) returns (r: Option<Ptr>)
      requires Valid() && New(View(), ans, size)
      modifies this
      ensures Valid() && Result(View(), r) == TmpMalloc(old(View()), size, ans)
    {
      if ans.NoMemory? { return None; }
      AddPtr(ans.ptr, ans.fill);
      return Some(ans.ptr);
    }

    method Calloc(count: nat, size: nat, ans: Answer) returns (r: Option<Ptr>)
      requires Valid() && New(View(), ans, count * size)
      modifies this
      ensures Valid() && Result(View(), r) == TmpCalloc(old(View()), count, size, ans)
      ensures r.Some? ==> r.value in heap && Zeros(heap[r.value], count * size)
    {
      if ans.NoMemory? { return None; }
      AddPtr(ans.ptr, seq(count * size, _ => 0));
      return Some(ans.ptr);
    }

    method Realloc(oldPtr: Ptr, oldSize: nat, newSize: nat, ans: Answer) returns (r: Option<Ptr>)
      requires Valid() && Allowed(View(), oldPtr, oldSize, newSize, ans)
      modifies this, nodes
      ensures Valid() && Result(View(), r) == TmpRealloc(old(View()), oldPtr, oldSize, newSize, ans)
    {
      ghost var was := View();
      var content := if oldPtr == NULL then [] else heap[oldPtr];
      if list != null && list.ptr == oldPtr {
        assert OnTop(was, oldPtr) && list == nodes[0];
        if ans.NoMemory? {
          list.ptr := NULL;
          ptrs := ptrs[0 := NULL];
          return None;
        }
        heap := (heap - {oldPtr})[ans.ptr := Over(content, ans.fill)];
        list.ptr := ans.ptr;
        ptrs := ptrs[0 := ans.ptr];
        return Some(ans.ptr);
      }
      assert !OnTop(was, oldPtr);
      if ans.NoMemory? { return None; }
      AddPtr(ans.ptr, Over(content, ans.fill));
      return Some(ans.ptr);
    }

    /** The recursive walk from node `k` on. */
    method FreeRec(l: Node?, ghost k: nat) returns (doubleFree: bool)
      requires Valid() && k <= |nodes| && nodes[k..] == Chain(l)
      modifies this`heap
      ensures Valid()
      ensures match FreeList(old(heap), ptrs[k..])
              case None => doubleFree
              case Some(left) => !doubleFree && heap == left
      decreases |nodes| - k
    {
      if l == null { return false; }
      assert l == nodes[k..][0] == nodes[k] && nodes[k..][1..] == nodes[k + 1..];
      assert ptrs[k..][0] == l.ptr && ptrs[k..][1..] == ptrs[k + 1..];
      if l.ptr != NULL {
        if l.ptr !in heap { return true; }
        heap := heap - {l.ptr};
      }
      doubleFree := FreeRec(l.next, k + 1);
    }

    method FreeAll() returns (doubleFree: bool)
      requires Valid()
      modifies this
      ensures Valid() && View().list == []
      ensures match FreeList(old(heap), old(View().list))
              case None => doubleFree
              case Some(left) => !doubleFree && heap == left
    {
      assert nodes[0..] == nodes && ptrs[0..] == ptrs;
      doubleFree := FreeRec(list, 0);
      list, nodes, ptrs := null, [], [];
    }
  }
}
